/** The random-access byte cursor over a buffer sequence. */
module BuffersIterator {
  import opened Scatter

  datatype Cursor = Cursor(piece: nat, at: nat)

  /** `c` is the cursor for flat position `p`: inside a piece, or one past the last piece. */
  ghost predicate Denotes<T>(bs: seq<seq<T>>, c: Cursor, p: nat)
  {
    && c.piece <= |bs|
    && (if c.piece == |bs| then c.at == 0 else c.at < |bs[c.piece]|)
    && p == Offset(bs, c.piece) + c.at
  }

  /** Empty pieces notwithstanding, a position has one cursor. */
  lemma CursorIsUnique<T>(bs: seq<seq<T>>, c: Cursor, d: Cursor, p: nat)
    requires Denotes(bs, c, p) && Denotes(bs, d, p)
    ensures c == d
  {
    if c.piece < d.piece {
      OffsetMonotone(bs, c.piece + 1, d.piece);
    } else if d.piece < c.piece {
      OffsetMonotone(bs, d.piece + 1, c.piece);
    }
  }

  /** The cursor of a position inside the data sees that byte of the flat sequence. */
  lemma CursorSeesFlat<T>(bs: seq<seq<T>>, c: Cursor, p: nat)
    requires Denotes(bs, c, p)
    ensures p <= |Flat(bs)|
    ensures p == |Flat(bs)| <==> c.piece == |bs|
    ensures p < |Flat(bs)| ==> c.piece < |bs| && bs[c.piece][c.at] == Flat(bs)[p]
  {
    OffsetEnd(bs);
    if c.piece < |bs| {
      PieceInFlat(bs, c.piece);
    }
  }

  /** The first non-empty piece from `i` on, or the end. */
  function SkipEmpty<T>(bs: seq<seq<T>>, i: nat): (r: nat)
    requires i <= |bs|
    ensures i <= r <= |bs| && (r < |bs| ==> bs[r] != [])
    ensures Offset(bs, r) == Offset(bs, i)
    decreases |bs| - i
  {
    if i == |bs| || |bs[i]| > 0 then i
    else
      assert Offset(bs, i + 1) == Offset(bs, i);
      SkipEmpty(bs, i + 1)
  }

  /** One step to the right, in terms of pieces. */
  function Next<T>(bs: seq<seq<T>>, c: Cursor): (d: Cursor)
    requires c.piece < |bs| && c.at < |bs[c.piece]|
    ensures Denotes(bs, d, Offset(bs, c.piece) + c.at + 1)
  {
    if c.at + 1 < |bs[c.piece]| then Cursor(c.piece, c.at + 1)
    else
      assert Offset(bs, c.piece + 1) == Offset(bs, c.piece) + |bs[c.piece]|;
      Cursor(SkipEmpty(bs, c.piece + 1), 0)
  }

  /** `n` steps to the right. */
  ghost function Steps<T>(bs: seq<seq<T>>, c: Cursor, p: nat, n: nat): (d: Cursor)
    requires Denotes(bs, c, p) && p + n <= |Flat(bs)|
    ensures Denotes(bs, d, p + n)
    decreases n
  {
    CursorSeesFlat(bs, c, p);
    if n == 0 then c else Steps(bs, Next(bs, c), p + 1, n - 1)
  }

  class Iterator<T> {
    const bufs: seq<seq<T>>
    var current: nat
    var currentBuffer: seq<T>
    var bufferPosition: nat
    var position: nat

    ghost function At(): (c: Cursor)
      reads this
    {
      Cursor(current, bufferPosition)
    }

    /** The cursor is the one its position has, and the cached piece is current. */
    ghost predicate Valid()
      reads this
    {
      && Denotes(bufs, At(), position)
      && (current < |bufs| ==> currentBuffer == bufs[current])
    }

    constructor Begin(buffers: seq<seq<T>>)
      ensures Valid() && bufs == buffers && position == 0
    {
      bufs := buffers;
      current, currentBuffer, bufferPosition, position := 0, [], 0, 0;
      new;
      while current != |bufs|
        invariant current <= |bufs| && bufs == buffers
        invariant Offset(bufs, current) == 0 && bufferPosition == 0 && position == 0
      {
        currentBuffer := bufs[current];
        if |currentBuffer| > 0 {
          break;
        }
        current := current + 1;
      }
    }

    constructor End(buffers: seq<seq<T>>)
      ensures Valid() && bufs == buffers && position == |Flat(buffers)|
    {
      bufs := buffers;
      current, currentBuffer, bufferPosition, position := 0, [], 0, 0;
      new;
      while current != |bufs|
        invariant current <= |bufs| && bufs == buffers
        invariant position == Offset(bufs, current) && bufferPosition == 0
      {
        position := position + |bufs[current]|;
        current := current + 1;
      }
      OffsetEnd(bufs);
    }

    method Dereference() returns (b: T)
      requires Valid() && position < |Flat(bufs)|
      ensures b == Flat(bufs)[position]
    {
      CursorSeesFlat(bufs, At(), position);
      b := currentBuffer[bufferPosition];
    }

    /** Comparing positions compares cursors. */
    method Equal(other: Iterator<T>) returns (r: bool)
      requires Valid() && other.Valid() && bufs == other.bufs
      ensures r <==> At() == other.At()
    {
      r := position == other.position;
      if r { CursorIsUnique(bufs, At(), other.At(), position); }
    }

    method Increment()
      requires Valid() && position < |Flat(bufs)|
      modifies this
      ensures Valid() && position == old(position) + 1
      ensures At() == Steps(bufs, old(At()), old(position), 1)
    {
      CursorSeesFlat(bufs, At(), position);
      ghost var there := Next(bufs, At());
      assert there == Steps(bufs, At(), position, 1);
      position := position + 1;
      bufferPosition := bufferPosition + 1;
      if bufferPosition != |currentBuffer| {
        return;
      }
      current := current + 1;
      bufferPosition := 0;
      while current != |bufs|
        invariant current <= |bufs| && bufferPosition == 0
        invariant SkipEmpty(bufs, current) == there.piece
        invariant Offset(bufs, current) == position
      {
        currentBuffer := bufs[current];
        if |currentBuffer| > 0 {
          return;
        }
        current := current + 1;
      }
    }

    method Decrement()
      requires Valid() && 0 < position
      modifies this
      ensures Valid() && position == old(position) - 1
      ensures old(position) <= |Flat(bufs)| && old(At()) == Steps(bufs, At(), position, 1)
    {
      ghost var from := At();
      position := position - 1;
      if bufferPosition != 0 {
        bufferPosition := bufferPosition - 1;
        StepsLand(bufs, At(), position, from, 1);
        return;
      }
      var iter: nat := current;
      while iter != 0
        invariant iter <= current <= |bufs|
        invariant Offset(bufs, iter) == position + 1
      {
        iter := iter - 1;
        var buffer := bufs[iter];
        if |buffer| > 0 {
          current := iter;
          currentBuffer := buffer;
          bufferPosition := |buffer| - 1;
          StepsLand(bufs, At(), position, from, 1);
          return;
        }
      }
    }

    method AdvanceForward(n: nat)
      requires Valid() && position + n <= |Flat(bufs)| && 0 < n
      modifies this
      ensures Valid() && position == old(position) + n
    {
      CursorSeesFlat(bufs, At(), position);
      OffsetEnd(bufs);
      var left: int := n;
      while true
        invariant current < |bufs| && currentBuffer == bufs[current] && bufferPosition <= |currentBuffer|
        invariant position == Offset(bufs, current) + bufferPosition
        invariant 0 <= left && position + left == old(position) + n
        decreases |bufs| - current
      {
        var balance := |currentBuffer| - bufferPosition;
        if balance > left {
          position := position + left;
          bufferPosition := bufferPosition + left;
          return;
        }
        left := left - balance;
        position := position + balance;
        current := current + 1;
        if current == |bufs| {
          assert left == 0;
          currentBuffer := [];
          bufferPosition := 0;
          return;
        }
        currentBuffer := bufs[current];
        bufferPosition := 0;
      }
    }

    method AdvanceBackward(n: nat)
      requires Valid() && n <= position && 0 < n
      modifies this
      ensures Valid() && position == old(position) - n
    {
      var left: int := n;
      while true
        invariant current <= |bufs|
        invariant if current == |bufs| then bufferPosition == 0
                  else currentBuffer == bufs[current] && bufferPosition <= |currentBuffer|
        invariant position == Offset(bufs, current) + bufferPosition
        invariant 0 < left <= position && position - left == old(position) - n
        decreases current
      {
        if bufferPosition >= left {
          position := position - left;
          bufferPosition := bufferPosition - left;
          return;
        }
        left := left - bufferPosition;
        position := position - bufferPosition;
        if current == 0 {
          // The code's own out-of-bounds assertion: there is still distance to cover.
          assert false;
        }
        var iter: nat := current;
        var found := false;
        ghost var from := current;
        while iter != 0 && !found
          invariant iter <= from <= |bufs|
          invariant position == Offset(bufs, from)
          invariant !found ==> current == from && Offset(bufs, iter) == position
          invariant found ==> current < from && currentBuffer == bufs[current] && bufferPosition == |currentBuffer|
          invariant found ==> Offset(bufs, current) + bufferPosition == position
          decreases iter, !found
        {
          iter := iter - 1;
          var buffer := bufs[iter];
          if |buffer| > 0 {
            current := iter;
            currentBuffer := buffer;
            bufferPosition := |buffer|;
            found := true;
          }
        }
      }
    }

    /** One jump is that many single steps, in either direction. */
    method Advance(n: int)
      requires Valid() && 0 <= position + n <= |Flat(bufs)|
      modifies this
      ensures Valid() && position == old(position) + n
      ensures 0 <= n ==> At() == Steps(bufs, old(At()), old(position), n)
      ensures n < 0 ==> old(position) <= |Flat(bufs)| && old(At()) == Steps(bufs, At(), position, -n)
    {
      ghost var from, start := At(), position;
      if n > 0 {
        AdvanceForward(n);
        StepsLand(bufs, from, start, At(), n);
      } else if n < 0 {
        AdvanceBackward(-n);
        StepsLand(bufs, At(), position, from, -n);
      }
    }

    method DistanceTo(other: Iterator<T>) returns (d: int)
      requires Valid() && other.Valid() && bufs == other.bufs
      ensures 0 <= d ==> position + d <= |Flat(bufs)| && other.At() == Steps(bufs, At(), position, d)
      ensures d < 0 ==> other.position - d <= |Flat(bufs)| && At() == Steps(bufs, other.At(), other.position, -d)
    {
      d := other.position - position;
      if 0 <= d {
        StepsLand(bufs, At(), position, other.At(), d);
      } else {
        StepsLand(bufs, other.At(), other.position, At(), -d);
      }
    }
  }

  /** Two cursors `n` positions apart are `n` single steps apart. */
  lemma StepsLand<T>(bs: seq<seq<T>>, c: Cursor, p: nat, d: Cursor, n: nat)
    requires Denotes(bs, c, p) && Denotes(bs, d, p + n)
    ensures p + n <= |Flat(bs)| && d == Steps(bs, c, p, n)
  {
    CursorSeesFlat(bs, d, p + n);
    CursorIsUnique(bs, d, Steps(bs, c, p, n), p + n);
  }

  datatype Move = PlusPlus | MinusMinus | Jump(n: int) {
    function By(): (d: int)
    {
      match this case PlusPlus => 1 case MinusMinus => -1 case Jump(n) => n
    }
  }

  function Travelled(moves: seq<Move>): (d: int)
  {
    if moves == [] then 0 else Travelled(moves[..|moves| - 1]) + moves[|moves| - 1].By()
  }

  /** Any in-bounds walk ends at the cursor of the position it adds up to, seeing that byte. */
  method Walk<T>(it: Iterator<T>, moves: seq<Move>)
    requires it.Valid()
    requires forall k :: 0 <= k <= |moves| ==> 0 <= it.position + Travelled(moves[..k]) <= |Flat(it.bufs)|
    modifies it
    ensures it.Valid() && it.position == old(it.position) + Travelled(moves)
    ensures it.position < |Flat(it.bufs)| ==>
      it.current < |it.bufs| && it.bufferPosition < |it.bufs[it.current]|
      && it.bufs[it.current][it.bufferPosition] == Flat(it.bufs)[it.position]
  {
    for k := 0 to |moves|
      invariant it.Valid() && it.position == old(it.position) + Travelled(moves[..k])
    {
      assert moves[..k + 1][..k] == moves[..k];
      assert 0 <= old(it.position) + Travelled(moves[..k + 1]) <= |Flat(it.bufs)|;
      match moves[k]
      case PlusPlus => it.Increment();
      case MinusMinus => it.Decrement();
      case Jump(n) => it.Advance(n);
    }
    assert moves[..|moves|] == moves;
    CursorSeesFlat(it.bufs, it.At(), it.position);
  }
}
