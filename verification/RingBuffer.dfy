/** The growing ring buffer, as the in-place class it is, with each operation proved against a
    relation on value snapshots. */
module RingBuffer {
  import opened Common
  import opened RingGrowth

  /** A value snapshot of a buffer: its geometry and the bytes it logically holds. */
  datatype Ring = Ring(cap: nat, head: nat, tail: nat, full: bool, contents: seq<byte>)

  /** The number of bytes held, from the geometry alone. */
  function Held(cap: int, head: int, tail: int, full: bool): (n: int)
  {
    if head == tail && !full then 0
    else if full then cap
    else if head < tail then tail - head
    else cap - head + tail
  }

  /** Bounds, the meaning of the full flag, and agreement of geometry and contents. */
  predicate Sound(s: Ring)
  {
    && 0 < s.cap && s.head < s.cap && s.tail < s.cap
    && (s.full ==> s.head == s.tail)
    && |s.contents| == Held(s.cap, s.head, s.tail, s.full)
  }

  /** Growing keeps the contents from this state. */
  predicate GrowsLosslessly(s: Ring)
  {
    s.head == 0 || s.full
  }

  /** Appending `n` bytes does not lose anything from this state. */
  predicate AppendsLosslessly(s: Ring, n: nat)
  {
    |s.contents| + n <= s.cap || GrowsLosslessly(s)
  }

  /** The capacity, head and tail an append works with once it has made room. */
  function Roomy(s: Ring, n: nat): (g: (nat, nat, nat))
    requires Sound(s) && |s.contents| + n <= MAX
  {
    if |s.contents| + n <= s.cap then (s.cap, s.head, s.tail)
    else (Refixed(s.cap, |s.contents| + n), 0, if s.full then s.cap else s.tail)
  }

  ghost predicate AppendRel(s: Ring, src: seq<byte>, s': Ring, n: int)
    requires Sound(s)
  {
    if src == [] || |s.contents| + |src| > MAX then
      n == 0 && s' == s
    else
      var (cap, head, tail) := Roomy(s, |src|);
      && n == |src|
      && tail < cap && |src| <= cap && s'.cap == cap && s'.head == head
      && s'.tail == Around(cap, tail, |src|)
      && s'.full == (s'.head == s'.tail)
      && Sound(s')
      && (s'.contents == s.contents + src <==> AppendsLosslessly(s, |src|))
  }

  /** Removing `n` bytes from the front. */
  ghost predicate DropRel(s: Ring, n: nat, s': Ring)
    requires Sound(s) && n <= |s.contents|
  {
    && s'.cap == s.cap && s'.tail == s.tail && !s'.full
    && s'.head == Around(s.cap, s.head, n)
    && s'.contents == s.contents[n..]
  }

  datatype Op = Append(src: seq<byte>) | WriteTo(n: nat) | Peek(n: nat) | Skip(k: int) | Clear

  datatype Out = Count(n: int) | Read(bytes: seq<byte>) | Flag(ok: bool) | Done

  /** What one call does, on snapshots: the contract of every method of Buffer. */
  ghost predicate Step(s: Ring, op: Op, s': Ring, out: Out)
    requires Sound(s)
  {
    match op
    case Append(src) =>
      |s.contents| + |src| <= INT32_MAX && out.Count? && AppendRel(s, src, s', out.n)
    case WriteTo(n) =>
      var k := Min(n, |s.contents|);
      out == Read(s.contents[..k]) && if k == 0 then s' == s else DropRel(s, k, s')
    case Peek(n) =>
      out == Read(s.contents[..Min(n, |s.contents|)]) && s' == s
    case Skip(k) =>
      if 0 < k <= |s.contents| then out == Flag(true) && DropRel(s, k, s') else out == Flag(false) && s' == s
    case Clear =>
      out == Done && s' == Ring(s.cap, 0, 0, false, [])
  }

  /** The logical bytes of an allocation with this geometry. */
  function Window(d: seq<byte>, head: int, tail: int, full: bool): (s: seq<byte>)
    requires 0 <= head <= |d| && 0 <= tail <= |d|
    requires full ==> head == tail
    ensures |s| == Held(|d|, head, tail, full)
  {
    if head == tail && !full then []
    else if head < tail then d[head..tail]
    else d[head..] + d[..tail]
  }

  /** The allocation after `bytes` are copied in at `tail`, in one piece or wrapped into two. */
  function Stored(d: seq<byte>, tail: int, bytes: seq<byte>): (r: seq<byte>)
    requires 0 <= tail < |d| && |bytes| <= |d|
    ensures |r| == |d|
  {
    if tail + |bytes| <= |d| then Splice(d, tail, bytes)
    else bytes[|d| - tail..] + d[tail + |bytes| - |d|..tail] + bytes[..|d| - tail]
  }

  lemma StoredInTwo(d: seq<byte>, tail: int, bytes: seq<byte>)
    requires 0 <= tail < |d| < tail + |bytes| && |bytes| <= |d|
    ensures Splice(Splice(d, tail, bytes[..|d| - tail]), 0, bytes[|d| - tail..]) == Stored(d, tail, bytes)
  {
  }

  /** Going `i` places round the ring from `start`. */
  function Around(cap: int, start: int, i: int): (k: int)
    requires 0 <= start < cap && 0 <= i <= cap
    ensures 0 <= k < cap
  {
    if start + i < cap then start + i else start + i - cap
  }

  /** The remainder the code takes goes round the ring. */
  lemma ModIsAround(cap: int, start: int, i: int)
    requires 0 <= start < cap && 0 <= i <= cap
    ensures (start + i) % cap == Around(cap, start, i)
  {
    var q, r := (start + i) / cap, (start + i) % cap;
    assert start + i == q * cap + r;
    assert q >= 2 ==> q * cap >= 2 * cap;
    assert q == 0 || q == 1;
  }

  lemma WindowAt(d: seq<byte>, head: int, tail: int, full: bool, i: int)
    requires 0 <= head < |d| && 0 <= tail < |d| && (full ==> head == tail)
    requires 0 <= i < Held(|d|, head, tail, full)
    ensures Window(d, head, tail, full)[i] == d[Around(|d|, head, i)]
  {
  }

  lemma StoredAt(d: seq<byte>, tail: int, bytes: seq<byte>, i: int)
    requires 0 <= tail < |d| && |bytes| <= |d| && 0 <= i < |d|
    ensures Stored(d, tail, bytes)[Around(|d|, tail, i)] ==
            if i < |bytes| then bytes[i] else d[Around(|d|, tail, i)]
  {
  }

  /** Copying into free space moves the end of the window by that much and leaves the rest. */
  lemma StoringAt(d: seq<byte>, head: int, tail: int, bytes: seq<byte>, i: int)
    requires 0 <= head < |d| && 0 <= tail < |d| && 0 < |bytes|
    requires Held(|d|, head, tail, false) + |bytes| <= |d|
    requires 0 <= i < Held(|d|, head, tail, false) + |bytes|
    ensures
      var held := Held(|d|, head, tail, false);
      Stored(d, tail, bytes)[Around(|d|, head, i)] ==
        if i < held then d[Around(|d|, head, i)] else bytes[i - held]
  {
    var held := Held(|d|, head, tail, false);
    var k := Around(|d|, head, i);
    if i < held {
      var j := i - held + |d|;
      assert Around(|d|, tail, j) == k;
      StoredAt(d, tail, bytes, j);
    } else {
      assert Around(|d|, tail, i - held) == k;
      StoredAt(d, tail, bytes, i - held);
    }
  }

  lemma HeldAfterStoring(cap: int, head: int, tail: int, n: int)
    requires 0 <= head < cap && 0 <= tail < cap && 0 < n
    requires Held(cap, head, tail, false) + n <= cap
    ensures
      var tail' := Around(cap, tail, n);
      Held(cap, head, tail', head == tail') == Held(cap, head, tail, false) + n
  {
  }

  /** Copying into free space extends the logical bytes at their end. */
  lemma StoringExtends(d: seq<byte>, head: int, tail: int, bytes: seq<byte>)
    requires 0 <= head < |d| && 0 <= tail < |d| && 0 < |bytes|
    requires Held(|d|, head, tail, false) + |bytes| <= |d|
    ensures
      var tail' := Around(|d|, tail, |bytes|);
      Window(Stored(d, tail, bytes), head, tail', head == tail') == Window(d, head, tail, false) + bytes
  {
    HeldAfterStoring(|d|, head, tail, |bytes|);
    var tail' := Around(|d|, tail, |bytes|);
    var after, before := Window(Stored(d, tail, bytes), head, tail', head == tail'), Window(d, head, tail, false);
    forall i | 0 <= i < |after|
      ensures after[i] == (before + bytes)[i]
    {
      WindowAt(Stored(d, tail, bytes), head, tail', head == tail', i);
      StoringAt(d, head, tail, bytes, i);
      if i < |before| { WindowAt(d, head, tail, false, i); }
    }
  }

  /** Advancing head drops exactly that many logical bytes. */
  lemma DroppingShortens(d: seq<byte>, head: int, tail: int, full: bool, n: int)
    requires 0 <= head < |d| && 0 <= tail < |d| && (full ==> head == tail)
    requires 0 < n <= Held(|d|, head, tail, full)
    ensures Window(d, Around(|d|, head, n), tail, false) == Window(d, head, tail, full)[n..]
  {
    var head' := Around(|d|, head, n);
    var after, before := Window(d, head', tail, false), Window(d, head, tail, full);
    assert |after| == |before| - n;
    forall i | 0 <= i < |after|
      ensures after[i] == before[n..][i]
    {
      WindowAt(d, head', tail, false, i);
      WindowAt(d, head, tail, full, n + i);
      assert Around(|d|, head', i) == Around(|d|, head, n + i);
    }
  }

  /** The first `n` logical bytes, in one piece or two. */
  lemma FrontPieces(d: seq<byte>, head: int, tail: int, full: bool, n: int)
    requires 0 <= head < |d| && 0 <= tail < |d| && (full ==> head == tail)
    requires 0 <= n <= Held(|d|, head, tail, full)
    ensures Window(d, head, tail, full)[..n] ==
            if head + n <= |d| then d[head..head + n] else d[head..] + d[..head + n - |d|]
  {
  }

  /** An append that grows from any other state ends up with the wrong number of bytes. */
  lemma LossyGrowthMiscounts(cap: int, head: int, tail: int, n: int, newCap: int)
    requires 0 < head < cap && 0 <= tail < cap && 0 < n
    requires cap < newCap && Held(cap, head, tail, false) + n <= newCap
    ensures
      var tail' := Around(newCap, tail, n);
      Held(newCap, 0, tail', 0 == tail') != Held(cap, head, tail, false) + n
  {
  }

  /** Storing into an allocation with room is what an append is specified to do. */
  lemma StoringIsAppending(s: Ring, d: seq<byte>, head: nat, tail: nat, bytes: seq<byte>)
    requires Sound(s) && 0 < |bytes| && |s.contents| + |bytes| <= MAX
    requires Roomy(s, |bytes|) == (|d|, head, tail)
    requires head < |d| && tail < |d| && |bytes| <= |d|
    requires s.cap <= |d| && |s.contents| + |bytes| <= |d|
    requires AppendsLosslessly(s, |bytes|) ==> Window(d, head, tail, false) == s.contents
    ensures
      var tail' := Around(|d|, tail, |bytes|);
      var after := Window(Stored(d, tail, bytes), head, tail', head == tail');
      AppendRel(s, bytes, Ring(|d|, head, tail', head == tail', after), |bytes|)
  {
    if AppendsLosslessly(s, |bytes|) {
      StoringExtends(d, head, tail, bytes);
    } else {
      LossyGrowthMiscounts(s.cap, s.head, s.tail, |bytes|, |d|);
    }
  }

  method Memcpy(dst: array<byte>, at: nat, src: seq<byte>)
    requires at + |src| <= dst.Length
    modifies dst
    ensures dst[..] == Splice(old(dst[..]), at, src)
  {
    forall i | 0 <= i < |src| { dst[at + i] := src[i]; }
  }

  /** Two pieces, one behind the other. */
  method MemcpyTwo(dst: array<byte>, at: nat, a: seq<byte>, b: seq<byte>)
    requires at + |a| + |b| <= dst.Length
    modifies dst
    ensures dst[..] == Splice(old(dst[..]), at, a + b)
  {
    SpliceAdjacent(dst[..], at, a, b);
    Memcpy(dst, at, a);
    Memcpy(dst, at + |a|, b);
  }

  /** From `tail` to the end of the allocation and on from its start. */
  method MemcpyRound(dst: array<byte>, tail: nat, bytes: seq<byte>)
    requires tail < dst.Length < tail + |bytes| && |bytes| <= dst.Length
    modifies dst
    ensures dst[..] == Stored(old(dst[..]), tail, bytes)
  {
    var rightFree := dst.Length - tail;
    StoredInTwo(dst[..], tail, bytes);
    Memcpy(dst, tail, bytes[..rightFree]);
    Memcpy(dst, 0, bytes[rightFree..]);
  }

  class Buffer {
    /** The allocation; the empty array stands for the null pointer before the first `realloc`. */
    var data: array<byte>
    var size: int
    var head: int
    var tail: int
    var full: bool

    /** Also holds of the cleaned-up object that the constructor starts from. */
    ghost predicate Allocated()
      reads this
    {
      && data.Length == size
      && 0 <= head <= size && 0 <= tail <= size
      && (full ==> head == tail)
      && (if size == 0 then !full else head < size && tail < size)
    }

    ghost predicate Valid()
      reads this
    {
      Allocated() && 0 < size
    }

    predicate Empty()
      reads this
    {
      head == tail && !full
    }

    function Length(): (n: int)
      reads this
      ensures n == Held(size, head, tail, full)
    {
      if Empty() then 0
      else if full then size
      else if head < tail then tail - head
      else (size - head) + tail
    }

    ghost function Contents(): (s: seq<byte>)
      requires Allocated()
      reads this, data
      ensures |s| == Length()
    {
      Window(data[..], head, tail, full)
    }

    ghost function View(): (s: Ring)
      requires Valid()
      reads this, data
      ensures Sound(s)
    {
      Ring(size, head, tail, full, Contents())
    }

    /** The default constructor: requests up to 64 bytes give 64. Larger initial sizes never get
        through the growth loop (RingGrowth.GrowthTerminatesIff at capacity 0). */
    constructor (initSize: int := SMALL)
      requires initSize <= SMALL
      ensures Valid() && fresh(data)
      ensures View() == Ring(SMALL, 0, 0, false, [])
    {
      data := new byte[0];
      size, head, tail, full := 0, 0, 0, false;
      new;
      var wanted := if initSize > SMALL then initSize else SMALL;
      wanted := if wanted > MAX then MAX else wanted;
      var ok := Resize(wanted);
    }

    method Clear()
      requires Valid()
      modifies this
      ensures Valid() && data == old(data)
      ensures Step(old(View()), Op.Clear, View(), Done)
    {
      tail, head := 0, 0;
      full := false;
    }

    /** The copying half of `realloc`: the logical bytes, in order, at the front of a new allocation. */
    method Linearised(newSize: int) returns (newData: array<byte>)
      requires Allocated() && size < newSize
      ensures fresh(newData) && newData.Length == newSize
      ensures newData[..Length()] == Contents()
    {
      newData := new byte[newSize];
      ghost var blank := newData[..];
      if head < tail {
        Memcpy(newData, 0, data[head..tail]);
        SpliceFront(blank, data[head..tail]);
      } else {
        MemcpyTwo(newData, 0, data[head..], data[..tail]);
        SpliceFront(blank, data[head..] + data[..tail]);
      }
    }

    method Realloc(newSize: int)
      requires Allocated() && size < newSize
      modifies this
      ensures Valid() && fresh(data)
      ensures size == newSize && head == 0 && !full
      ensures tail == if old(full) then old(size) else old(tail)
      ensures data[..old(Length())] == old(Contents())
      ensures Contents() == old(Contents()) <==> old(head) == 0 || old(full)
    {
      var newData := Linearised(newSize);
      data := newData;
      head := 0;
      tail := Length();
      size := newSize;
      full := tail == size;
    }

    /** The same with the length taken before the head is zeroed: it loses nothing, from any state. */
    method ReallocLengthFirst(newSize: int)
      requires Allocated() && size < newSize
      modifies this
      ensures Valid() && fresh(data) && size == newSize
      ensures Contents() == old(Contents())
    {
      var newData := Linearised(newSize);
      data := newData;
      tail := Length();
      head := 0;
      size := newSize;
      full := tail == size;
    }

    method Resize(newSize: int) returns (ok: bool)
      requires Allocated()
      requires size == 0 ==> newSize <= SMALL
      modifies this
      ensures Allocated() && (old(size) > 0 || ok ==> Valid())
      ensures ok ==> newSize <= size
      ensures !ok || newSize <= old(size) ==>
        data == old(data) && size == old(size) && head == old(head) && tail == old(tail) && full == old(full)
      ensures ok && old(size) < newSize ==>
        && fresh(data)
        && newSize <= MAX && size == Refixed(old(size), newSize) && head == 0 && !full
        && tail == (if old(full) then old(size) else old(tail))
        && data[..old(Length())] == old(Contents())
        && (Contents() == old(Contents()) <==> old(head) == 0 || old(full))
      ensures old(size) == 0 || OnLadder(old(size)) ==> (ok <==> 0 < newSize <= MAX)
      ensures ok && OnLadder(old(size)) && old(size) < newSize ==> LeastRung(size, newSize)
    {
      if !(newSize > 0 && newSize <= MAX) {
        return false;
      }
      if size >= newSize {
        return true;
      }
      var fixed := RefixNewSize(size, newSize);
      if OnLadder(size) { ClimbStaysOnLadder(size, newSize); }
      if !(fixed > 0 && fixed <= MAX) {
        return false;
      }
      Realloc(fixed);
      return true;
    }

    /** The copying half of `append`, once there is room. */
    method Store(bytes: seq<byte>)
      requires Valid() && !full && 0 < |bytes| <= size
      requires tail < head ==> tail + |bytes| <= head
      modifies this`tail, this`full, data
      ensures Valid()
      ensures data[..] == Stored(old(data[..]), old(tail), bytes)
      ensures tail == Around(size, old(tail), |bytes|) && full == (head == tail)
    {
      if head <= tail {
        var rightFree := size - tail;
        if |bytes| <= rightFree {
          Memcpy(data, tail, bytes);
        } else {
          MemcpyRound(data, tail, bytes);
        }
      } else {
        Memcpy(data, tail, bytes);
      }
      ModIsAround(size, tail, |bytes|);
      tail := (tail + |bytes|) % size;
      full := head == tail;
    }

    /** This buffer is what `s` becomes once `n` more bytes fit. */
    ghost predicate HasRoom(s: Ring, n: nat)
      requires Sound(s) && |s.contents| + n <= MAX
      reads this, data
    {
      && Valid() && !full
      && Roomy(s, n) == (size, head, tail)
      && s.cap <= size && |s.contents| + n <= size && (tail < head ==> tail + n <= head)
      && (AppendsLosslessly(s, n) ==> Contents() == s.contents)
    }

    /** The copying half of `append` completes it. */
    method StoreFor(bytes: seq<byte>, ghost s: Ring)
      requires Sound(s) && 0 < |bytes| && |s.contents| + |bytes| <= MAX
      requires HasRoom(s, |bytes|)
      modifies this`tail, this`full, data
      ensures Valid() && AppendRel(s, bytes, View(), |bytes|)
    {
      StoringIsAppending(s, data[..], head, tail, bytes);
      Store(bytes);
    }

    /** The growing half of `append`. */
    method MakeRoom(n: nat) returns (ok: bool)
      requires Valid() && OnLadder(size) && 0 < n
      modifies this
      ensures Valid() && OnLadder(size)
      ensures data == old(data) || fresh(data)
      ensures ok <==> old(Length()) + n <= MAX
      ensures !ok ==> data == old(data) && View() == old(View())
      ensures ok ==> HasRoom(old(View()), n)
      ensures ok && old(size) < old(Length()) + n ==> LeastRung(size, old(Length()) + n)
    {
      if size - Length() < n {
        ghost var cap, held := size, Length();
        ok := Resize(Length() + n);
        if ok { ClimbStaysOnLadder(cap, held + n); }
        return ok;
      }
      return true;
    }

    method Append(src: Option<seq<byte>>, n: int) returns (r: int)
      requires Valid() && OnLadder(size)
      requires src.Some? ==> n <= |src.value|
      requires Length() + n <= INT32_MAX
      modifies this, data
      ensures Valid() && OnLadder(size)
      ensures data == old(data) || fresh(data)
      ensures src == None || n <= 0 ==> r == 0 && View() == old(View())
      ensures r > 0 && old(size) < old(Length()) + n ==> LeastRung(size, old(Length()) + n)
      ensures src.Some? && 0 < n ==> Step(old(View()), Op.Append(src.value[..n]), View(), Count(r))
    {
      if src == None || n <= 0 {
        return 0;
      }
      ghost var s := View();
      var bytes := src.value[..n];
      var ok := MakeRoom(n);
      if !ok {
        return 0;
      }
      StoreFor(bytes, s);
      r := n;
    }

    /** The wrapped read shared by `write_to` and `peek`. */
    method CopyFront(dst: array<byte>, n: nat)
      requires Valid() && !Empty() && n <= Length() && n <= dst.Length && dst != data
      modifies dst
      ensures dst[..] == Splice(old(dst[..]), 0, Contents()[..n])
    {
      var d := data[..];
      FrontPieces(d, head, tail, full, n);
      if head < tail {
        Memcpy(dst, 0, d[head..head + n]);
      } else {
        var rightFree := size - head;
        if n <= rightFree {
          Memcpy(dst, 0, d[head..head + n]);
        } else {
          MemcpyTwo(dst, 0, d[head..], d[..n - rightFree]);
        }
      }
    }

    /** The head moves past `n` bytes and the buffer is no longer full. */
    method Drop(n: nat)
      requires Valid() && 0 < n <= Length()
      modifies this`head, this`full
      ensures Valid() && DropRel(old(View()), n, View())
    {
      DroppingShortens(data[..], head, tail, full, n);
      ModIsAround(size, head, n);
      head := (head + n) % size;
      full := false;
    }

    method WriteTo(dst: array?<byte>, n: nat) returns (r: int)
      requires Valid()
      requires dst != null ==> dst != data && Min(n, Length()) <= dst.Length
      modifies this`head, this`full, dst
      ensures Valid()
      ensures dst == null || n == 0 ==> r == 0 && View() == old(View())
      ensures dst != null ==>
        && 0 <= r <= dst.Length
        && Step(old(View()), Op.WriteTo(n), View(), Read(dst[..r]))
        && dst[r..] == old(dst[..])[r..]
    {
      if dst == null || n == 0 {
        return 0;
      }
      if Empty() {
        return 0;
      }
      var k := n;
      if Length() < k {
        k := Length();
      }
      CopyFront(dst, k);
      Drop(k);
      return k;
    }

    method Peek(dst: array?<byte>, n: nat) returns (r: int)
      requires Valid()
      requires dst != null ==> dst != data && Min(n, Length()) <= dst.Length
      modifies dst
      ensures Valid() && View() == old(View())
      ensures dst == null ==> r == 0
      ensures dst != null ==>
        && 0 <= r <= dst.Length
        && Step(old(View()), Op.Peek(n), View(), Read(dst[..r]))
        && dst[r..] == old(dst[..])[r..]
    {
      if dst == null || n == 0 {
        return 0;
      }
      if Empty() {
        return 0;
      }
      var k := n;
      if Length() < k {
        k := Length();
      }
      CopyFront(dst, k);
      return k;
    }

    method Skip(n: int) returns (ok: bool)
      requires Valid()
      modifies this`head, this`full
      ensures Valid()
      ensures Step(old(View()), Op.Skip(n), View(), Flag(ok))
    {
      if n <= 0 {
        return false;
      }
      if Length() < n {
        return false;
      }
      Drop(n);
      return true;
    }
  }
}
