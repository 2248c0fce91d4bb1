/** `buffer_copy` between buffer sequences, for every combination of single and multiple buffers.
    Target pieces are distinct arrays, source pieces are read-only byte sequences: the copy is
    built on memcpy, so targets and sources do not overlap. */
module BufferCopy {
  import opened Common
  import opened Scatter

  const SIZE_MAX: nat := 0xffff_ffff_ffff_ffff

  /** `buffer_size` of a sequence is the length of its flat form. */
  method BufferSize(bs: seq<seq<byte>>) returns (total: nat)
    ensures total == |Flat(bs)|
  {
    total := 0;
    for i := 0 to |bs|
      invariant total == Offset(bs, i)
    {
      total := total + |bs[i]|;
    }
    OffsetEnd(bs);
  }

  ghost predicate Distinct(ts: seq<array<byte>>)
  {
    forall i, j :: 0 <= i < j < |ts| ==> ts[i] != ts[j]
  }

  /** The pieces' present bytes. */
  ghost function Pieces(ts: seq<array<byte>>): (s: seq<seq<byte>>)
    reads ts
    ensures |s| == |ts| && forall i :: 0 <= i < |ts| ==> s[i] == ts[i][..]
  {
    seq(|ts|, i requires 0 <= i < |ts| reads ts => ts[i][..])
  }

  /** The flat target once the first `n` source bytes are in place. */
  ghost function Overlay(target: seq<byte>, source: seq<byte>, n: nat): (r: seq<byte>)
    requires n <= |target| && n <= |source|
    ensures |r| == |target|
  {
    source[..n] + target[n..]
  }

  /** What a copy of at most `limit` bytes leaves in the flat target. */
  ghost function Copied(target: seq<byte>, source: seq<byte>, limit: nat): (r: seq<byte>)
  {
    Overlay(target, source, Min(Min(|target|, |source|), limit))
  }

  /** Copying the next `n` bytes of the source extends the copied prefix. */
  lemma OverlayGrows(target: seq<byte>, source: seq<byte>, done: nat, piece: seq<byte>, n: nat)
    requires n <= |piece| && done + n <= |source| && done + n <= |target|
    requires forall k :: 0 <= k < n ==> source[done + k] == piece[k]
    ensures Splice(Overlay(target, source, done), done, piece[..n]) == Overlay(target, source, done + n)
  {
  }

  lemma NothingCopied(target: seq<byte>, source: seq<byte>)
    ensures Overlay(target, source, 0) == target
  {
  }

  /** `buffer_copy_1`: from `at` on, one piece receives as much of `source` as it has room for. */
  method CopyOne(t: array<byte>, at: nat, room: nat, source: seq<byte>) returns (n: nat)
    requires at + room <= t.Length
    modifies t
    ensures n == Min(room, |source|)
    ensures t[..] == Splice(old(t[..]), at, source[..n])
  {
    n := if room < |source| then room else |source|;
    if n > 0 {
      forall i | 0 <= i < n { t[at + i] := source[i]; }
    }
  }

  method OneToOne(t: array<byte>, source: seq<byte>) returns (n: nat)
    modifies t
    ensures n == Min(t.Length, |source|)
    ensures t[..] == Copied(old(t[..]), source, n)
  {
    n := CopyOne(t, 0, t.Length, source);
  }

  method OneToOneUpTo(t: array<byte>, source: seq<byte>, limit: nat) returns (n: nat)
    modifies t
    ensures n == Min(Min(t.Length, |source|), limit)
    ensures t[..] == Copied(old(t[..]), source, limit)
  {
    n := CopyOne(t, 0, t.Length, source[..Min(|source|, limit)]);
  }

  /** The first `n` source bytes are in place in a single target and the rest is as it was. */
  ghost predicate HoldsOne(t: array<byte>, was: seq<byte>, all: seq<byte>, n: nat)
    reads t
  {
    n <= |was| == t.Length && n <= |all| && t[..] == Overlay(was, all, n)
  }

  /** One turn of a copy into a single target: `done'` bytes are in place afterwards. */
  method CopyNextOne(t: array<byte>, done: nat, room: nat, ahead: seq<byte>,
                     ghost was: seq<byte>, ghost all: seq<byte>) returns (done': nat)
    requires done + room <= t.Length && done + |ahead| <= |all| && HoldsOne(t, was, all, done)
    requires forall k :: 0 <= k < |ahead| ==> all[done + k] == ahead[k]
    modifies t
    ensures done' == done + Min(room, |ahead|) && HoldsOne(t, was, all, done')
  {
    OverlayGrows(was, all, done, ahead, Min(room, |ahead|));
    var n := CopyOne(t, done, room, ahead);
    done' := done + n;
  }

  /** Many sources into one target. */
  method ManyToOne(t: array<byte>, sources: seq<seq<byte>>, limit: nat := SIZE_MAX) returns (total: nat)
    modifies t
    ensures total == Min(Min(t.Length, |Flat(sources)|), limit)
    ensures t[..] == Copied(old(t[..]), Flat(sources), limit)
  {
    total := 0;
    var end := Min(t.Length, limit);
    var i := 0;
    ghost var all, was := Flat(sources), t[..];
    OffsetEnd(sources);
    while total != end && i != |sources|
      invariant i <= |sources| && total <= end && HoldsOne(t, was, all, total)
      invariant total != end ==> total == Offset(sources, i)
      decreases |sources| - i
    {
      SourceAhead(sources, i, 0, sources[i]);
      total := CopyNextOne(t, total, end - total, sources[i], was, all);
      i := i + 1;
    }
  }

  /** The flat position at which target piece `i` starts; it depends on sizes only. */
  ghost function Start(ts: seq<array<byte>>, i: nat): (n: nat)
    requires i <= |ts|
  {
    if i == 0 then 0 else Start(ts, i - 1) + ts[i - 1].Length
  }

  lemma {:induction false} StartIsOffset(ts: seq<array<byte>>, i: nat)
    requires i <= |ts|
    ensures Start(ts, i) == Offset(Pieces(ts), i)
  {
    if i > 0 { StartIsOffset(ts, i - 1); }
  }

  lemma {:induction false} StartMonotone(ts: seq<array<byte>>, i: nat, j: nat)
    requires i <= j <= |ts|
    ensures Start(ts, i) <= Start(ts, j)
  {
    if i < j { StartMonotone(ts, i, j - 1); }
  }

  /** The total number of target bytes. */
  ghost function Room(ts: seq<array<byte>>): (n: nat)
  {
    Start(ts, |ts|)
  }

  lemma RoomIsFlat(ts: seq<array<byte>>)
    ensures |Flat(Pieces(ts))| == Room(ts)
  {
    StartIsOffset(ts, |ts|);
    OffsetEnd(Pieces(ts));
  }

  /** The first `n` source bytes are in place in the targets and the rest is as it was. */
  ghost predicate Holds(ts: seq<array<byte>>, was: seq<byte>, all: seq<byte>, n: nat)
    reads ts
  {
    n <= |was| && n <= |all| && Flat(Pieces(ts)) == Overlay(was, all, n)
  }

  /** Copying into part of one target piece splices the flat target there and nowhere else. */
  method CopyInto(ts: seq<array<byte>>, i: nat, at: nat, source: seq<byte>) returns (n: nat)
    requires Distinct(ts) && i < |ts| && at <= ts[i].Length
    modifies ts[i]
    ensures n == Min(ts[i].Length - at, |source|)
    ensures Start(ts, i) + at + n <= |old(Flat(Pieces(ts)))| == |Flat(Pieces(ts))|
    ensures Flat(Pieces(ts)) == Splice(old(Flat(Pieces(ts))), Start(ts, i) + at, source[..n])
  {
    ghost var was := Pieces(ts);
    StartIsOffset(ts, i);
    SpliceInFlat(was, i, at, source[..Min(ts[i].Length - at, |source|)]);
    n := CopyOne(ts[i], at, ts[i].Length - at, source);
    assert Pieces(ts) == was[i := Splice(was[i], at, source[..n])];
    StartIsOffset(ts, i);
  }

  /** What a source cursor is about to read, in the flat source. */
  lemma SourceAhead(sources: seq<seq<byte>>, j: nat, at: nat, ahead: seq<byte>)
    requires j < |sources| && at <= |sources[j]| && ahead == sources[j][at..]
    ensures Offset(sources, j) + at + |ahead| <= |Flat(sources)|
    ensures forall k :: 0 <= k < |ahead| ==> Flat(sources)[Offset(sources, j) + at + k] == ahead[k]
  {
    PieceInFlat(sources, j);
    forall k | 0 <= k < |ahead|
      ensures Flat(sources)[Offset(sources, j) + at + k] == ahead[k]
    {
      assert Flat(sources)[Offset(sources, j) + (at + k)] == sources[j][at + k];
    }
  }

  /** One turn of the copy loops: the next source bytes go where the copied prefix ends. */
  method CopyNext(ts: seq<array<byte>>, i: nat, at: nat, ahead: seq<byte>, done: nat,
                  ghost was: seq<byte>, ghost all: seq<byte>) returns (done': nat)
    requires Distinct(ts) && i < |ts| && at <= ts[i].Length && done == Start(ts, i) + at
    requires done + |ahead| <= |all| && Holds(ts, was, all, done)
    requires forall k :: 0 <= k < |ahead| ==> all[done + k] == ahead[k]
    modifies ts[i]
    ensures done' == done + Min(ts[i].Length - at, |ahead|) && Holds(ts, was, all, done')
  {
    var n := CopyInto(ts, i, at, ahead);
    OverlayGrows(was, all, done, ahead, n);
    done' := done + n;
  }

  /** One turn of a copy from a single source: the bytes from `done` to `end`, into piece `i`. */
  method CopyFrom(ts: seq<array<byte>>, i: nat, source: seq<byte>, done: nat, end: nat, ghost was: seq<byte>)
    returns (done': nat)
    requires Distinct(ts) && i < |ts| && done == Start(ts, i) && done <= end <= |source|
    requires Holds(ts, was, source, done)
    modifies ts[i]
    ensures done' == done + Min(ts[i].Length, end - done) && Holds(ts, was, source, done')
  {
    done' := CopyNext(ts, i, 0, source[done..end], done, was, source);
  }

  /** One source into many targets. */
  method OneToMany(ts: seq<array<byte>>, source: seq<byte>, limit: nat := SIZE_MAX) returns (total: nat)
    requires Distinct(ts)
    modifies set t | t in ts
    ensures total == Min(Min(Room(ts), |source|), limit)
    ensures Flat(Pieces(ts)) == Copied(old(Flat(Pieces(ts))), source, limit)
  {
    total := 0;
    var end := Min(|source|, limit);
    var i := 0;
    ghost var was := Flat(Pieces(ts));
    RoomIsFlat(ts);
    NothingCopied(was, source);
    while total != end && i != |ts|
      invariant i <= |ts| && total <= end && Holds(ts, was, source, total)
      invariant total != end ==> total == Start(ts, i)
      decreases |ts| - i
    {
      total := CopyFrom(ts, i, source, total, end, was);
      i := i + 1;
    }
  }

  /** The target cursor `(i, at)` and the source cursor `(j, sat)` have both passed `total` bytes. */
  ghost predicate InStep(ts: seq<array<byte>>, i: nat, at: nat, sources: seq<seq<byte>>, j: nat, sat: nat, total: nat)
  {
    && i <= |ts| && total == Start(ts, i) + at
    && (if i == |ts| then at == 0 else at <= ts[i].Length)
    && j <= |sources| && total == Offset(sources, j) + sat
    && (if j == |sources| then sat == 0 else sat <= |sources[j]|)
  }

  /** A cursor `n` bytes on: in the same piece, or at the start of the next one. */
  function Bumped(i: nat, at: nat, ahead: nat, n: nat): (c: (nat, nat))
  {
    if n == ahead then (i + 1, 0) else (i, at + n)
  }

  /** Both cursors stay in step when both move by what was copied. */
  lemma StayInStep(ts: seq<array<byte>>, i: nat, at: nat, sources: seq<seq<byte>>, j: nat, sat: nat, total: nat, n: nat)
    requires i < |ts| && j < |sources| && InStep(ts, i, at, sources, j, sat, total)
    requires n <= ts[i].Length - at && n <= |sources[j]| - sat
    ensures
      var (i', at') := Bumped(i, at, ts[i].Length - at, n);
      var (j', sat') := Bumped(j, sat, |sources[j]| - sat, n);
      InStep(ts, i', at', sources, j', sat', total + n)
  {
  }

  /** One turn with both cursors inside a piece. */
  method CopyTurn(ts: seq<array<byte>>, i: nat, at: nat, sources: seq<seq<byte>>, j: nat, sat: nat,
                  most: nat, total: nat, ghost was: seq<byte>) returns (total': nat)
    requires Distinct(ts) && i < |ts| && j < |sources| && InStep(ts, i, at, sources, j, sat, total)
    requires Holds(ts, was, Flat(sources), total)
    modifies ts[i]
    ensures total' == total + Min(ts[i].Length - at, Min(|sources[j]| - sat, most))
    ensures Holds(ts, was, Flat(sources), total')
  {
    var sourceBuffer := sources[j][sat..];
    SourceAhead(sources, j, sat, sourceBuffer);
    total' := CopyNext(ts, i, at, sourceBuffer[..Min(|sourceBuffer|, most)], total, was, Flat(sources));
  }

  /** One pass through the loop body: copy at most `most` bytes and move both cursors on. */
  method Turn(ts: seq<array<byte>>, i: nat, at: nat, sources: seq<seq<byte>>, j: nat, sat: nat,
              most: nat, total: nat, ghost was: seq<byte>)
    returns (i': nat, at': nat, j': nat, sat': nat, total': nat)
    requires Distinct(ts) && i < |ts| && j < |sources| && InStep(ts, i, at, sources, j, sat, total)
    requires Holds(ts, was, Flat(sources), total)
    modifies ts[i]
    ensures InStep(ts, i', at', sources, j', sat', total')
    ensures Holds(ts, was, Flat(sources), total')
    ensures total <= total' <= total + most && i <= i' && j <= j'
    ensures i + j < i' + j' || total' == total + most
  {
    var room, ahead := ts[i].Length - at, |sources[j]| - sat;
    total' := CopyTurn(ts, i, at, sources, j, sat, most, total, was);
    var n := total' - total;
    StayInStep(ts, i, at, sources, j, sat, total, n);
    if n == room {
      i', at' := i + 1, 0;
    } else {
      i', at' := i, at + n;
    }
    if n == ahead {
      j', sat' := j + 1, 0;
    } else {
      j', sat' := j, sat + n;
    }
  }

  lemma StartInStep(ts: seq<array<byte>>, sources: seq<seq<byte>>, was: seq<byte>)
    requires was == Flat(Pieces(ts))
    ensures InStep(ts, 0, 0, sources, 0, 0, 0) && Holds(ts, was, Flat(sources), 0) && |was| == Room(ts)
  {
    RoomIsFlat(ts);
    NothingCopied(was, Flat(sources));
  }

  /** When a cursor runs off the end, everything on that side has been passed. */
  lemma OffTheEnd(ts: seq<array<byte>>, i: nat, at: nat, sources: seq<seq<byte>>, j: nat, sat: nat, total: nat)
    requires InStep(ts, i, at, sources, j, sat, total)
    ensures i == |ts| ==> total == Room(ts)
    ensures j == |sources| ==> total == |Flat(sources)|
  {
    OffsetEnd(sources);
  }

  /** Many sources into many targets. */
  method ManyToMany(ts: seq<array<byte>>, sources: seq<seq<byte>>) returns (total: nat)
    requires Distinct(ts)
    modifies set t | t in ts
    ensures total == Min(Room(ts), |Flat(sources)|)
    ensures Flat(Pieces(ts)) == Copied(old(Flat(Pieces(ts))), Flat(sources), total)
  {
    total := 0;
    var i: nat, at: nat := 0, 0;
    var j: nat, sat: nat := 0, 0;
    ghost var was := Flat(Pieces(ts));
    StartInStep(ts, sources, was);
    while i != |ts| && j != |sources|
      invariant InStep(ts, i, at, sources, j, sat, total)
      invariant Holds(ts, was, Flat(sources), total)
      decreases |ts| - i + |sources| - j
    {
      // no limit: allow more than the source piece has left
      i, at, j, sat, total := Turn(ts, i, at, sources, j, sat, |sources[j]| - sat + 1, total, was);
    }
    OffTheEnd(ts, i, at, sources, j, sat, total);
  }

  /** Many sources into many targets, up to a limit. */
  method ManyToManyUpTo(ts: seq<array<byte>>, sources: seq<seq<byte>>, limit: nat) returns (total: nat)
    requires Distinct(ts)
    modifies set t | t in ts
    ensures total == Min(Min(Room(ts), |Flat(sources)|), limit)
    ensures Flat(Pieces(ts)) == Copied(old(Flat(Pieces(ts))), Flat(sources), limit)
  {
    total := 0;
    var i: nat, at: nat := 0, 0;
    var j: nat, sat: nat := 0, 0;
    ghost var was := Flat(Pieces(ts));
    StartInStep(ts, sources, was);
    while total != limit && i != |ts| && j != |sources|
      invariant InStep(ts, i, at, sources, j, sat, total)
      invariant total <= limit && Holds(ts, was, Flat(sources), total)
      decreases limit - total, |ts| - i + |sources| - j
    {
      i, at, j, sat, total := Turn(ts, i, at, sources, j, sat, limit - total, total, was);
    }
    OffTheEnd(ts, i, at, sources, j, sat, total);
  }
}
