/** The stream buffer: a get area and a put area sharing one growing, shifting vector. */
module StreamBuf {
  import opened Common

  const DELTA: nat := 128

  /** A snapshot: the input sequence and the bytes between the put pointer and its end. */
  datatype Areas = Areas(maxSize: nat, contents: seq<byte>, ready: seq<byte>)

  /** The two areas of a vector with these pointers. */
  function AreasOf(maxSize: nat, b: seq<byte>, g: nat, p: nat, e: nat): (s: Areas)
    requires g <= p <= e <= |b|
  {
    Areas(maxSize, b[g..p], b[p..e])
  }

  predicate Fits(s: Areas)
  {
    |s.contents| + |s.ready| <= s.maxSize
  }

  /** A size_t passed through `static_cast<int>`: two's complement, by whole turns of 2^32. */
  function AsInt32(k: nat): (r: int)
    ensures r <= INT32_MAX && (r == k <==> k <= INT32_MAX)
  {
    if k <= INT32_MAX then k
    else if k < 0x1_0000_0000 then k - 0x1_0000_0000
    else AsInt32(k - 0x1_0000_0000)
  }

  /** What a reader sees after the shift has moved `c` to the front while the get pointer is still
      at `g`. */
  function Sheared(c: seq<byte>, g: nat): (r: seq<byte>)
  {
    if 0 < g < |c| then c[g..] + c[|c| - g..] else c
  }

  /** A failed reservation leaves the input sequence alone exactly when the get pointer is at the
      start or at least a whole input sequence away, or the bytes repeat with that period. */
  lemma ShearedIffNotPeriodic(c: seq<byte>, g: nat)
    ensures Sheared(c, g) == c <==> g == 0 || |c| <= g || forall i :: 0 <= i < |c| - g ==> c[i] == c[i + g]
  {
    if 0 < g < |c| {
      var r := Sheared(c, g);
      assert forall i :: 0 <= i < |c| - g ==> r[i] == c[i + g];
      assert forall i :: |c| - g <= i < |c| ==> r[i] == c[i];
    }
  }

  /** `vector::resize` to a larger size, which keeps any prefix. */
  function Resized(b: seq<byte>, size: nat, k: nat): (r: seq<byte>)
    requires k <= |b| <= size
    ensures |r| == size && r[..k] == b[..k]
  {
    b + seq(size - |b|, _ => 0)
  }

  datatype Op = Prepare(bytes: seq<byte>) | Commit(n: nat) | Consume(n: nat) | Overflow(c: Option<byte>) | Underflow

  datatype Out = Ok | Peeked(c: Option<byte>)

  function Front(c: seq<byte>): (r: Option<byte>)
    ensures r == None <==> c == []
    ensures r.Some? ==> [r.value] <= c
  {
    if c == [] then None else Some(c[0])
  }

  /** What one call does when it does not throw. `Prepare` includes the caller filling the buffer
      it was handed. */
  ghost predicate Step(s: Areas, op: Op, s': Areas, out: Out)
  {
    && s'.maxSize == s.maxSize && Fits(s')
    && match op
       case Prepare(bytes) =>
         out == Ok && |s.contents| + |bytes| <= s.maxSize && s'.contents == s.contents && bytes <= s'.ready
       case Commit(n) =>
         var k := Min(n, |s.ready|);
         out == Ok && s'.contents == s.contents + s.ready[..k] && s'.ready == s.ready[k..]
       case Consume(n) =>
         out == Ok && s'.contents == s.contents[Min(n, |s.contents|)..] && s'.ready == s.ready
       case Overflow(None) =>
         out == Ok && s' == s
       case Overflow(Some(c)) =>
         && out == Ok && |s.contents| < s.maxSize && s'.contents == s.contents + [c]
         && (s.ready != [] ==> s'.ready == s.ready[1..])
       case Underflow =>
         out == Peeked(Front(s.contents)) && s' == s
  }

  /** Moving the boundary between the two areas moves that many bytes across. */
  lemma BoundaryMoves(maxSize: nat, b: seq<byte>, g: nat, p: nat, e: nat, n: nat)
    requires g <= p <= e <= |b| && e <= maxSize
    ensures
      var k := Min(n, e - p);
      Step(AreasOf(maxSize, b, g, p, e), Op.Commit(n), AreasOf(maxSize, b, g, p + k, e), Ok)
  {
    var k := Min(n, e - p);
    assert b[g..p + k] == b[g..p] + b[p..e][..k];
    assert b[p + k..e] == b[p..e][k..];
  }

  /** Moving the start of the get area drops that many bytes from its front. */
  lemma FrontDrops(maxSize: nat, b: seq<byte>, g: nat, p: nat, e: nat, n: nat)
    requires g <= p <= e <= |b| && e <= maxSize
    ensures
      var k := Min(n, p - g);
      Step(AreasOf(maxSize, b, g, p, e), Op.Consume(n), AreasOf(maxSize, b, g + k, p, e), Ok)
  {
    var k := Min(n, p - g);
    assert b[g + k..p] == b[g..p][k..];
  }

  class Buffer {
    const maxSize: nat
    var buffer: seq<byte>
    var gptr: int
    var egptr: int
    var pptr: int
    var epptr: int

    ghost predicate Valid()
      reads this
    {
      && 0 <= gptr <= egptr <= pptr <= epptr <= maxSize
      && epptr <= |buffer| <= epptr + 1
    }

    ghost function View(): (s: Areas)
      requires Valid()
      reads this
      ensures Fits(s)
    {
      AreasOf(maxSize, buffer, gptr, pptr, epptr)
    }

    constructor (maximum: nat)
      ensures Valid() && maxSize == maximum && View().contents == [] && |View().ready| == Min(maximum, DELTA)
    {
      maxSize := maximum;
      var pend := Min(maximum, DELTA);
      buffer := seq(Max(pend, 1), _ => 0);
      gptr, egptr := 0, 0;
      pptr, epptr := 0, pend;
    }

    function Size(): (n: int)
      reads this
    {
      pptr - gptr
    }

    /** Moves the input sequence to the front of the vector; the pointers are not updated yet. */
    method Shift() returns (pnext: nat)
      requires Valid()
      modifies this`buffer
      ensures |buffer| == old(|buffer|) && pnext == pptr - gptr
      ensures buffer[..pnext] == old(buffer[gptr..pptr])
      ensures buffer[gptr..pptr] == Sheared(old(buffer[gptr..pptr]), gptr)
    {
      pnext := pptr;
      Shearing(buffer, gptr, pptr - gptr);
      if gptr > 0 {
        pnext := pnext - gptr;
        buffer := Splice(buffer, 0, buffer[gptr..gptr + pnext]);
      }
    }

    /** The rest of `reserve` once the put area is known to be too small: shift, then grow. */
    method ShiftAndGrow(n: nat) returns (ok: bool)
      requires Valid() && epptr - pptr < n
      modifies this
      ensures Valid()
      ensures ok <==> old(Size()) + n <= maxSize
      ensures ok ==> buffer[gptr..pptr] == old(buffer[gptr..pptr]) && n <= epptr - pptr
      ensures ok ==> gptr == 0 && egptr == pptr && epptr == Max(old(epptr), old(Size()) + n)
      ensures !ok ==> gptr == old(gptr) && pptr == old(pptr) && epptr == old(epptr) && egptr == old(egptr)
      ensures !ok ==> buffer[gptr..pptr] == Sheared(old(buffer[gptr..pptr]), old(gptr))
    {
      var pend := epptr;
      var pnext := Shift();
      if n > pend - pnext {
        if n <= maxSize && pnext <= maxSize - n {
          pend := pnext + n;
          buffer := Resized(buffer, Max(pend, 1), pnext);
        } else {
          return false;
        }
      }
      gptr, egptr := 0, pnext;
      pptr, epptr := pnext, pend;
      assert buffer[gptr..pptr] == buffer[..pnext];
      return true;
    }

    /** `ok` is false when the source throws length_error. */
    method Reserve(n: nat) returns (ok: bool)
      requires Valid()
      modifies this
      ensures Valid()
      ensures ok <==> old(Size()) + n <= maxSize
      ensures ok ==> View().contents == old(View()).contents && n <= |View().ready|
      ensures ok && n <= |old(View()).ready| ==> View() == old(View())
      ensures ok && n > |old(View()).ready| ==> gptr == 0 && epptr == Max(old(epptr), old(Size()) + n)
      ensures !ok ==> gptr == old(gptr) && pptr == old(pptr) && epptr == old(epptr) && egptr == old(egptr)
      ensures !ok ==> View().contents == Sheared(old(View()).contents, old(gptr))
    {
      if n <= epptr - pptr {
        return true;
      }
      ok := ShiftAndGrow(n);
    }

    /** Hands out `n` bytes at the put pointer. */
    method Prepare(n: nat) returns (ok: bool)
      requires Valid()
      modifies this
      ensures Valid()
      ensures ok <==> old(Size()) + n <= maxSize
      ensures ok ==> View().contents == old(View()).contents && n <= |View().ready|
      ensures !ok ==> View().contents == Sheared(old(View()).contents, old(gptr))
    {
      ok := Reserve(n);
    }

    /** The caller writes through the buffer that `Prepare` returned. */
    method Fill(bytes: seq<byte>)
      requires Valid() && |bytes| <= epptr - pptr
      modifies this`buffer
      ensures Valid() && View().contents == old(View()).contents && bytes <= View().ready
    {
      buffer := Splice(buffer, pptr, bytes);
    }

    /** A caller asking for exactly the room it then fills. */
    method PrepareAndFill(bytes: seq<byte>) returns (ok: bool)
      requires Valid()
      modifies this
      ensures Valid()
      ensures ok <==> old(Size()) + |bytes| <= maxSize
      ensures ok ==> Step(old(View()), Op.Prepare(bytes), View(), Ok)
      ensures !ok ==> View().contents == Sheared(old(View()).contents, old(gptr))
    {
      ok := Prepare(|bytes|);
      if ok {
        Fill(bytes);
      }
    }

    /** The documented effect holds exactly when the count survives the cast to int. */
    method Commit(n: nat)
      requires Valid()
      modifies this`pptr, this`egptr
      ensures egptr == pptr
      ensures pptr == old(pptr) + Min(n, old(epptr - pptr)) <==> Min(n, old(epptr - pptr)) <= INT32_MAX
      ensures Min(n, old(epptr - pptr)) <= INT32_MAX ==> Valid() && Step(old(View()), Op.Commit(n), View(), Ok)
    {
      var k := Min(n, epptr - pptr);
      BoundaryMoves(maxSize, buffer, gptr, pptr, epptr, n);
      pptr := pptr + AsInt32(k);
      egptr := pptr;
    }

    method Consume(n: nat)
      requires Valid()
      modifies this`gptr, this`egptr
      ensures gptr == old(gptr) + Min(n, old(Size())) <==> Min(n, old(Size())) <= INT32_MAX
      ensures Min(n, old(Size())) <= INT32_MAX ==> Valid() && Step(old(View()), Op.Consume(n), View(), Ok)
    {
      if egptr < pptr {
        egptr := pptr;
      }
      var k := n;
      if gptr + k > pptr {
        k := pptr - gptr;
      }
      FrontDrops(maxSize, buffer, gptr, pptr, epptr, n);
      gptr := gptr + AsInt32(k);
    }

    method Underflow() returns (c: Option<byte>)
      requires Valid()
      modifies this`egptr
      ensures Valid() && Step(old(View()), Op.Underflow, View(), Peeked(c))
      ensures c.Some? ==> egptr == pptr
      ensures c == None <==> View().contents == []
      ensures c.Some? ==> View().contents == [c.value] + View().contents[1..]
    {
      if gptr < pptr {
        egptr := pptr;
        return Some(buffer[gptr]);
      } else {
        return None;
      }
    }

    /** Stores a character at the put pointer and bumps it. */
    method Put(c: byte)
      requires Valid() && pptr < epptr
      modifies this`buffer, this`pptr
      ensures Valid()
      ensures View().contents == old(View()).contents + [c] && View().ready == old(View()).ready[1..]
    {
      buffer := buffer[pptr := c];
      pptr := pptr + 1;
    }

    method Overflow(c: Option<byte>) returns (ok: bool)
      requires Valid()
      modifies this
      ensures Valid()
      ensures ok <==> c == None || old(Size()) < maxSize
      ensures ok ==> Step(old(View()), Op.Overflow(c), View(), Ok)
      ensures ok && c.Some? && old(pptr == epptr) ==>
        epptr == Max(old(epptr), old(Size()) + Min(DELTA, maxSize - old(Size())))
      ensures !ok ==> View().contents == old(View()).contents
    {
      if c == None {
        return true;
      }
      if pptr == epptr {
        var size := pptr - gptr;
        if size < maxSize && maxSize - size < DELTA {
          ok := Reserve(maxSize - size);
        } else {
          ok := Reserve(DELTA);
        }
        if !ok {
          return false;
        }
      }
      Put(c.value);
      return true;
    }
  }

  /** The shift without the pointer update, seen through the old pointers. */
  lemma Shearing(was: seq<byte>, g: nat, n: nat)
    requires g + n <= |was|
    ensures Splice(was, 0, was[g..g + n])[..n] == was[g..g + n]
    ensures Splice(was, 0, was[g..g + n])[g..g + n] == Sheared(was[g..g + n], g)
  {
    var now, c := Splice(was, 0, was[g..g + n]), was[g..g + n];
    forall i | 0 <= i < n
      ensures now[g..g + n][i] == Sheared(c, g)[i]
    {
      assert now[g + i] == if g + i < n then c[g + i] else was[g + i];
    }
  }

  /** The reference: a bounded byte queue and the bytes written but not yet committed. */
  datatype Queue = Queue(bytes: seq<byte>, pending: seq<byte>)

  function QueueStep(q: Queue, op: Op): (r: Queue)
  {
    match op
    case Prepare(bytes) => Queue(q.bytes, bytes)
    case Commit(n) => var k := Min(n, |q.pending|); Queue(q.bytes + q.pending[..k], q.pending[k..])
    case Consume(n) => Queue(q.bytes[Min(n, |q.bytes|)..], q.pending)
    case Overflow(None) => q
    case Overflow(Some(c)) => Queue(q.bytes + [c], if q.pending == [] then [] else q.pending[1..])
    case Underflow => q
  }

  ghost predicate IsRun(states: seq<Areas>, ops: seq<Op>, outs: seq<Out>)
  {
    && |states| == |ops| + 1 && |outs| == |ops|
    && states[0].contents == [] && Fits(states[0])
    && forall i :: 0 <= i < |ops| ==> Step(states[i], ops[i], states[i + 1], outs[i])
  }

  /** What one call may do to the queue. Only a commit of more than was prepared leaves anything
      open: it is clipped to the room there is and takes along whatever bytes stand there. */
  ghost predicate QueueMay(q: Queue, op: Op, q': Queue)
  {
    match op
    case Commit(n) =>
      var known := Min(n, |q.pending|);
      && q'.pending == q.pending[known..]
      && q.bytes + q.pending[..known] <= q'.bytes
      && |q'.bytes| <= |q.bytes| + n
    case _ => q' == QueueStep(q, op)
  }

  /** The bytes written and not yet committed, from the calls alone. */
  function Pending(ops: seq<Op>): (p: seq<byte>)
  {
    if ops == [] then [] else QueueStep(Queue([], Pending(ops[..|ops| - 1])), ops[|ops| - 1]).pending
  }

  ghost function Seen(states: seq<Areas>, ops: seq<Op>, i: nat): (q: Queue)
    requires i < |states| && i <= |ops|
  {
    Queue(states[i].contents, Pending(ops[..i]))
  }

  lemma StepRefines(s: Areas, op: Op, s': Areas, out: Out, pending: seq<byte>)
    requires Step(s, op, s', out) && pending <= s.ready
    ensures
      var pending' := QueueStep(Queue([], pending), op).pending;
      pending' <= s'.ready && QueueMay(Queue(s.contents, pending), op, Queue(s'.contents, pending'))
  {
    match op
    case Commit(n) =>
      var known := Min(n, |pending|);
      assert s.ready[..known] == pending[..known];
      assert s.contents + pending[..known] <= s.contents + s.ready[..Min(n, |s.ready|)];
    case _ =>
  }

  /** What `underflow` shows is what the next consume of one byte removes. */
  lemma ShownIsNextConsumed(s: Areas, c: Option<byte>, s1: Areas, s2: Areas)
    requires Step(s, Underflow, s1, Peeked(c)) && Step(s1, Consume(1), s2, Ok)
    ensures s.contents == (if c == None then [] else [c.value]) + s2.contents
  {
    if c.Some? { assert s.contents == [s.contents[0]] + s.contents[1..]; }
  }

  /** Every run of non-throwing calls, whatever its commits, is a run of the bounded queue: each call
      does to the contents what it may do to the queue, the size stays within the maximum, and
      `underflow` shows the front. */
  lemma {:induction false} EveryCallIsAQueueCall(states: seq<Areas>, ops: seq<Op>, outs: seq<Out>, i: nat)
    requires IsRun(states, ops, outs) && i <= |ops|
    ensures Pending(ops[..i]) <= states[i].ready
    ensures |states[i].contents| <= states[i].maxSize == states[0].maxSize
    ensures i < |ops| ==> QueueMay(Seen(states, ops, i), ops[i], Seen(states, ops, i + 1))
    ensures i < |ops| && ops[i] == Underflow ==>
      outs[i] == Peeked(if states[i].contents == [] then None else Some(states[i].contents[0]))
  {
    if i > 0 {
      EveryCallIsAQueueCall(states, ops, outs, i - 1);
      assert ops[..i][..i - 1] == ops[..i - 1];
      StepRefines(states[i - 1], ops[i - 1], states[i], outs[i - 1], Pending(ops[..i - 1]));
    }
    if i < |ops| {
      assert ops[..i + 1][..i] == ops[..i];
      StepRefines(states[i], ops[i], states[i + 1], outs[i], Pending(ops[..i]));
    }
  }

  /** The same in every run: the byte shown stands before everything that is left afterwards. */
  lemma RunsConsumeWhatTheyShow(states: seq<Areas>, ops: seq<Op>, outs: seq<Out>, i: nat)
    requires IsRun(states, ops, outs) && i + 1 < |ops| && ops[i] == Underflow && ops[i + 1] == Consume(1)
    ensures outs[i].Peeked?
    ensures states[i].contents == (if outs[i].c == None then [] else [outs[i].c.value]) + states[i + 2].contents
  {
    assert Step(states[i], ops[i], states[i + 1], outs[i]);
    assert Step(states[i + 1], ops[i + 1], states[i + 2], outs[i + 1]);
    ShownIsNextConsumed(states[i], outs[i].c, states[i + 1], states[i + 2]);
  }

  function QueueAfter(ops: seq<Op>): (q: Queue)
  {
    if ops == [] then Queue([], []) else QueueStep(QueueAfter(ops[..|ops| - 1]), ops[|ops| - 1])
  }

  /** The commits before call `n` stay within what was prepared and written, as documented. */
  ghost predicate CommitsWhatWasPrepared(ops: seq<Op>, n: nat)
    requires n <= |ops|
  {
    forall i :: 0 <= i < n && ops[i].Commit? ==> ops[i].n <= |Pending(ops[..i])|
  }

  /** Under the documented rule for commits nothing is left open: the contents are those of the
      deterministic queue. */
  lemma {:induction false} RefinesBoundedQueue(states: seq<Areas>, ops: seq<Op>, outs: seq<Out>, i: nat)
    requires IsRun(states, ops, outs) && i <= |ops| && CommitsWhatWasPrepared(ops, i)
    ensures QueueAfter(ops[..i]) == Seen(states, ops, i)
  {
    if i > 0 {
      RefinesBoundedQueue(states, ops, outs, i - 1);
      EveryCallIsAQueueCall(states, ops, outs, i - 1);
      assert ops[..i][..i - 1] == ops[..i - 1];
      MayIsMust(Seen(states, ops, i - 1), ops[i - 1], Seen(states, ops, i));
    }
  }

  lemma MayIsMust(q: Queue, op: Op, q': Queue)
    requires QueueMay(q, op, q') && (op.Commit? ==> op.n <= |q.pending|)
    ensures q' == QueueStep(q, op)
  {
  }

  /** Fill an empty stream buffer to its maximum. */
  method FillUp(b: Buffer, bytes: seq<byte>)
    requires b.Valid() && b.View().contents == [] && |bytes| == b.maxSize <= INT32_MAX
    modifies b
    ensures b.Valid() && b.View().contents == bytes
  {
    var ok := b.PrepareAndFill(bytes);
    ghost var s := b.View();
    b.Commit(|bytes|);
    CommitAll(s, bytes, b.View());
  }

  /** Fill up, consume one byte and ask for more than fits: the reservation fails and a reader sees
      sheared bytes. */
  method ShearingRun(bytes: seq<byte>) returns (ok: bool, seen: seq<byte>)
    requires |bytes| == 4
    ensures !ok && seen == Sheared(bytes[1..], 1)
  {
    var b := new Buffer(4);
    FillUp(b, bytes);
    assert b.gptr == 0;
    b.Consume(1);
    ok := b.Prepare(2);
    seen := b.buffer[b.gptr..b.pptr];
  }

  lemma CommitAll(s: Areas, bytes: seq<byte>, s': Areas)
    requires Fits(s) && s.contents == [] && bytes <= s.ready && s.maxSize == |bytes|
    requires Step(s, Op.Commit(|bytes|), s', Ok)
    ensures s'.contents == bytes
  {
    assert s.ready == bytes;
  }

  /** In that run 2, 3, 4 read as 3, 4, 4. */
  lemma ShearingExample()
    ensures Sheared([1, 2, 3, 4][1..], 1) == [3, 4, 4] && [1, 2, 3, 4][1..] == [2, 3, 4]
  {
    var c: seq<byte> := [2, 3, 4];
    assert [1, 2, 3, 4][1..] == c;
    assert c[1..] == [3, 4] && c[2..] == [4];
  }
}
