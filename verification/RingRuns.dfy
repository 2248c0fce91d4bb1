/** Whole runs of the ring buffer against a plain bounded byte queue. */
module RingRuns {
  import opened Common
  import opened RingGrowth
  import opened RingBuffer

  /** The reference: a FIFO byte queue that refuses to exceed 1 MB. */
  function Queue(q: seq<byte>, op: Op): (r: (seq<byte>, Out))
  {
    match op
    case Append(src) => if |q| + |src| > MAX then (q, Count(0)) else (q + src, Count(|src|))
    case WriteTo(n) => var k := Min(n, |q|); (q[k..], Read(q[..k]))
    case Peek(n) => (q, Read(q[..Min(n, |q|)]))
    case Skip(k) => if 0 < k <= |q| then (q[k..], Flag(true)) else (q, Flag(false))
    case Clear => ([], Done)
  }

  function QueueAfter(ops: seq<Op>): (q: seq<byte>)
  {
    if ops == [] then [] else Queue(QueueAfter(ops[..|ops| - 1]), ops[|ops| - 1]).0
  }

  datatype Run = Run(states: seq<Ring>, ops: seq<Op>, outs: seq<Out>) {
    /** A run of calls on a default-constructed buffer. */
    ghost predicate Legal()
    {
      && |states| == |ops| + 1 && |outs| == |ops|
      && states[0] == Ring(SMALL, 0, 0, false, [])
      && forall i :: 0 <= i < |ops| ==> (Sound(states[i]) ==> Step(states[i], ops[i], states[i + 1], outs[i]))
    }

    /** No append before call `n` grows from a state that loses bytes. */
    ghost predicate LosslessBefore(n: nat)
      requires Legal() && n <= |ops|
    {
      forall i :: 0 <= i < n ==> LosslessAt(i)
    }

    ghost predicate LosslessAt(i: nat)
      requires Legal() && i < |ops|
    {
      match ops[i]
      case Append(src) => |states[i].contents| + |src| <= MAX ==> AppendsLosslessly(states[i], |src|)
      case _ => true
    }
  }

  lemma StepKeepsLadder(s: Ring, op: Op, s': Ring, out: Out)
    requires Sound(s) && OnLadder(s.cap) && Step(s, op, s', out)
    ensures Sound(s') && OnLadder(s'.cap)
  {
    match op
    case Append(src) =>
      if src != [] && s.cap < |s.contents| + |src| <= MAX {
        ClimbStaysOnLadder(s.cap, |s.contents| + |src|);
      }
    case WriteTo(n) => HeldAfterDropping(s, Min(n, |s.contents|));
    case Skip(k) => if 0 < k <= |s.contents| { HeldAfterDropping(s, k); }
    case _ =>
  }

  lemma HeldAfterDropping(s: Ring, n: int)
    requires Sound(s) && 0 <= n <= |s.contents|
    ensures n > 0 ==> Held(s.cap, Around(s.cap, s.head, n), s.tail, false) == |s.contents| - n
  {
  }

  /** One call that loses nothing is one call on the queue. */
  lemma StepIsQueue(s: Ring, op: Op, s': Ring, out: Out)
    requires Sound(s) && Step(s, op, s', out)
    ensures out == Queue(s.contents, op).1
    ensures (op.Append? && |s.contents| + |op.src| <= MAX ==> AppendsLosslessly(s, |op.src|)) <==>
            s'.contents == Queue(s.contents, op).0
  {
    match op
    case Append(src) =>
      if src == [] { assert s.contents + src == s.contents; }
    case _ =>
  }

  /** A step changes the capacity only for an append that does not fit, to the smallest one that holds
      it. */
  lemma StepGrowsToLeastRung(s: Ring, op: Op, s': Ring, out: Out)
    requires Sound(s) && OnLadder(s.cap) && Step(s, op, s', out)
    ensures s'.cap == s.cap || (op.Append? && LeastRung(s'.cap, |s.contents| + |op.src|))
  {
    match op
    case Append(src) =>
      if src != [] && s.cap < |s.contents| + |src| <= MAX { RefixedIsLeastRung(s.cap, |s.contents| + |src|); }
    case _ =>
  }

  ghost predicate GrewToLeastRung(r: Run, i: nat)
    requires r.Legal() && i < |r.ops|
  {
    r.ops[i].Append? && LeastRung(r.states[i + 1].cap, |r.states[i].contents| + |r.ops[i].src|)
  }

  /** Bounds, the full flag and the capacity ladder hold in every state of every run, lossy or not,
      an append is refused exactly when it would exceed 1 MB, and the capacity changes only for an
      append that does not fit, to the smallest one that holds it. */
  lemma {:induction false} EveryStateIsSound(r: Run, i: nat)
    requires r.Legal() && i <= |r.ops|
    ensures Sound(r.states[i]) && OnLadder(r.states[i].cap)
    ensures i < |r.ops| && r.ops[i].Append? ==>
      r.outs[i] == Count(if |r.states[i].contents| + |r.ops[i].src| <= MAX then |r.ops[i].src| else 0)
    ensures i < |r.ops| ==> r.states[i + 1].cap == r.states[i].cap || GrewToLeastRung(r, i)
  {
    if i > 0 {
      EveryStateIsSound(r, i - 1);
      StepKeepsLadder(r.states[i - 1], r.ops[i - 1], r.states[i], r.outs[i - 1]);
    }
    if i < |r.ops| {
      StepIsQueue(r.states[i], r.ops[i], r.states[i + 1], r.outs[i]);
      StepGrowsToLeastRung(r.states[i], r.ops[i], r.states[i + 1], r.outs[i]);
    }
  }

  /** As long as every growth so far happened with head at 0 or the buffer full, the buffer is the
      queue: same contents, and the next call answers as the queue would. */
  lemma {:induction false} RefinesQueue(r: Run, i: nat)
    requires r.Legal() && i <= |r.ops| && r.LosslessBefore(i)
    ensures r.states[i].contents == QueueAfter(r.ops[..i])
    ensures i < |r.ops| ==> r.outs[i] == Queue(QueueAfter(r.ops[..i]), r.ops[i]).1
  {
    EveryStateIsSound(r, i);
    if i > 0 {
      EveryStateIsSound(r, i - 1);
      RefinesQueue(r, i - 1);
      assert r.LosslessAt(i - 1);
      assert r.ops[..i][..i - 1] == r.ops[..i - 1];
      StepIsQueue(r.states[i - 1], r.ops[i - 1], r.states[i], r.outs[i - 1]);
    }
    if i < |r.ops| { StepIsQueue(r.states[i], r.ops[i], r.states[i + 1], r.outs[i]); }
  }

  /** The condition is exact: the first growth from any other state leaves the queue behind. */
  lemma RefinesQueueIffLossless(r: Run, i: nat)
    requires r.Legal() && i < |r.ops| && r.LosslessBefore(i)
    ensures r.states[i + 1].contents == QueueAfter(r.ops[..i + 1]) <==> r.LosslessAt(i)
  {
    EveryStateIsSound(r, i);
    RefinesQueue(r, i);
    assert r.ops[..i + 1][..i] == r.ops[..i];
    StepIsQueue(r.states[i], r.ops[i], r.states[i + 1], r.outs[i]);
  }

  /** A three-call run that miscounts: 10 bytes in, 5 skipped, 60 in, and 70 reported. */
  method MiscountingRun(a: seq<byte>, b: seq<byte>) returns (reported: int)
    requires |a| == 10 && |b| == 60
    ensures reported == 70 && reported != |a| - 5 + |b|
  {
    var buf := new Buffer();
    var n := buf.Append(Some(a), 10);
    assert buf.View().cap == 64 && buf.head == 0 && buf.tail == 10;
    var ok := buf.Skip(5);
    assert buf.View().cap == 64 && buf.head == 5 && buf.tail == 10 && |buf.View().contents| == 5;
    n := buf.Append(Some(b), 60);
    assert buf.View().cap == Refixed(64, 65) == Climb(128, 65) == 128;
    reported := buf.Length();
  }
}
