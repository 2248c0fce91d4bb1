/** Progress of the scheduler: one pass of the loop dispatches every actor that is ready and due, and a
    posted tick runs to its end with the whole mailbox handled. */
module ActorProgress {
  import opened Common
  import opened ActorScheduler
  import opened ActorRuns

  /** A run is its first step and then the rest. */
  lemma StepFirst<M>(s: System<M>, e: Event<M>, rest: seq<Event<M>>)
    requires Enabled(s, e) && Legal(Apply(s, e), rest)
    ensures Legal(s, [e] + rest) && After(s, [e] + rest) == After(Apply(s, e), rest)
  {
    var events := [e] + rest;
    assert events[0] == e && events[1..] == rest;
  }

  /** One run after another is a run. */
  lemma {:induction false} RunThen<M>(s: System<M>, es: seq<Event<M>>, fs: seq<Event<M>>)
    requires Legal(s, es) && Legal(After(s, es), fs)
    ensures Legal(s, es + fs) && After(s, es + fs) == After(After(s, es), fs)
    decreases |es|
  {
    if es == [] {
      assert es + fs == fs;
    } else {
      RunThen(Apply(s, es[0]), es[1..], fs);
      StepFirst(s, es[0], es[1..] + fs);
      assert es + fs == [es[0]] + (es[1..] + fs);
    }
  }

  /** The scheduler's own work within a pass: no new message, no new look at the clock. */
  predicate Work<M>(e: Event<M>)
  {
    !e.AddMsg? && !e.ReadClock?
  }

  /** `s` gets to `s'` by these pieces of work. */
  ghost predicate Gets<M>(s: System<M>, events: seq<Event<M>>, s': System<M>)
  {
    && Legal(s, events) && After(s, events) == s'
    && forall i :: 0 <= i < |events| ==> Work(events[i])
  }

  lemma GetsFirst<M>(s: System<M>, e: Event<M>, s1: System<M>, rest: seq<Event<M>>, s': System<M>)
    requires Work(e) && Enabled(s, e) && Apply(s, e) == s1 && Gets(s1, rest, s')
    ensures Gets(s, [e] + rest, s')
  {
    StepFirst(s, e, rest);
  }

  lemma GetsThen<M>(s: System<M>, es: seq<Event<M>>, s1: System<M>, fs: seq<Event<M>>, s': System<M>)
    requires Gets(s, es, s1) && Gets(s1, fs, s')
    ensures Gets(s, es + fs, s')
  {
    RunThen(s, es, fs);
  }

  // ---- One pass of the loop ----

  predicate DueAt<M>(x: Actor<M>, now: int)
  {
    x.ready && now - x.last >= x.interval
  }

  function Dispatch<M>(x: Actor<M>, now: int): (y: Actor<M>)
  {
    x.(ready := false, last := now, dispatched := x.dispatched + [now])
  }

  /** The loop at `loop`, with actor `a` as `x`. */
  ghost function At<M>(s: System<M>, loop: Loop, a: nat, x: Actor<M>): (s': System<M>)
  {
    s.(loop := loop, actors := s.actors[a := x])
  }

  /** The system once the first actor of the scan has been visited. */
  ghost function Visited<M>(s: System<M>, now: int, a: nat, rest: seq<nat>): (s': System<M>)
    requires a in s.actors
  {
    var x := s.actors[a];
    if !DueAt(x, now) then s.(loop := Visiting(now, rest))
    else At(s, Visiting(now, rest), a, Dispatch(x, now)).(
           tasks := s.tasks[s.nextTask := Task(a, Posted)], nextTask := s.nextTask + 1)
  }

  lemma SkipOne<M>(s: System<M>, now: int, a: nat, rest: seq<nat>) returns (events: seq<Event<M>>)
    requires s.loop == Visiting(now, [a] + rest) && a in s.actors && !DueAt(s.actors[a], now)
    ensures Gets(s, events, Visited(s, now, a, rest))
  {
    var s' := s.(loop := Visiting(now, rest));
    assert ([a] + rest)[0] == a && ([a] + rest)[1..] == rest;
    if s.actors[a].ready {
      var s1 := s.(loop := SawReady(now, a, rest));
      GetsFirst(s1, NotDue, s', [], s');
      GetsFirst(s, SeeReady, s1, [NotDue] + [], s');
      events := [SeeReady] + ([NotDue] + []);
    } else {
      GetsFirst(s, SeeBusy, s', [], s');
      events := [SeeBusy] + [];
    }
  }

  lemma DispatchOne<M>(s: System<M>, now: int, a: nat, rest: seq<nat>) returns (events: seq<Event<M>>)
    requires s.loop == Visiting(now, [a] + rest) && a in s.actors && DueAt(s.actors[a], now)
    ensures Gets(s, events, Visited(s, now, a, rest))
  {
    assert ([a] + rest)[0] == a && ([a] + rest)[1..] == rest;
    var x := s.actors[a];
    var s1 := s.(loop := SawReady(now, a, rest));
    var s2 := s.(loop := Due(now, a, rest));
    var s3 := At(s, Claimed(now, a, rest), a, x.(ready := false));
    var s4 := At(s, Stamped(now, a, rest), a, Dispatch(x, now));
    var s5 := Visited(s, now, a, rest);
    assert Apply(s3, Stamp) == s4;
    GetsFirst(s4, Post, s5, [], s5);
    GetsFirst(s3, Stamp, s4, [Post] + [], s5);
    GetsFirst(s2, Claim, s3, [Stamp] + ([Post] + []), s5);
    GetsFirst(s1, IsDue, s2, [Claim] + ([Stamp] + ([Post] + [])), s5);
    GetsFirst(s, SeeReady, s1, [IsDue] + ([Claim] + ([Stamp] + ([Post] + []))), s5);
    events := [SeeReady] + ([IsDue] + ([Claim] + ([Stamp] + ([Post] + []))));
  }

  lemma VisitOne<M>(s: System<M>, now: int, a: nat, rest: seq<nat>) returns (events: seq<Event<M>>)
    requires s.loop == Visiting(now, [a] + rest) && a in s.actors
    ensures Gets(s, events, Visited(s, now, a, rest))
  {
    if DueAt(s.actors[a], now) {
      events := DispatchOne(s, now, a, rest);
    } else {
      events := SkipOne(s, now, a, rest);
    }
  }

  /** Ticks are numbered in the order they are posted. */
  ghost predicate Numbered<M>(s: System<M>)
  {
    forall t :: t in s.tasks ==> t < s.nextTask
  }

  /** The ticks there were are there still. */
  ghost predicate TicksStay<M>(s: System<M>, s': System<M>)
  {
    forall t :: t in s.tasks ==> t in s'.tasks && s'.tasks[t] == s.tasks[t]
  }

  ghost predicate HasPosted<M>(s: System<M>, b: nat)
  {
    exists t :: t in s.tasks && s.tasks[t] == Task(b, Posted)
  }

  /** What a pass at time `now` that still has `rest` to visit does to actor `b`. */
  ghost predicate Served<M>(s: System<M>, s': System<M>, now: int, rest: seq<nat>, b: nat)
  {
    && b in s.actors && b in s'.actors
    && if b in rest && DueAt(s.actors[b], now) then s'.actors[b] == Dispatch(s.actors[b], now) && HasPosted(s', b)
       else s'.actors[b] == s.actors[b]
  }

  lemma VisitedServes<M>(s: System<M>, s': System<M>, now: int, a: nat, rest: seq<nat>, b: nat)
    requires a in s.actors && a !in rest && b in s.actors && Numbered(s)
    requires TicksStay(Visited(s, now, a, rest), s') && Served(Visited(s, now, a, rest), s', now, rest, b)
    ensures Served(s, s', now, [a] + rest, b)
  {
    var s1 := Visited(s, now, a, rest);
    if b == a && DueAt(s.actors[a], now) { assert s1.tasks[s.nextTask] == Task(a, Posted); }
  }

  lemma VisitedStays<M>(s: System<M>, s': System<M>, now: int, a: nat, rest: seq<nat>)
    requires a in s.actors && Numbered(s) && TicksStay(Visited(s, now, a, rest), s')
    ensures Numbered(Visited(s, now, a, rest)) && TicksStay(s, s')
  {
    var s1 := Visited(s, now, a, rest);
    assert TicksStay(s, s1);
  }

  predicate Distinct(scan: seq<nat>)
  {
    forall i, j :: 0 <= i < j < |scan| ==> scan[i] != scan[j]
  }

  ghost predicate AllServed<M>(s: System<M>, s': System<M>, now: int, rest: seq<nat>)
  {
    s'.loop == Top && s'.actors.Keys == s.actors.Keys && forall b :: b in s.actors ==> Served(s, s', now, rest, b)
  }

  /** The rest of a pass. */
  lemma {:induction false} FinishPass<M>(s: System<M>, now: int, rest: seq<nat>)
    returns (events: seq<Event<M>>, s': System<M>)
    requires s.loop == Visiting(now, rest) && Distinct(rest) && Numbered(s)
    requires forall i :: 0 <= i < |rest| ==> rest[i] in s.actors
    ensures Gets(s, events, s')
    ensures TicksStay(s, s') && AllServed(s, s', now, rest)
    decreases |rest|
  {
    if rest == [] {
      s' := s.(loop := Top);
      GetsFirst(s, EndScan, s', [], s');
      events := [EndScan] + [];
    } else {
      var a, later := rest[0], rest[1..];
      assert rest == [a] + later;
      var visit := VisitOne(s, now, a, later);
      var s1 := Visited(s, now, a, later);
      VisitedStays(s, s1, now, a, later);
      var more;
      more, s' := FinishPass(s1, now, later);
      GetsThen(s, visit, s1, more, s');
      VisitedStays(s, s', now, a, later);
      forall b | b in s.actors ensures Served(s, s', now, rest, b) { VisitedServes(s, s', now, a, later, b); }
      events := visit + more;
    }
  }

  // ---- One tick ----

  /** The actor once its tick, now in `phase`, has run to its end. */
  function EndOf<M>(x: Actor<M>, phase: Phase<M>): (y: Actor<M>)
  {
    var y := x.(ready := true, open := false, lock := None);
    if phase.Copied? || phase.Handling? then
      if x.handled == [] then y
      else y.(handled := x.handled[|x.handled| - 1 := NonNull(phase.batch)])
    else y.(batches := x.batches + [x.mailbox], handled := x.handled + [NonNull(x.mailbox)])
  }

  ghost function Ended<M>(s: System<M>, t: nat): (s': System<M>)
    requires InPhase(s, t)
  {
    var a := s.tasks[t].actor;
    s.(actors := s.actors[a := EndOf(s.actors[a], s.tasks[t].phase)], tasks := s.tasks - {t})
  }

  /** How much a tick still has to do. */
  function Left<M>(phase: Phase<M>, x: Actor<M>): (n: int)
  {
    match phase
    case Posted => |x.mailbox| + 5
    case Started => |x.mailbox| + 4
    case Locked => |x.mailbox| + 3
    case Copied(batch) => |batch| + 2
    case Handling(batch, next) => |batch| - next
  }

  /** A tick's next step, except for the last. */
  ghost predicate Next<M>(t: nat, e: Event<M>, phase: Phase<M>, x: Actor<M>, phase': Phase<M>, x': Actor<M>)
  {
    match phase
    case Posted => e == Start(t) && phase' == Started && x' == x.(ready := false)
    case Started => e == Lock(t) && phase' == Locked && x' == x.(lock := Some(t))
    case Locked =>
      && e == Copy(t) && phase' == Copied(x.mailbox)
      && x' == x.(batches := x.batches + [x.mailbox], handled := x.handled + [[]], open := true)
    case Copied(batch) => e == Unlock(t) && phase' == Handling(batch, 0) && x' == x.(lock := None)
    case Handling(batch, next) =>
      && e == Handle(t) && next < |batch| && x.handled != []
      && phase' == Handling(batch, next + 1) && x' == HandleOne(x, batch[next])
  }

  lemma NextExists<M>(t: nat, phase: Phase<M>, x: Actor<M>)
    returns (e: Event<M>, phase': Phase<M>, x': Actor<M>)
    requires TaskOk(t, phase, x) && !(phase.Handling? && phase.next == |phase.batch|)
    ensures Next(t, e, phase, x, phase', x')
  {
    match phase
    case Posted => e, phase', x' := Start(t), Started, x.(ready := false);
    case Started => e, phase', x' := Lock(t), Locked, x.(lock := Some(t));
    case Locked =>
      e, phase' := Copy(t), Copied(x.mailbox);
      x' := x.(batches := x.batches + [x.mailbox], handled := x.handled + [[]], open := true);
    case Copied(batch) => e, phase', x' := Unlock(t), Handling(batch, 0), x.(lock := None);
    case Handling(batch, next) =>
      e, phase', x' := Handle(t), Handling(batch, next + 1), HandleOne(x, batch[next]);
  }

  /** No step changes where the tick will end. */
  lemma NextKeepsEnd<M>(t: nat, e: Event<M>, phase: Phase<M>, x: Actor<M>, phase': Phase<M>, x': Actor<M>)
    requires TaskOk(t, phase, x) && Next(t, e, phase, x, phase', x')
    requires |x.handled| == |x.batches|
    ensures EndOf(x', phase') == EndOf(x, phase) && Left(phase', x') < Left(phase, x)
  {
  }

  lemma NextIsStep<M>(s: System<M>, t: nat, e: Event<M>, phase': Phase<M>, x': Actor<M>)
    requires InPhase(s, t) && Next(t, e, s.tasks[t].phase, s.actors[s.tasks[t].actor], phase', x')
    requires s.tasks[t].phase == Started ==> s.actors[s.tasks[t].actor].lock == None
    ensures Work(e) && Enabled(s, e) && Apply(s, e) == Moved(s, t, phase', x')
  {
  }

  /** Nobody but its own tick locks an actor's mailbox for longer than one step. */
  lemma LockIsFree<M>(s: System<M>, t: nat)
    requires Inv(s) && InPhase(s, t) && s.tasks[t].phase == Started
    ensures s.actors[s.tasks[t].actor].lock == None
  {
    var a := s.tasks[t].actor;
    assert TaskOk(t, Started, s.actors[a]) && OwnerOk(s, a, s.actors[a]);
  }

  lemma MoveKeepsEnd<M>(s: System<M>, t: nat, phase: Phase<M>, x: Actor<M>)
    requires InPhase(s, t) && EndOf(x, phase) == EndOf(s.actors[s.tasks[t].actor], s.tasks[t].phase)
    ensures InPhase(Moved(s, t, phase, x), t) && Ended(Moved(s, t, phase, x), t) == Ended(s, t)
  {
    assert Ended(Moved(s, t, phase, x), t).actors == Ended(s, t).actors;
    assert Ended(Moved(s, t, phase, x), t).tasks == Ended(s, t).tasks;
  }

  /** With the whole snapshot handled, only the flags are left to change. */
  lemma EndOfLast<M>(t: nat, phase: Phase<M>, x: Actor<M>)
    requires TaskOk(t, phase, x) && phase.Handling? && phase.next == |phase.batch| && x.lock == None
    ensures EndOf(x, phase) == x.(ready := true, open := false)
  {
    assert phase.batch[..phase.next] == phase.batch;
    assert x.handled[|x.handled| - 1 := NonNull(phase.batch)] == x.handled;
  }

  lemma LastKeepsEnd<M>(s: System<M>, t: nat)
    requires Inv(s) && InPhase(s, t) && s.tasks[t].phase.Handling?
    requires s.tasks[t].phase.next == |s.tasks[t].phase.batch|
    ensures Enabled(s, Finish(t)) && Apply(s, Finish(t)) == Ended(s, t)
  {
    HandlerHoldsNoLock(s, t);
    EndOfLast(t, s.tasks[t].phase, s.actors[s.tasks[t].actor]);
  }

  /** From wherever it is, a tick runs to its end by its own steps. */
  lemma {:induction false} FinishTick<M>(s: System<M>, t: nat) returns (events: seq<Event<M>>)
    requires Inv(s) && InPhase(s, t)
    ensures Gets(s, events, Ended(s, t)) && Inv(Ended(s, t))
    decreases Left(s.tasks[t].phase, s.actors[s.tasks[t].actor])
  {
    var phase, x := s.tasks[t].phase, s.actors[s.tasks[t].actor];
    assert TaskOk(t, phase, x) && Delivered(x);
    if phase.Handling? && phase.next == |phase.batch| {
      LastKeepsEnd(s, t);
      StepKeepsInv(s, Finish(t));
      GetsFirst(s, Finish(t), Ended(s, t), [], Ended(s, t));
      events := [Finish(t)] + [];
    } else {
      var e, phase', x' := NextExists(t, phase, x);
      NextKeepsEnd(t, e, phase, x, phase', x');
      if phase == Started { LockIsFree(s, t); }
      NextIsStep(s, t, e, phase', x');
      StepKeepsInv(s, e);
      MoveKeepsEnd(s, t, phase', x');
      var s1 := Moved(s, t, phase', x');
      var rest := FinishTick(s1, t);
      GetsFirst(s, e, s1, rest, Ended(s, t));
      events := [e] + rest;
    }
  }

  // ---- A due actor is served ----

  lemma {:induction false} Bound(keys: set<nat>) returns (n: nat)
    ensures forall a :: a in keys ==> a < n
  {
    if keys == {} {
      n := 0;
    } else {
      var k :| k in keys;
      var m := Bound(keys - {k});
      n := m + k + 1;
      assert forall a :: a in keys ==> a == k || a in keys - {k};
    }
  }

  /** There is an order to visit any actors in. */
  lemma ScanExists(keys: set<nat>) returns (scan: seq<nat>)
    ensures IsScan(keys, scan)
  {
    var n := Bound(keys);
    scan := [];
    for k := 0 to n
      invariant forall i, j :: 0 <= i < j < |scan| ==> scan[i] < scan[j]
      invariant forall i :: 0 <= i < |scan| ==> scan[i] in keys && scan[i] < k
      invariant forall a :: a in keys && a < k ==> a in scan
    {
      if k in keys { scan := scan + [k]; }
    }
  }

  /** From the top of the loop one pass at time `now` dispatches every actor that is ready and due at
      `now`, posts a tick for each, leaves all others alone and comes back to the top. */
  lemma PassDispatchesAllDue<M>(s: System<M>, now: int, scan: seq<nat>)
    returns (events: seq<Event<M>>, s': System<M>)
    requires Inv(s) && s.loop == Top && IsScan(s.actors.Keys, scan)
    ensures Enabled(s, ReadClock(now, scan))
    ensures Gets(Apply(s, ReadClock(now, scan)), events, s') && Inv(s')
    ensures TicksStay(s, s') && AllServed(s, s', now, scan)
  {
    var s1 := s.(loop := Visiting(now, scan));
    assert Apply(s, ReadClock(now, scan)) == s1;
    events, s' := FinishPass(s1, now, scan);
    StepKeepsInv(s, ReadClock(now, scan));
    RunKeepsInv(s1, events);
    forall b | b in s.actors ensures Served(s, s', now, scan, b) { assert Served(s1, s', now, scan, b); }
  }

  /** An actor that has been dispatched at `now` and has had all that had arrived handled. */
  function Serve<M>(x: Actor<M>, now: int): (y: Actor<M>)
  {
    x.(last := now, dispatched := x.dispatched + [now],
       batches := x.batches + [x.arrived], handled := x.handled + [NonNull(x.arrived)])
  }

  /** The tick of a dispatched actor serves it. */
  lemma TickServes<M>(s: System<M>, a: nat, x: Actor<M>, now: int)
    returns (events: seq<Event<M>>, s': System<M>)
    requires Inv(s) && a in s.actors && s.actors[a] == Dispatch(x, now) && HasPosted(s, a)
    requires x.ready && !x.open && x.lock == None && x.mailbox == x.arrived
    ensures Gets(s, events, s') && s'.loop == s.loop && a in s'.actors && s'.actors[a] == Serve(x, now)
  {
    var t :| t in s.tasks && s.tasks[t] == Task(a, Posted);
    events := FinishTick(s, t);
    s' := Ended(s, t);
  }

  lemma DueIsServed<M>(s: System<M>, a: nat, now: int, scan: seq<nat>)
    returns (events: seq<Event<M>>, s': System<M>)
    requires Inv(s) && s.loop == Top && a in s.actors && DueAt(s.actors[a], now) && IsScan(s.actors.Keys, scan)
    ensures Enabled(s, ReadClock(now, scan)) && Gets(Apply(s, ReadClock(now, scan)), events, s')
    ensures s'.loop == Top && a in s'.actors && s'.actors[a] == Serve(s.actors[a], now)
  {
    var pass, s1 := PassDispatchesAllDue(s, now, scan);
    assert Served(s, s1, now, scan, a);
    var x := s.actors[a];
    assert OwnerOk(s, a, x) && Delivered(x);
    var tick;
    tick, s' := TickServes(s1, a, x, now);
    GetsThen(Apply(s, ReadClock(now, scan)), pass, s1, tick, s');
    events := pass + tick;
  }

  /** From every moment of every run at which the loop is at its top and `a` is READY and due at
      `now`: one look at the clock that shows `now`, and the scheduler's own work, dispatch `a` at
      `now`, handle everything that had arrived, in order, and leave it READY again. */
  lemma DueActorIsServed<M>(s: System<M>, before: seq<Event<M>>, a: nat, now: int)
    returns (scan: seq<nat>, events: seq<Event<M>>)
    requires Init(s) && Legal(s, before)
    requires After(s, before).loop == Top && a in After(s, before).actors && DueAt(After(s, before).actors[a], now)
    ensures Legal(After(s, before), [ReadClock(now, scan)] + events)
    ensures forall i :: 0 <= i < |events| ==> Work(events[i])
    ensures
      var s1 := After(s, before);
      var s2 := After(s1, [ReadClock(now, scan)] + events);
      && s2.loop == Top && a in s2.actors && s2.actors[a].ready
      && s2.actors[a] == Serve(s1.actors[a], now)
  {
    InitIsOk(s);
    RunKeepsInv(s, before);
    var s1 := After(s, before);
    scan := ScanExists(s1.actors.Keys);
    var s2;
    events, s2 := DueIsServed(s1, a, now, scan);
    StepFirst(s1, ReadClock(now, scan), events);
  }

  // ---- Nobody is left behind ----

  /** How much the loop still has to do in this pass. */
  function Ahead(loop: Loop): (n: nat)
  {
    match loop
    case Top => 0
    case Visiting(_, rest) => 6 * |rest| + 1
    case SawReady(_, _, rest) => 6 * |rest| + 6
    case Due(_, _, rest) => 6 * |rest| + 5
    case Claimed(_, _, rest) => 6 * |rest| + 4
    case Stamped(_, _, rest) => 6 * |rest| + 3
  }

  lemma LoopCanMove<M>(s: System<M>) returns (e: Event<M>)
    requires LoopOk(s) && s.loop != Top
    ensures Work(e) && Enabled(s, e) && Ahead(Apply(s, e).loop) < Ahead(s.loop)
  {
    match s.loop
    case Visiting(_, rest) =>
      if rest == [] {
        e := EndScan;
      } else {
        assert rest[0] in s.actors;
        e := if s.actors[rest[0]].ready then SeeReady else SeeBusy;
      }
    case SawReady(_, a, _) => e := if Elapsed(s) < s.actors[a].interval then NotDue else IsDue;
    case Due(_, _, _) => e := Claim;
    case Claimed(_, _, _) => e := Stamp;
    case Stamped(_, _, _) => e := Post;
  }

  lemma {:induction false} ReachTop<M>(s: System<M>) returns (events: seq<Event<M>>, s': System<M>)
    requires Inv(s)
    ensures Gets(s, events, s') && Inv(s') && s'.loop == Top
    decreases Ahead(s.loop)
  {
    if s.loop == Top {
      events, s' := [], s;
    } else {
      var e := LoopCanMove(s);
      StepKeepsInv(s, e);
      var rest;
      rest, s' := ReachTop(Apply(s, e));
      GetsFirst(s, e, Apply(s, e), rest, s');
      events := [e] + rest;
    }
  }

  lemma {:induction false} FinishAllTicks<M>(s: System<M>) returns (events: seq<Event<M>>, s': System<M>)
    requires Inv(s)
    ensures Gets(s, events, s') && Inv(s') && s'.loop == s.loop && s'.tasks == map[]
    decreases |s.tasks|
  {
    if s.tasks == map[] {
      events, s' := [], s;
    } else {
      var t :| t in s.tasks;
      var tick := FinishTick(s, t);
      var rest;
      rest, s' := FinishAllTicks(Ended(s, t));
      GetsThen(s, tick, Ended(s, t), rest, s');
      events := tick + rest;
    }
  }

  lemma {:induction false} WorkAddsNothing<M>(events: seq<Event<M>>, a: nat)
    requires forall i :: 0 <= i < |events| ==> Work(events[i])
    ensures Added(events, a) == []
  {
    if events != [] {
      assert Work(events[0]);
      WorkAddsNothing(events[1..], a);
    }
  }

  /** From every state the scheduler's own work finishes the pass and every tick, and then every actor
      is READY. */
  lemma Settle<M>(s: System<M>, a: nat) returns (events: seq<Event<M>>, s': System<M>)
    requires Inv(s) && a in s.actors && Accounted(s, a)
    ensures Gets(s, events, s') && Inv(s') && s'.loop == Top && s'.tasks == map[]
    ensures a in s'.actors && s'.actors[a].ready && s'.actors[a].arrived == s.actors[a].arrived
  {
    var first, s1 := ReachTop(s);
    var second;
    second, s' := FinishAllTicks(s1);
    GetsThen(s, first, s1, second, s');
    events := first + second;
    RunAccounts(s, events, a);
    ArrivalsAreAdded(s, events, a);
    WorkAddsNothing(events, a);
  }

  /** From every moment of every run, whatever the loop and the ticks are in the middle of, one more
      look at the clock is enough for everything that has arrived at an actor to be handled, in
      order, and the actor to be READY again: no message and no actor ever gets stuck. */
  lemma EveryMessageCanBeHandled<M>(s: System<M>, before: seq<Event<M>>, a: nat)
    returns (settle: seq<Event<M>>, now: int, scan: seq<nat>, serve: seq<Event<M>>)
    requires Init(s) && Legal(s, before) && a in s.actors
    ensures a in After(s, before).actors
    ensures forall i :: 0 <= i < |settle| ==> Work(settle[i])
    ensures forall i :: 0 <= i < |serve| ==> Work(serve[i])
    ensures Legal(After(s, before), settle + ([ReadClock(now, scan)] + serve))
    ensures
      var s1 := After(s, before);
      var s2 := After(s1, settle + ([ReadClock(now, scan)] + serve));
      && a in s2.actors && s2.actors[a].ready && s2.actors[a].batches != [] && s2.actors[a].handled != []
      && s2.actors[a].batches[|s2.actors[a].batches| - 1] == s1.actors[a].arrived
      && s2.actors[a].handled[|s2.actors[a].handled| - 1] == NonNull(s1.actors[a].arrived)
  {
    InitIsOk(s);
    RunKeepsInv(s, before);
    EveryDispatchIsAccountedFor(s, before, a);
    var s1 := After(s, before);
    var calm, s2;
    settle, calm := Settle(s1, a);
    now := calm.actors[a].last + calm.actors[a].interval;
    scan := ScanExists(calm.actors.Keys);
    serve, s2 := DueIsServed(calm, a, now, scan);
    StepFirst(calm, ReadClock(now, scan), serve);
    RunThen(s1, settle, [ReadClock(now, scan)] + serve);
  }
}
