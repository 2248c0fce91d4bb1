/** What the scheduler owes its actors: every dispatch becomes one tick and every due actor is served. */
module ActorRuns {
  import opened Common
  import opened ActorScheduler

  // ---- Every dispatch is accounted for ----

  /** The tick has not taken its snapshot yet. */
  predicate Waiting<M>(phase: Phase<M>)
  {
    phase == Posted || phase == Started || phase == Locked
  }

  ghost predicate HasWaitingTask<M>(s: System<M>, a: nat)
  {
    exists t :: t in s.tasks && s.tasks[t].actor == a && Waiting(s.tasks[t].phase)
  }

  /** The loop has `a` in hand, between claiming it and posting its tick. */
  predicate InHand(loop: Loop, a: nat)
  {
    (loop.Claimed? || loop.Stamped?) && loop.a == a
  }

  /** A dispatch of `a` whose snapshot is still to come. */
  ghost predicate Owed<M>(s: System<M>, a: nat)
  {
    (s.loop.Stamped? && s.loop.a == a) || HasWaitingTask(s, a)
  }

  /** Dispatches are snapshots and at most one on its way; an actor is READY unless the loop has it in
      hand or it has a tick. */
  ghost predicate Accounted<M>(s: System<M>, a: nat)
    requires a in s.actors
  {
    && |s.actors[a].dispatched| == |s.actors[a].batches| + (if Owed(s, a) then 1 else 0)
    && (s.actors[a].ready <==> NoTask(s, a) && !InHand(s.loop, a))
  }

  ghost predicate HasTick<M>(s: System<M>, t: nat, a: nat)
  {
    t in s.tasks && s.tasks[t].actor == a
  }

  /** What is owed to an actor depends on its own ticks only. */
  lemma SameTicks<M>(s: System<M>, s': System<M>, a: nat)
    requires forall t :: HasTick(s, t, a) ==> HasTick(s', t, a)
    requires forall t :: HasTick(s', t, a) ==> HasTick(s, t, a)
    requires forall t :: HasTick(s, t, a) && HasTick(s', t, a) ==> s'.tasks[t] == s.tasks[t]
    ensures HasWaitingTask(s', a) <==> HasWaitingTask(s, a)
    ensures NoTask(s', a) <==> NoTask(s, a)
  {
    if HasWaitingTask(s, a) {
      var t :| t in s.tasks && s.tasks[t].actor == a && Waiting(s.tasks[t].phase);
      assert HasTick(s, t, a) && t in s'.tasks;
    }
    if HasWaitingTask(s', a) {
      var t :| t in s'.tasks && s'.tasks[t].actor == a && Waiting(s'.tasks[t].phase);
      assert HasTick(s', t, a) && t in s.tasks;
    }
    if NoTask(s, a) { forall t | t in s'.tasks ensures s'.tasks[t].actor != a { assert !HasTick(s, t, a); } }
    if NoTask(s', a) { forall t | t in s.tasks ensures s.tasks[t].actor != a { assert !HasTick(s', t, a); } }
  }

  lemma ScanAccounts<M>(s: System<M>, e: Event<M>, a: nat)
    requires Enabled(s, e) && a in s.actors && Accounted(s, a)
    requires e.ReadClock? || e.EndScan? || e.SeeBusy? || e.SeeReady? || e.NotDue? || e.IsDue? || e.AddMsg?
    ensures a in Apply(s, e).actors && Accounted(Apply(s, e), a)
  {
    var s' := Apply(s, e);
    assert s'.tasks == s.tasks;
    assert HasWaitingTask(s', a) <==> HasWaitingTask(s, a);
    assert NoTask(s', a) <==> NoTask(s, a);
  }

  lemma ClaimAccounts<M>(s: System<M>, a: nat)
    requires Inv(s) && Enabled(s, Claim) && a in s.actors && Accounted(s, a)
    ensures a in Apply(s, Claim).actors && Accounted(Apply(s, Claim), a)
  {
    var s' := Apply(s, Claim);
    assert HasWaitingTask(s', a) <==> HasWaitingTask(s, a);
    assert NoTask(s', a) <==> NoTask(s, a);
  }

  lemma StampAccounts<M>(s: System<M>, a: nat)
    requires Inv(s) && Enabled(s, Stamp) && a in s.actors && Accounted(s, a)
    ensures a in Apply(s, Stamp).actors && Accounted(Apply(s, Stamp), a)
  {
    var s' := Apply(s, Stamp);
    assert HasWaitingTask(s', a) <==> HasWaitingTask(s, a);
    assert NoTask(s', a) <==> NoTask(s, a);
  }

  lemma PostAccounts<M>(s: System<M>, a: nat)
    requires TasksOk(s) && LoopOk(s) && s.loop.Stamped? && a in s.actors && Accounted(s, a)
    ensures a in Apply(s, Post).actors && Accounted(Apply(s, Post), a)
  {
    var s' := Apply(s, Post);
    var t := s.nextTask;
    assert t in s'.tasks && s'.tasks[t] == Task(s.loop.a, Posted) && Waiting(s'.tasks[t].phase);
    if a == s.loop.a {
      assert HasWaitingTask(s', a) && !NoTask(s', a);
    } else {
      SameTicks(s, s', a);
    }
  }

  /** A tick moving between two phases on the same side of its snapshot changes nothing that is owed. */
  lemma MoveKeepsOwed<M>(s: System<M>, t: nat, phase: Phase<M>, x: Actor<M>, a: nat)
    requires InPhase(s, t) && (Waiting(phase) <==> Waiting(s.tasks[t].phase))
    ensures HasWaitingTask(Moved(s, t, phase, x), a) <==> HasWaitingTask(s, a)
  {
    var s' := Moved(s, t, phase, x);
    if HasWaitingTask(s, a) {
      var u :| u in s.tasks && s.tasks[u].actor == a && Waiting(s.tasks[u].phase);
      assert u in s'.tasks && s'.tasks[u].actor == a && Waiting(s'.tasks[u].phase);
    }
    if HasWaitingTask(s', a) {
      var u :| u in s'.tasks && s'.tasks[u].actor == a && Waiting(s'.tasks[u].phase);
      assert u in s.tasks && s.tasks[u].actor == a && Waiting(s.tasks[u].phase);
    }
  }

  lemma MoveAccounts<M>(s: System<M>, t: nat, phase: Phase<M>, x: Actor<M>, a: nat)
    requires InPhase(s, t) && (Waiting(phase) <==> Waiting(s.tasks[t].phase)) && a in s.actors && Accounted(s, a)
    requires
      var was := s.actors[s.tasks[t].actor];
      x.dispatched == was.dispatched && x.batches == was.batches && x.ready == was.ready
    ensures a in Moved(s, t, phase, x).actors && Accounted(Moved(s, t, phase, x), a)
  {
    MoveKeepsOwed(s, t, phase, x, a);
    MoveKeepsNoTask(s, t, phase, x, a);
  }

  /** `t` is the one tick of its busy actor, and the loop does not have that actor in hand. */
  ghost predicate OnlyTask<M>(s: System<M>, t: nat)
  {
    && InPhase(s, t) && !InHand(s.loop, s.tasks[t].actor) && !s.actors[s.tasks[t].actor].ready
    && forall u :: u in s.tasks && s.tasks[u].actor == s.tasks[t].actor ==> u == t
  }

  lemma InvMeansOnlyTask<M>(s: System<M>, t: nat)
    requires Inv(s) && InPhase(s, t)
    ensures OnlyTask(s, t)
  {
    assert TaskOk(t, s.tasks[t].phase, s.actors[s.tasks[t].actor]);
  }

  lemma CopyAccounts<M>(s: System<M>, t: nat, a: nat)
    requires OnlyTask(s, t) && s.tasks[t].phase == Locked && a in s.actors && Accounted(s, a)
    ensures a in AfterCopy(s, t).actors && Accounted(AfterCopy(s, t), a)
  {
    var mine := s.tasks[t].actor;
    var x, s' := s.actors[mine], AfterCopy(s, t);
    MoveKeepsNoTask(s, t, Copied(x.mailbox),
                    x.(batches := x.batches + [x.mailbox], handled := x.handled + [[]], open := true), a);
    if a == mine {
      assert HasWaitingTask(s, a);
      assert !HasWaitingTask(s', a);
    } else {
      SameTicks(s, s', a);
    }
  }

  lemma FinishAccounts<M>(s: System<M>, t: nat, a: nat)
    requires OnlyTask(s, t) && s.tasks[t].phase.Handling? && a in s.actors && Accounted(s, a)
    ensures a in AfterFinish(s, t).actors && Accounted(AfterFinish(s, t), a)
  {
    var s' := AfterFinish(s, t);
    if a == s.tasks[t].actor {
      assert NoTask(s', a) && !HasWaitingTask(s, a);
    } else {
      SameTicks(s, s', a);
    }
  }

  lemma TickAccounts<M>(s: System<M>, e: Event<M>, a: nat)
    requires Enabled(s, e) && OfTick(e) && OnlyTask(s, e.t) && a in s.actors && Accounted(s, a)
    ensures a in Apply(s, e).actors && Accounted(Apply(s, e), a)
  {
    var t := e.t;
    var x := s.actors[s.tasks[t].actor];
    match e
    case Start(_) => MoveAccounts(s, t, Started, x.(ready := false), a);
    case Lock(_) => MoveAccounts(s, t, Locked, x.(lock := Some(t)), a);
    case Copy(_) => CopyAccounts(s, t, a);
    case Unlock(_) => MoveAccounts(s, t, Handling(s.tasks[t].phase.batch, 0), x.(lock := None), a);
    case Handle(_) =>
      var Handling(batch, next) := s.tasks[t].phase;
      MoveAccounts(s, t, Handling(batch, next + 1), HandleOne(x, batch[next]), a);
    case Finish(_) => FinishAccounts(s, t, a);
  }

  lemma LoopAccounts<M>(s: System<M>, e: Event<M>, a: nat)
    requires Inv(s) && Enabled(s, e) && !OfTick(e) && a in s.actors && Accounted(s, a)
    ensures a in Apply(s, e).actors && Accounted(Apply(s, e), a)
  {
    match e
    case Claim => ClaimAccounts(s, a);
    case Stamp => StampAccounts(s, a);
    case Post => PostAccounts(s, a);
    case _ => ScanAccounts(s, e, a);
  }

  lemma StepAccounts<M>(s: System<M>, e: Event<M>, a: nat)
    requires Inv(s) && Enabled(s, e) && a in s.actors && Accounted(s, a)
    ensures a in Apply(s, e).actors && Accounted(Apply(s, e), a)
  {
    if OfTick(e) {
      InvMeansOnlyTask(s, e.t);
      TickAccounts(s, e, a);
    } else {
      LoopAccounts(s, e, a);
    }
  }

  lemma {:induction false} RunAccounts<M>(s: System<M>, events: seq<Event<M>>, a: nat)
    requires Inv(s) && Legal(s, events) && a in s.actors && Accounted(s, a)
    ensures a in After(s, events).actors && Accounted(After(s, events), a)
    decreases |events|
  {
    if events != [] {
      StepAccounts(s, events[0], a);
      StepKeepsInv(s, events[0]);
      RunAccounts(Apply(s, events[0]), events[1..], a);
    }
  }

  /** In every run each dispatch of an actor has had its snapshot taken, except for at most one whose
      tick is about to be posted or has not got so far; and an actor that is not READY is in the
      loop's hand or has a tick, so that none is ever left busy. */
  lemma EveryDispatchIsAccountedFor<M>(s: System<M>, events: seq<Event<M>>, a: nat)
    requires Init(s) && Legal(s, events) && a in s.actors
    ensures a in After(s, events).actors && Accounted(After(s, events), a)
  {
    InitIsOk(s);
    assert !HasWaitingTask(s, a);
    RunAccounts(s, events, a);
  }

  // ---- Dispatch times and arrivals, from the events alone ----

  /** What a bystander who watches the loop notes of it: the clock reading, the actors not done with
      yet in this scan, and the times at which `a` was stamped. */
  datatype Watch = Watch(now: int, todo: seq<nat>, times: seq<int>)

  function Note<M>(w: Watch, e: Event<M>, a: nat): (w': Watch)
  {
    match e
    case ReadClock(now, scan) => w.(now := now, todo := scan)
    case Stamp => if w.todo != [] && w.todo[0] == a then w.(times := w.times + [w.now]) else w
    case SeeBusy => w.(todo := if w.todo == [] then [] else w.todo[1..])
    case NotDue => w.(todo := if w.todo == [] then [] else w.todo[1..])
    case Post => w.(todo := if w.todo == [] then [] else w.todo[1..])
    case _ => w
  }

  function NoteAll<M>(w: Watch, events: seq<Event<M>>, a: nat): (w': Watch)
    decreases |events|
  {
    if events == [] then w else NoteAll(Note(w, events[0], a), events[1..], a)
  }

  /** The actors the loop is not done with. */
  function Todo(loop: Loop): (todo: seq<nat>)
  {
    if loop == Top then [] else if loop.Visiting? then loop.rest else [loop.a] + loop.rest
  }

  /** The loop and the bystander agree. */
  ghost predicate Watched<M>(s: System<M>, w: Watch, a: nat)
  {
    && a in s.actors && s.actors[a].dispatched == w.times
    && (s.loop != Top ==> w.now == s.loop.now && w.todo == Todo(s.loop))
  }

  lemma StepIsWatched<M>(s: System<M>, w: Watch, e: Event<M>, a: nat)
    requires Enabled(s, e) && Watched(s, w, a)
    ensures Watched(Apply(s, e), Note(w, e, a), a)
  {
  }

  lemma {:induction false} RunIsWatched<M>(s: System<M>, w: Watch, events: seq<Event<M>>, a: nat)
    requires Legal(s, events) && Watched(s, w, a)
    ensures Watched(After(s, events), NoteAll(w, events, a), a)
    decreases |events|
  {
    if events != [] {
      StepIsWatched(s, w, events[0], a);
      RunIsWatched(Apply(s, events[0]), Note(w, events[0], a), events[1..], a);
    }
  }

  /** Times the bystander has noted or may note before the next clock reading. */
  predicate Known(w: Watch, d: int)
  {
    d in w.times || (d == w.now && w.todo != [])
  }

  lemma NoteKnows<M>(w: Watch, e: Event<M>, a: nat, d: int)
    requires Known(Note(w, e, a), d)
    ensures Known(w, d) || (e.ReadClock? && e.now == d)
  {
  }

  /** Some event of the run read `d` from the clock. */
  ghost predicate Reading<M>(events: seq<Event<M>>, d: int)
  {
    exists i :: 0 <= i < |events| && events[i].ReadClock? && events[i].now == d
  }

  lemma ReadingLater<M>(events: seq<Event<M>>, d: int)
    requires events != [] && Reading(events[1..], d)
    ensures Reading(events, d)
  {
    var i :| 0 <= i < |events| - 1 && events[1..][i].ReadClock? && events[1..][i].now == d;
    assert events[i + 1].ReadClock?;
  }

  lemma {:induction false} TimesAreReadings<M>(w: Watch, events: seq<Event<M>>, a: nat, d: int)
    requires Known(NoteAll(w, events, a), d)
    ensures Known(w, d) || Reading(events, d)
    decreases |events|
  {
    if events != [] {
      TimesAreReadings(Note(w, events[0], a), events[1..], a, d);
      if Reading(events[1..], d) {
        ReadingLater(events, d);
      } else {
        NoteKnows(w, events[0], a, d);
      }
    }
  }

  /** In every run the dispatch times of an actor are the clock readings of the scans in which the loop
      stamped it, in order. */
  lemma DispatchesAreReadings<M>(s: System<M>, events: seq<Event<M>>, a: nat)
    requires Init(s) && Legal(s, events) && a in s.actors
    ensures a in After(s, events).actors
    ensures After(s, events).actors[a].dispatched == NoteAll(Watch(0, [], []), events, a).times
    ensures forall d :: d in After(s, events).actors[a].dispatched ==> Reading(events, d)
  {
    var w := Watch(0, [], []);
    RunIsWatched(s, w, events, a);
    forall d | d in After(s, events).actors[a].dispatched ensures Reading(events, d) {
      TimesAreReadings(w, events, a, d);
    }
  }

  /** The messages added to `a`. */
  function Added<M>(events: seq<Event<M>>, a: nat): (msgs: seq<Option<M>>)
  {
    if events == [] then []
    else (if events[0].AddMsg? && events[0].a == a then [events[0].msg] else []) + Added(events[1..], a)
  }

  lemma StepArrives<M>(s: System<M>, e: Event<M>, a: nat)
    requires Enabled(s, e) && a in s.actors
    ensures a in Apply(s, e).actors && Apply(s, e).actors[a].interval == s.actors[a].interval
    ensures Apply(s, e).actors[a].arrived ==
            s.actors[a].arrived + if e.AddMsg? && e.a == a then [e.msg] else []
  {
  }

  lemma AddedFirst<M>(before: seq<Option<M>>, events: seq<Event<M>>, a: nat)
    requires events != []
    ensures before + Added(events, a) ==
            before + (if events[0].AddMsg? && events[0].a == a then [events[0].msg] else []) + Added(events[1..], a)
  {
  }

  /** What has arrived at an actor is what was there before and every message added since, in order. */
  lemma {:induction false} ArrivalsAreAdded<M>(s: System<M>, events: seq<Event<M>>, a: nat)
    requires Legal(s, events) && a in s.actors
    ensures a in After(s, events).actors && After(s, events).actors[a].interval == s.actors[a].interval
    ensures After(s, events).actors[a].arrived == s.actors[a].arrived + Added(events, a)
    decreases |events|
  {
    if events != [] {
      StepArrives(s, events[0], a);
      AddedFirst(s.actors[a].arrived, events, a);
      ArrivalsAreAdded(Apply(s, events[0]), events[1..], a);
    }
  }
}
