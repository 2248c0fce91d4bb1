/** The actor scheduler: one scheduling loop and a pool of workers interleave over per-actor state,
    timestamps and mailboxes. Every line that touches shared state is a step of its own. */
module ActorScheduler {
  import opened Common

  /** `arrived`, `dispatched`, `batches`, `handled` and `open` are history: every message added,
      every dispatch time, every mailbox snapshot, the messages handled from each snapshot, and
      whether the newest snapshot is still being worked through. A null message is None. */
  datatype Actor<M> = Actor(
    ready: bool, last: int, interval: int, mailbox: seq<Option<M>>, lock: Option<nat>,
    arrived: seq<Option<M>>, dispatched: seq<int>, batches: seq<seq<Option<M>>>, handled: seq<seq<M>>, open: bool)

  /** Where a posted tick is. */
  datatype Phase<M> =
    | Posted                                     // waiting in the pool
    | Started                                    // set_state(TICKING) done
    | Locked                                     // holds the mailbox mutex
    | Copied(batch: seq<Option<M>>)              // snapshot taken, mutex still held
    | Handling(batch: seq<Option<M>>, next: nat) // mutex released, handlers running

  datatype Task<M> = Task(actor: nat, phase: Phase<M>)

  /** Where the scheduling loop is; `rest` are the actors still to visit in this scan. */
  datatype Loop =
    | Top
    | Visiting(now: int, rest: seq<nat>)
    | SawReady(now: int, a: nat, rest: seq<nat>) // ready_tick read the state
    | Due(now: int, a: nat, rest: seq<nat>)      // ready_tick returned true
    | Claimed(now: int, a: nat, rest: seq<nat>)  // set_state(TICKING) done
    | Stamped(now: int, a: nat, rest: seq<nat>)  // timestamp set, about to post

  datatype System<M> = System(actors: map<nat, Actor<M>>, loop: Loop, tasks: map<nat, Task<M>>, nextTask: nat)

  datatype Event<M> =
    | ReadClock(now: int, scan: seq<nat>)
    | EndScan
    | SeeBusy
    | SeeReady
    | NotDue
    | IsDue
    | Claim
    | Stamp
    | Post
    | Start(t: nat)
    | Lock(t: nat)
    | Copy(t: nat)
    | Unlock(t: nat)
    | Handle(t: nat)
    | Finish(t: nat)
    | AddMsg(a: nat, msg: Option<M>)

  /** The non-null messages, in order. */
  function NonNull<M>(msgs: seq<Option<M>>): (r: seq<M>)
  {
    if msgs == [] then []
    else NonNull(msgs[..|msgs| - 1]) + match msgs[|msgs| - 1] case None => [] case Some(m) => [m]
  }

  lemma NonNullLast<M>(msgs: seq<Option<M>>, msg: Option<M>)
    ensures NonNull(msgs + [msg]) == NonNull(msgs) + if msg == None then [] else [msg.value]
  {
    assert (msgs + [msg])[..|msgs|] == msgs;
  }

  /** Nothing is lost, added or moved but the nulls: `NonNull` takes a message to itself, a null to
      nothing and one list after another to one result after the other. */
  lemma {:induction false} NonNullIsFilter<M>(front: seq<Option<M>>, back: seq<Option<M>>, msg: Option<M>)
    ensures NonNull(front + back) == NonNull(front) + NonNull(back)
    ensures NonNull([msg]) == if msg == None then [] else [msg.value]
    decreases |back|
  {
    NonNullLast([], msg);
    assert [] + [msg] == [msg];
    if back == [] {
      assert front + back == front;
    } else {
      var most, last := back[..|back| - 1], back[|back| - 1];
      assert back == most + [last];
      NonNullIsFilter(front, most, msg);
      Regroup(front, most, [last]);
      NonNullLast(front + most, last);
      NonNullLast(most, last);
      Regroup(NonNull(front), NonNull(most), if last == None then [] else [last.value]);
    }
  }

  /** One pass over the actor map: every actor once, in the order of its id. */
  ghost predicate IsScan(actors: set<nat>, scan: seq<nat>)
  {
    && (forall i, j :: 0 <= i < j < |scan| ==> scan[i] < scan[j])
    && (forall i :: 0 <= i < |scan| ==> scan[i] in actors)
    && (forall a :: a in actors ==> a in scan)
  }

  ghost predicate InPhase<M>(s: System<M>, t: nat)
  {
    t in s.tasks && s.tasks[t].actor in s.actors
  }

  /** The scan is at a registered actor. */
  ghost predicate Visits<M>(s: System<M>)
  {
    s.loop.Visiting? && s.loop.rest != [] && s.loop.rest[0] in s.actors
  }

  /** What `ready_tick` compares with the interval. */
  ghost function Elapsed<M>(s: System<M>): (d: int)
    requires s.loop.SawReady? && s.loop.a in s.actors
  {
    s.loop.now - s.actors[s.loop.a].last
  }

  ghost predicate Enabled<M>(s: System<M>, e: Event<M>)
  {
    match e
    case ReadClock(_, scan) => s.loop == Top && IsScan(s.actors.Keys, scan)
    case EndScan => s.loop.Visiting? && s.loop.rest == []
    case SeeBusy => Visits(s) && !s.actors[s.loop.rest[0]].ready
    case SeeReady => Visits(s) && s.actors[s.loop.rest[0]].ready
    case NotDue => s.loop.SawReady? && s.loop.a in s.actors && Elapsed(s) < s.actors[s.loop.a].interval
    case IsDue => s.loop.SawReady? && s.loop.a in s.actors && Elapsed(s) >= s.actors[s.loop.a].interval
    case Claim => s.loop.Due? && s.loop.a in s.actors
    case Stamp => s.loop.Claimed? && s.loop.a in s.actors
    case Post => s.loop.Stamped?
    case Start(t) => InPhase(s, t) && s.tasks[t].phase == Posted
    case Lock(t) => InPhase(s, t) && s.tasks[t].phase == Started && s.actors[s.tasks[t].actor].lock == None
    case Copy(t) => InPhase(s, t) && s.tasks[t].phase == Locked
    case Unlock(t) => InPhase(s, t) && s.tasks[t].phase.Copied?
    case Handle(t) =>
      && InPhase(s, t) && s.tasks[t].phase.Handling? && s.tasks[t].phase.next < |s.tasks[t].phase.batch|
      && s.actors[s.tasks[t].actor].handled != []
    case Finish(t) => InPhase(s, t) && s.tasks[t].phase.Handling? && s.tasks[t].phase.next == |s.tasks[t].phase.batch|
    case AddMsg(a, _) => a in s.actors && s.actors[a].lock == None
  }

  function HandleOne<M>(x: Actor<M>, msg: Option<M>): (y: Actor<M>)
    requires x.handled != []
  {
    match msg
    case None => x
    case Some(m) => x.(handled := x.handled[|x.handled| - 1 := x.handled[|x.handled| - 1] + [m]])
  }

  ghost function Apply<M>(s: System<M>, e: Event<M>): (s': System<M>)
    requires Enabled(s, e)
  {
    match e
    case ReadClock(now, scan) => s.(loop := Visiting(now, scan))
    case EndScan => s.(loop := Top)
    case SeeBusy => s.(loop := Visiting(s.loop.now, s.loop.rest[1..]))
    case SeeReady => s.(loop := SawReady(s.loop.now, s.loop.rest[0], s.loop.rest[1..]))
    case NotDue => s.(loop := Visiting(s.loop.now, s.loop.rest))
    case IsDue => s.(loop := Due(s.loop.now, s.loop.a, s.loop.rest))
    case Claim =>
      s.(loop := Claimed(s.loop.now, s.loop.a, s.loop.rest),
         actors := s.actors[s.loop.a := s.actors[s.loop.a].(ready := false)])
    case Stamp =>
      var x := s.actors[s.loop.a];
      s.(loop := Stamped(s.loop.now, s.loop.a, s.loop.rest),
         actors := s.actors[s.loop.a := x.(last := s.loop.now, dispatched := x.dispatched + [s.loop.now])])
    case Post =>
      s.(loop := Visiting(s.loop.now, s.loop.rest),
         tasks := s.tasks[s.nextTask := Task(s.loop.a, Posted)], nextTask := s.nextTask + 1)
    case Start(t) => Moved(s, t, Started, s.actors[s.tasks[t].actor].(ready := false))
    case Lock(t) => Moved(s, t, Locked, s.actors[s.tasks[t].actor].(lock := Some(t)))
    case Copy(t) => AfterCopy(s, t)
    case Unlock(t) => Moved(s, t, Handling(s.tasks[t].phase.batch, 0), s.actors[s.tasks[t].actor].(lock := None))
    case Handle(t) => AfterHandle(s, t)
    case Finish(t) => AfterFinish(s, t)
    case AddMsg(a, msg) =>
      var x := s.actors[a];
      s.(actors := s.actors[a := x.(mailbox := x.mailbox + [msg], arrived := x.arrived + [msg])])
  }

  /** A tick enters `phase` and leaves its actor as `x`. */
  ghost function Moved<M>(s: System<M>, t: nat, phase: Phase<M>, x: Actor<M>): (s': System<M>)
    requires t in s.tasks
  {
    s.(actors := s.actors[s.tasks[t].actor := x], tasks := s.tasks[t := s.tasks[t].(phase := phase)])
  }

  /** The whole mailbox is copied and stays where it is. */
  ghost function AfterCopy<M>(s: System<M>, t: nat): (s': System<M>)
    requires InPhase(s, t)
  {
    var x := s.actors[s.tasks[t].actor];
    Moved(s, t, Copied(x.mailbox), x.(batches := x.batches + [x.mailbox], handled := x.handled + [[]], open := true))
  }

  /** The next message of the snapshot is handled, unless it is null. */
  ghost function AfterHandle<M>(s: System<M>, t: nat): (s': System<M>)
    requires InPhase(s, t) && s.actors[s.tasks[t].actor].handled != []
    requires s.tasks[t].phase.Handling? && s.tasks[t].phase.next < |s.tasks[t].phase.batch|
  {
    var phase := s.tasks[t].phase;
    var x := HandleOne(s.actors[s.tasks[t].actor], phase.batch[phase.next]);
    Moved(s, t, Handling(phase.batch, phase.next + 1), x)
  }

  /** The task sets the state to READY and is gone. */
  ghost function AfterFinish<M>(s: System<M>, t: nat): (s': System<M>)
    requires InPhase(s, t)
  {
    var mine := s.tasks[t].actor;
    s.(actors := s.actors[mine := s.actors[mine].(ready := true, open := false)], tasks := s.tasks - {t})
  }

  // ---- What every step keeps ----

  /** Consecutive dispatches are at least the interval apart, and the timestamp is the last one. */
  ghost predicate Spaced<M>(x: Actor<M>)
  {
    && (forall i :: 0 <= i < |x.dispatched| - 1 ==> x.dispatched[i + 1] - x.dispatched[i] >= x.interval)
    && (x.dispatched != [] ==> x.last == x.dispatched[|x.dispatched| - 1])
  }

  /** Snapshots are a chain of prefixes of what has arrived, and all but an open one have been
      handled in full, in order. */
  ghost predicate Delivered<M>(x: Actor<M>)
  {
    && x.mailbox == x.arrived && |x.handled| == |x.batches|
    && (forall k :: 0 <= k < |x.batches| ==> x.batches[k] <= x.arrived)
    && (forall k, l :: 0 <= k <= l < |x.batches| ==> x.batches[k] <= x.batches[l])
    && (forall k :: 0 <= k < |x.batches| - (if x.open then 1 else 0) ==> x.handled[k] == NonNull(x.batches[k]))
    && (x.open ==> x.batches != [])
  }

  ghost predicate NoTask<M>(s: System<M>, a: nat)
  {
    forall t :: t in s.tasks ==> s.tasks[t].actor != a
  }

  /** A tick and its actor agree on what the tick is doing. */
  ghost predicate TaskOk<M>(t: nat, phase: Phase<M>, x: Actor<M>)
  {
    && !x.ready
    && (x.lock == Some(t) <==> phase == Locked || phase.Copied?)
    && (x.open <==> phase.Copied? || phase.Handling?)
    && (x.open ==> x.batches != [] && |x.handled| == |x.batches| && phase.batch == x.batches[|x.batches| - 1])
    && (phase.Copied? ==> x.handled[|x.handled| - 1] == [])
    && (phase.Handling? ==>
          phase.next <= |phase.batch| && x.handled[|x.handled| - 1] == NonNull(phase.batch[..phase.next]))
  }

  ghost predicate TasksOk<M>(s: System<M>)
  {
    && (forall t :: t in s.tasks ==> t < s.nextTask && s.tasks[t].actor in s.actors)
    && (forall t, u :: t in s.tasks && u in s.tasks && s.tasks[t].actor == s.tasks[u].actor ==> t == u)
    && (forall t :: t in s.tasks ==> TaskOk(t, s.tasks[t].phase, s.actors[s.tasks[t].actor]))
  }

  ghost predicate HistoriesOk<M>(actors: map<nat, Actor<M>>)
  {
    forall a :: a in actors ==> Spaced(actors[a]) && Delivered(actors[a])
  }

  /** What an actor's flags say about the ticks there are. */
  ghost predicate OwnerOk<M>(s: System<M>, a: nat, x: Actor<M>)
  {
    && (x.ready ==> NoTask(s, a))
    && (NoTask(s, a) ==> !x.open && x.lock == None)
    && (x.lock.Some? ==> x.lock.value in s.tasks && s.tasks[x.lock.value].actor == a)
  }

  ghost predicate ActorsOk<M>(s: System<M>)
  {
    HistoriesOk(s.actors) && forall a :: a in s.actors ==> OwnerOk(s, a, s.actors[a])
  }

  ghost predicate LoopOk<M>(s: System<M>)
  {
    match s.loop
    case Top => true
    case Visiting(_, rest) => forall i :: 0 <= i < |rest| ==> rest[i] in s.actors
    case SawReady(_, a, rest) =>
      && a in s.actors && s.actors[a].ready
      && forall i :: 0 <= i < |rest| ==> rest[i] in s.actors
    case Due(now, a, rest) =>
      && a in s.actors && s.actors[a].ready && now - s.actors[a].last >= s.actors[a].interval
      && forall i :: 0 <= i < |rest| ==> rest[i] in s.actors
    case Claimed(now, a, rest) =>
      && a in s.actors && !s.actors[a].ready && NoTask(s, a) && now - s.actors[a].last >= s.actors[a].interval
      && forall i :: 0 <= i < |rest| ==> rest[i] in s.actors
    case Stamped(_, a, rest) =>
      && a in s.actors && !s.actors[a].ready && NoTask(s, a)
      && forall i :: 0 <= i < |rest| ==> rest[i] in s.actors
  }

  ghost predicate Inv<M>(s: System<M>)
  {
    TasksOk(s) && ActorsOk(s) && LoopOk(s)
  }

  lemma ScanKeepsInv<M>(s: System<M>, e: Event<M>)
    requires Inv(s) && Enabled(s, e)
    requires e.ReadClock? || e.EndScan? || e.SeeBusy? || e.SeeReady? || e.NotDue? || e.IsDue?
    ensures Inv(Apply(s, e))
  {
    LoopMovesAlone(s, Apply(s, e).loop);
  }

  /** The loop moving to a place that fits the actors keeps everything else. */
  lemma LoopMovesAlone<M>(s: System<M>, loop: Loop)
    requires TasksOk(s) && ActorsOk(s)
    ensures TasksOk(s.(loop := loop)) && ActorsOk(s.(loop := loop))
  {
    var s' := s.(loop := loop);
    forall a | a in s'.actors ensures OwnerOk(s', a, s'.actors[a]) { assert OwnerOk(s, a, s.actors[a]); }
  }

  /** Changing one actor's own fields, with its ticks still in agreement, keeps the rest. */
  lemma ActorChangeKeeps<M>(s: System<M>, a: nat, x: Actor<M>, loop: Loop)
    requires TasksOk(s) && ActorsOk(s) && a in s.actors
    requires Spaced(x) && Delivered(x) && (x.ready ==> s.actors[a].ready)
    requires x.lock == s.actors[a].lock && x.open == s.actors[a].open
    requires forall t :: t in s.tasks && s.tasks[t].actor == a ==> TaskOk(t, s.tasks[t].phase, x)
    ensures
      var s' := s.(actors := s.actors[a := x], loop := loop);
      TasksOk(s') && ActorsOk(s') && forall b :: NoTask(s', b) <==> NoTask(s, b)
  {
    var s' := s.(actors := s.actors[a := x], loop := loop);
    ActorChangeKeepsTasks(s, a, x, loop);
    ActorChangeKeepsHistories(s.actors, a, x);
    forall b | b in s'.actors ensures OwnerOk(s', b, s'.actors[b]) {
      assert OwnerOk(s, b, s.actors[b]);
      SameTasksSameOwner(s, s', b, s.actors[b], s'.actors[b]);
    }
  }

  lemma ActorChangeKeepsHistories<M>(actors: map<nat, Actor<M>>, a: nat, x: Actor<M>)
    requires HistoriesOk(actors) && a in actors && Spaced(x) && Delivered(x)
    ensures HistoriesOk(actors[a := x])
  {
  }

  lemma SameTasksSameOwner<M>(s: System<M>, s': System<M>, b: nat, x: Actor<M>, y: Actor<M>)
    requires s'.tasks == s.tasks && OwnerOk(s, b, x)
    requires (y.ready ==> x.ready) && y.lock == x.lock && y.open == x.open
    ensures OwnerOk(s', b, y)
  {
  }

  lemma ActorChangeKeepsTasks<M>(s: System<M>, a: nat, x: Actor<M>, loop: Loop)
    requires TasksOk(s) && a in s.actors
    requires forall t :: t in s.tasks && s.tasks[t].actor == a ==> TaskOk(t, s.tasks[t].phase, x)
    ensures TasksOk(s.(actors := s.actors[a := x], loop := loop))
  {
  }

  lemma ClaimKeepsInv<M>(s: System<M>)
    requires Inv(s) && Enabled(s, Claim)
    ensures Inv(Apply(s, Claim))
  {
    var Due(now, a, rest) := s.loop;
    assert NoTask(s, a);
    ActorChangeKeeps(s, a, s.actors[a].(ready := false), Claimed(now, a, rest));
  }

  lemma StampKeepsInv<M>(s: System<M>)
    requires Inv(s) && Enabled(s, Stamp)
    ensures Inv(Apply(s, Stamp))
  {
    var Claimed(now, a, rest) := s.loop;
    var x := s.actors[a];
    assert NoTask(s, a);
    ActorChangeKeeps(s, a, x.(last := now, dispatched := x.dispatched + [now]), Stamped(now, a, rest));
  }

  lemma PostKeepsInv<M>(s: System<M>)
    requires Inv(s) && Enabled(s, Post)
    ensures Inv(Apply(s, Post))
  {
    var Stamped(now, a, rest) := s.loop;
    PostedKeeps(s, a, Visiting(now, rest));
  }

  /** A claimed actor without a tick may be given one. */
  lemma PostedKeeps<M>(s: System<M>, a: nat, loop: Loop)
    requires TasksOk(s) && ActorsOk(s) && a in s.actors && !s.actors[a].ready && NoTask(s, a)
    ensures
      var s' := s.(loop := loop, tasks := s.tasks[s.nextTask := Task(a, Posted)], nextTask := s.nextTask + 1);
      TasksOk(s') && ActorsOk(s')
  {
    var s' := s.(loop := loop, tasks := s.tasks[s.nextTask := Task(a, Posted)], nextTask := s.nextTask + 1);
    assert OwnerOk(s, a, s.actors[a]);
    assert TaskOk(s.nextTask, Posted, s.actors[a]);
    assert TasksOk(s');
    forall b | b in s'.actors
      ensures OwnerOk(s', b, s'.actors[b])
    {
      assert OwnerOk(s, b, s.actors[b]);
      assert s'.tasks[s.nextTask].actor == a;
      if b != a && NoTask(s', b) {
        forall t | t in s.tasks ensures s.tasks[t].actor != b { assert t in s'.tasks; }
      }
    }
  }

  /** A tick may move on if it and its actor still agree and the actor's own histories stay in order. */
  ghost predicate MayMove<M>(s: System<M>, t: nat, phase: Phase<M>, x: Actor<M>)
  {
    && InPhase(s, t)
    && TaskOk(t, phase, x) && Spaced(x) && Delivered(x)
    && (x.lock == None || x.lock == Some(t))
    && x.last == s.actors[s.tasks[t].actor].last && x.interval == s.actors[s.tasks[t].actor].interval
  }

  lemma MoveKeepsTasks<M>(s: System<M>, t: nat, phase: Phase<M>, x: Actor<M>)
    requires TasksOk(s) && MayMove(s, t, phase, x)
    ensures TasksOk(Moved(s, t, phase, x))
  {
  }

  lemma MoveKeepsNoTask<M>(s: System<M>, t: nat, phase: Phase<M>, x: Actor<M>, a: nat)
    requires t in s.tasks
    ensures NoTask(Moved(s, t, phase, x), a) <==> NoTask(s, a)
  {
    var s' := Moved(s, t, phase, x);
    if NoTask(s', a) {
      forall u | u in s.tasks ensures s.tasks[u].actor != a { assert s'.tasks[u].actor == s.tasks[u].actor; }
    }
  }

  lemma MoveKeepsActors<M>(s: System<M>, t: nat, phase: Phase<M>, x: Actor<M>)
    requires TasksOk(s) && ActorsOk(s) && MayMove(s, t, phase, x)
    ensures ActorsOk(Moved(s, t, phase, x))
  {
    var s' := Moved(s, t, phase, x);
    assert HistoriesOk(s'.actors);
    forall a | a in s'.actors ensures OwnerOk(s', a, s'.actors[a]) {
      assert OwnerOk(s, a, s.actors[a]);
      MoveKeepsNoTask(s, t, phase, x, a);
    }
  }

  lemma MoveKeepsLoop<M>(s: System<M>, t: nat, phase: Phase<M>, x: Actor<M>)
    requires TasksOk(s) && ActorsOk(s) && LoopOk(s) && MayMove(s, t, phase, x)
    ensures LoopOk(Moved(s, t, phase, x))
  {
    var mine := s.tasks[t].actor;
    assert OwnerOk(s, mine, s.actors[mine]);
    assert !NoTask(s, mine);
    if s.loop.Claimed? || s.loop.Stamped? { MoveKeepsNoTask(s, t, phase, x, s.loop.a); }
  }

  lemma MoveKeepsInv<M>(s: System<M>, t: nat, phase: Phase<M>, x: Actor<M>)
    requires Inv(s) && MayMove(s, t, phase, x)
    ensures Inv(Moved(s, t, phase, x))
  {
    MoveKeepsTasks(s, t, phase, x);
    MoveKeepsActors(s, t, phase, x);
    MoveKeepsLoop(s, t, phase, x);
  }

  /** A task that is gone leaves its actor with none and the others with theirs. */
  lemma FinishedTasks<M>(s: System<M>, t: nat, a: nat)
    requires TasksOk(s) && InPhase(s, t)
    ensures NoTask(AfterFinish(s, t), a) <==> NoTask(s, a) || a == s.tasks[t].actor
  {
    var s' := AfterFinish(s, t);
    if NoTask(s', a) && a != s.tasks[t].actor {
      forall u | u in s.tasks ensures s.tasks[u].actor != a { assert u == t || u in s'.tasks; }
    }
  }

  lemma FinishedKeeps<M>(s: System<M>, t: nat)
    requires Inv(s) && InPhase(s, t)
    requires s.tasks[t].phase.Handling? && s.tasks[t].phase.next == |s.tasks[t].phase.batch|
    ensures Inv(AfterFinish(s, t))
  {
    var mine, phase := s.tasks[t].actor, s.tasks[t].phase;
    var x, s' := s.actors[mine], AfterFinish(s, t);
    assert TaskOk(t, phase, x);
    FinishedBatch(x, t, phase);
    ActorChangeKeepsHistories(s.actors, mine, x.(ready := true, open := false));
    assert OwnerOk(s, mine, x);
    forall a | a in s'.actors
      ensures OwnerOk(s', a, s'.actors[a])
    {
      assert OwnerOk(s, a, s.actors[a]);
      FinishedTasks(s, t, a);
    }
    assert TasksOk(s');
    assert LoopOk(s');
  }

  lemma FinishedBatch<M>(x: Actor<M>, t: nat, phase: Phase<M>)
    requires TaskOk(t, phase, x) && Spaced(x) && Delivered(x)
    requires phase.Handling? && phase.next == |phase.batch|
    ensures Spaced(x.(ready := true, open := false)) && Delivered(x.(ready := true, open := false))
  {
    assert phase.batch[..phase.next] == phase.batch;
  }

  lemma ArrivalKeepsDelivered<M>(x: Actor<M>, msg: Option<M>)
    requires Delivered(x)
    ensures Delivered(x.(mailbox := x.mailbox + [msg], arrived := x.arrived + [msg]))
  {
  }

  lemma AddMsgKeepsInv<M>(s: System<M>, a: nat, msg: Option<M>)
    requires Inv(s) && a in s.actors
    ensures
      var x := s.actors[a];
      Inv(s.(actors := s.actors[a := x.(mailbox := x.mailbox + [msg], arrived := x.arrived + [msg])]))
  {
    var x := s.actors[a];
    ArrivalKeepsDelivered(x, msg);
    ActorChangeKeeps(s, a, x.(mailbox := x.mailbox + [msg], arrived := x.arrived + [msg]), s.loop);
  }

  lemma NonNullSnoc<M>(batch: seq<Option<M>>, next: nat)
    requires next < |batch|
    ensures NonNull(batch[..next + 1]) ==
            NonNull(batch[..next]) + match batch[next] case None => [] case Some(m) => [m]
  {
    assert batch[..next + 1][..next] == batch[..next];
  }

  lemma CopyKeeps<M>(x: Actor<M>, t: nat)
    requires TaskOk(t, Locked, x) && Spaced(x) && Delivered(x)
    ensures
      var y := x.(batches := x.batches + [x.mailbox], handled := x.handled + [[]], open := true);
      TaskOk(t, Copied(x.mailbox), y) && Spaced(y) && Delivered(y)
  {
  }

  lemma HandleKeeps<M>(x: Actor<M>, t: nat, batch: seq<Option<M>>, next: nat)
    requires TaskOk(t, Handling(batch, next), x) && Spaced(x) && Delivered(x) && next < |batch|
    ensures
      var y := HandleOne(x, batch[next]);
      TaskOk(t, Handling(batch, next + 1), y) && Spaced(y) && Delivered(y)
  {
    NonNullSnoc(batch, next);
  }

  lemma StartKeepsInv<M>(s: System<M>, t: nat)
    requires Inv(s) && InPhase(s, t) && s.tasks[t].phase == Posted
    ensures Inv(Moved(s, t, Started, s.actors[s.tasks[t].actor].(ready := false)))
  {
    var x := s.actors[s.tasks[t].actor];
    assert TaskOk(t, Posted, x) && OwnerOk(s, s.tasks[t].actor, x);
    MoveKeepsInv(s, t, Started, x.(ready := false));
  }

  lemma LockKeepsInv<M>(s: System<M>, t: nat)
    requires Inv(s) && InPhase(s, t) && s.tasks[t].phase == Started
    ensures Inv(Moved(s, t, Locked, s.actors[s.tasks[t].actor].(lock := Some(t))))
  {
    var x := s.actors[s.tasks[t].actor];
    assert TaskOk(t, Started, x);
    MoveKeepsInv(s, t, Locked, x.(lock := Some(t)));
  }

  lemma CopyKeepsInv<M>(s: System<M>, t: nat)
    requires Inv(s) && InPhase(s, t) && s.tasks[t].phase == Locked
    ensures Inv(AfterCopy(s, t))
  {
    var x := s.actors[s.tasks[t].actor];
    assert TaskOk(t, Locked, x);
    CopyKeeps(x, t);
    MoveKeepsInv(s, t, Copied(x.mailbox),
                 x.(batches := x.batches + [x.mailbox], handled := x.handled + [[]], open := true));
  }

  lemma UnlockKeepsInv<M>(s: System<M>, t: nat)
    requires Inv(s) && InPhase(s, t) && s.tasks[t].phase.Copied?
    ensures Inv(Moved(s, t, Handling(s.tasks[t].phase.batch, 0), s.actors[s.tasks[t].actor].(lock := None)))
  {
    var x, phase := s.actors[s.tasks[t].actor], s.tasks[t].phase;
    assert TaskOk(t, phase, x);
    MoveKeepsInv(s, t, Handling(phase.batch, 0), x.(lock := None));
  }

  lemma HandleKeepsInv<M>(s: System<M>, t: nat)
    requires Inv(s) && InPhase(s, t)
    requires s.tasks[t].phase.Handling? && s.tasks[t].phase.next < |s.tasks[t].phase.batch|
    ensures s.actors[s.tasks[t].actor].handled != []
    ensures Inv(AfterHandle(s, t))
  {
    var x, phase := s.actors[s.tasks[t].actor], s.tasks[t].phase;
    assert TaskOk(t, phase, x) && OwnerOk(s, s.tasks[t].actor, x);
    HandleKeeps(x, t, phase.batch, phase.next);
    MoveKeepsInv(s, t, Handling(phase.batch, phase.next + 1), HandleOne(x, phase.batch[phase.next]));
  }

  predicate OfTick<M>(e: Event<M>)
  {
    e.Start? || e.Lock? || e.Copy? || e.Unlock? || e.Handle? || e.Finish?
  }

  lemma TickStepKeepsInv<M>(s: System<M>, e: Event<M>)
    requires Inv(s) && Enabled(s, e) && OfTick(e)
    ensures Inv(Apply(s, e))
  {
    if e.Copy? {
      CopyKeepsInv(s, e.t);
    } else if e.Handle? {
      HandleKeepsInv(s, e.t);
    } else if e.Finish? {
      FinishedKeeps(s, e.t);
    } else if e.Start? {
      StartKeepsInv(s, e.t);
    } else if e.Lock? {
      LockKeepsInv(s, e.t);
    } else {
      UnlockKeepsInv(s, e.t);
    }
  }

  lemma StepKeepsInv<M>(s: System<M>, e: Event<M>)
    requires Inv(s) && Enabled(s, e)
    ensures Inv(Apply(s, e))
  {
    if OfTick(e) {
      TickStepKeepsInv(s, e);
    } else {
      match e
      case Claim => ClaimKeepsInv(s);
      case Stamp => StampKeepsInv(s);
      case Post => PostKeepsInv(s);
      case AddMsg(a, msg) => AddMsgKeepsInv(s, a, msg);
      case _ => ScanKeepsInv(s, e);
    }
  }

  // ---- Whole runs ----

  /** Before `run`: every actor ready, any timestamp, any messages already in the mailbox. */
  ghost predicate Init<M>(s: System<M>)
  {
    && s.loop == Top && s.tasks == map[]
    && forall a :: a in s.actors ==>
         var x := s.actors[a];
         x.ready && !x.open && x.lock == None && x.mailbox == x.arrived
         && x.dispatched == [] && x.batches == [] && x.handled == []
  }

  ghost predicate Legal<M>(s: System<M>, events: seq<Event<M>>)
    decreases |events|
  {
    events == [] || (Enabled(s, events[0]) && Legal(Apply(s, events[0]), events[1..]))
  }

  ghost function After<M>(s: System<M>, events: seq<Event<M>>): (s': System<M>)
    requires Legal(s, events)
    decreases |events|
  {
    if events == [] then s else After(Apply(s, events[0]), events[1..])
  }

  lemma InitIsOk<M>(s: System<M>)
    requires Init(s)
    ensures Inv(s)
  {
    forall a | a in s.actors ensures OwnerOk(s, a, s.actors[a]) && Spaced(s.actors[a]) && Delivered(s.actors[a]) {}
  }

  lemma {:induction false} RunKeepsInv<M>(s: System<M>, events: seq<Event<M>>)
    requires Inv(s) && Legal(s, events)
    ensures Inv(After(s, events))
    decreases |events|
  {
    if events != [] {
      StepKeepsInv(s, events[0]);
      RunKeepsInv(Apply(s, events[0]), events[1..]);
    }
  }

  /** In every interleaving an actor has at most one tick posted or running, and is READY only when
      it has none. */
  lemma OneTickAtATime<M>(s: System<M>, events: seq<Event<M>>)
    requires Init(s) && Legal(s, events)
    ensures
      var s' := After(s, events);
      && (forall t, u :: t in s'.tasks && u in s'.tasks && s'.tasks[t].actor == s'.tasks[u].actor ==> t == u)
      && (forall t :: t in s'.tasks ==> s'.tasks[t].actor in s'.actors && !s'.actors[s'.tasks[t].actor].ready)
  {
    InitIsOk(s);
    RunKeepsInv(s, events);
    var s' := After(s, events);
    forall t | t in s'.tasks
      ensures s'.tasks[t].actor in s'.actors && !s'.actors[s'.tasks[t].actor].ready
    {
      assert TaskOk(t, s'.tasks[t].phase, s'.actors[s'.tasks[t].actor]);
    }
  }

  lemma {:induction false} SpacingAdds<M>(x: Actor<M>, i: nat, j: nat)
    requires Spaced(x) && i <= j < |x.dispatched|
    ensures x.dispatched[j] - x.dispatched[i] >= (j - i) * x.interval
    decreases j - i
  {
    if i < j {
      SpacingAdds(x, i, j - 1);
      assert (j - i) * x.interval == (j - 1 - i) * x.interval + x.interval;
    }
  }

  /** Whatever the clock does and whatever the first timestamp held, the i-th and j-th dispatches of
      an actor are at least j - i intervals apart. */
  lemma DispatchesAreSpaced<M>(s: System<M>, events: seq<Event<M>>, a: nat, i: nat, j: nat)
    requires Init(s) && Legal(s, events)
    requires a in After(s, events).actors && i <= j < |After(s, events).actors[a].dispatched|
    ensures
      var x := After(s, events).actors[a];
      x.dispatched[j] - x.dispatched[i] >= (j - i) * x.interval
  {
    InitIsOk(s);
    RunKeepsInv(s, events);
    SpacingAdds(After(s, events).actors[a], i, j);
  }

  /** The snapshots of an actor form a chain of prefixes of its arrival log, and every one but the
      one in progress has had exactly its non-null messages handled, in arrival order. */
  lemma BatchesArePrefixes<M>(s: System<M>, events: seq<Event<M>>, a: nat, k: nat, l: nat)
    requires Init(s) && Legal(s, events)
    requires a in After(s, events).actors && k <= l < |After(s, events).actors[a].batches|
    ensures
      var x := After(s, events).actors[a];
      && x.batches[k] <= x.batches[l] <= x.arrived
      && |x.handled| == |x.batches|
      && (k < l || x.ready ==> x.handled[k] == NonNull(x.batches[k]))
  {
    InitIsOk(s);
    RunKeepsInv(s, events);
    var s' := After(s, events);
    assert Delivered(s'.actors[a]);
    assert OwnerOk(s', a, s'.actors[a]);
  }

  lemma HandlerHoldsNoLock<M>(s: System<M>, t: nat)
    requires Inv(s) && t in s.tasks && s.tasks[t].phase.Handling?
    ensures InPhase(s, t) && s.actors[s.tasks[t].actor].lock == None
    ensures |s.tasks[t].phase.batch| <= |s.actors[s.tasks[t].actor].arrived|
  {
    var a := s.tasks[t].actor;
    assert TaskOk(t, s.tasks[t].phase, s.actors[a]);
    assert OwnerOk(s, a, s.actors[a]);
    assert Delivered(s.actors[a]);
  }

  /** A handler that adds to its own actor is never blocked by its own tick: the mailbox mutex is
      free while handlers run, and the message lands beyond the snapshot being handled. */
  lemma SelfSendNeverBlocks<M>(s: System<M>, events: seq<Event<M>>, t: nat, msg: Option<M>)
    requires Init(s) && Legal(s, events)
    requires t in After(s, events).tasks && After(s, events).tasks[t].phase.Handling?
    ensures
      var s' := After(s, events);
      && Enabled(s', AddMsg(s'.tasks[t].actor, msg))
      && |s'.tasks[t].phase.batch| <= |s'.actors[s'.tasks[t].actor].arrived|
  {
    InitIsOk(s);
    RunKeepsInv(s, events);
    HandlerHoldsNoLock(After(s, events), t);
  }

  /** An arrival log and snapshots have grown, a new snapshot being the whole log. */
  ghost predicate Extends<M>(x: Actor<M>, y: Actor<M>)
  {
    x.arrived <= y.arrived && (y.batches == x.batches || y.batches == x.batches + [x.arrived])
  }

  lemma TickStepExtends<M>(s: System<M>, e: Event<M>, a: nat)
    requires ActorsOk(s) && Enabled(s, e) && OfTick(e) && a in s.actors
    ensures a in Apply(s, e).actors && Extends(s.actors[a], Apply(s, e).actors[a])
  {
    assert Delivered(s.actors[a]);
  }

  /** One step extends an actor's arrival log and snapshots. */
  lemma StepExtends<M>(s: System<M>, e: Event<M>, a: nat)
    requires ActorsOk(s) && Enabled(s, e) && a in s.actors
    ensures a in Apply(s, e).actors && Extends(s.actors[a], Apply(s, e).actors[a])
  {
    if OfTick(e) { TickStepExtends(s, e, a); }
  }

  /** From any moment on, every later snapshot of an actor holds all that had arrived by then: a
      message is handled once per later snapshot, the first time in the next one. */
  lemma {:induction false} LaterBatchesHoldAll<M>(s: System<M>, events: seq<Event<M>>, a: nat)
    requires Inv(s) && Legal(s, events) && a in s.actors
    ensures a in After(s, events).actors
    ensures
      var x, y := s.actors[a], After(s, events).actors[a];
      && x.arrived <= y.arrived && x.batches <= y.batches
      && forall k :: |x.batches| <= k < |y.batches| ==> x.arrived <= y.batches[k]
    decreases |events|
  {
    if events != [] {
      var s1 := Apply(s, events[0]);
      StepExtends(s, events[0], a);
      StepKeepsInv(s, events[0]);
      LaterBatchesHoldAll(s1, events[1..], a);
    }
  }

  /** The same from any moment of any run. */
  lemma LaterSnapshotsOfRun<M>(s: System<M>, before: seq<Event<M>>, later: seq<Event<M>>, a: nat)
    requires Init(s) && Legal(s, before) && Legal(After(s, before), later) && a in After(s, before).actors
    ensures a in After(After(s, before), later).actors
    ensures
      var x, y := After(s, before).actors[a], After(After(s, before), later).actors[a];
      && x.arrived <= y.arrived && x.batches <= y.batches
      && forall k :: |x.batches| <= k < |y.batches| ==> x.arrived <= y.batches[k]
  {
    InitIsOk(s);
    RunKeepsInv(s, before);
    LaterBatchesHoldAll(After(s, before), later, a);
  }

  /** The actor object, with the methods whose single accesses the steps above interleave. */
  class ActorBase<M> {
    var ready: bool
    var lastTick: int
    const interval: int
    var mailbox: seq<Option<M>>

    /** This object is the actor `a` of the system. */
    ghost predicate Is(s: System<M>, a: nat)
      reads this
    {
      && a in s.actors
      && s.actors[a].ready == ready && s.actors[a].last == lastTick
      && s.actors[a].interval == interval && s.actors[a].mailbox == mailbox
    }

    /** The constructor leaves the timestamp uninitialised. */
    constructor (interval: int, anyTimestamp: int)
      ensures ready && mailbox == [] && this.interval == interval && lastTick == anyTimestamp
    {
      this.interval := interval;
      ready, mailbox, lastTick := true, [], anyTimestamp;
    }

    predicate ReadyTick(ts: int)
      reads this
      ensures ReadyTick(ts) <==> ready && ts >= lastTick + interval
    {
      if !ready then false
      else
        var elapsed := ts - lastTick;
        !(elapsed < interval)
    }

    /** With nobody in between, `ready_tick` says yes exactly when the loop that visits this actor gets
        through the steps SeeReady and IsDue, and no exactly when it moves on to the next actor. */
    lemma ReadyTickDecidesTheVisit(s: System<M>, a: nat)
      requires Is(s, a) && Visits(s) && s.loop.rest[0] == a
      ensures ReadyTick(s.loop.now) <==> Legal(s, [SeeReady, IsDue])
      ensures !ReadyTick(s.loop.now) <==> Legal(s, [SeeBusy]) || Legal(s, [SeeReady, NotDue])
    {
      LegalOne(s, SeeBusy);
      LegalTwo(s, SeeReady, IsDue);
      LegalTwo(s, SeeReady, NotDue);
    }

    /** One call is one step AddMsg of the system this actor belongs to. */
    method AddMsg(msg: Option<M>, ghost s: System<M>, ghost a: nat)
      requires Is(s, a) && Enabled(s, Event<M>.AddMsg(a, msg))
      modifies this`mailbox
      ensures mailbox == old(mailbox) + [msg]
      ensures Is(Apply(s, Event<M>.AddMsg(a, msg)), a)
    {
      mailbox := mailbox + [msg];
    }

    /** Copies the mailbox and hands out its non-null messages in order; the mailbox keeps them.
        `handled` stands for the calls of handle_msg. */
    method HandleAllMsg() returns (handled: seq<M>)
      ensures handled == NonNull(mailbox)
    {
      var msgs := mailbox;
      handled := [];
      for i := 0 to |msgs|
        invariant handled == NonNull(msgs[..i])
      {
        NonNullSnoc(msgs, i);
        match msgs[i]
        case None =>
        case Some(m) => handled := handled + [m];
      }
      assert msgs[..|msgs|] == msgs;
    }

    method Tick() returns (handled: seq<M>)
      modifies this`ready
      ensures !ready && handled == NonNull(mailbox)
    {
      ready := false;
      handled := HandleAllMsg();
    }
  }

  lemma LegalOne<M>(s: System<M>, e: Event<M>)
    ensures Legal(s, [e]) <==> Enabled(s, e)
  {
    var only: seq<Event<M>> := [e];
    assert only[0] == e && only[1..] == [];
    if Enabled(s, e) { assert Legal(Apply(s, e), only[1..]); }
  }

  lemma LegalTwo<M>(s: System<M>, e: Event<M>, f: Event<M>)
    ensures Legal(s, [e, f]) <==> Enabled(s, e) && Enabled(Apply(s, e), f)
  {
    var both: seq<Event<M>> := [e, f];
    assert both[0] == e && both[1..] == [f];
    if Enabled(s, e) { LegalOne(Apply(s, e), f); }
  }
}
