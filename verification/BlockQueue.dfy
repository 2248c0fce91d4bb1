/** The blocking queue as a monitor: one mutex, one condition variable, any number of producers
    and consumers, spurious wake-ups and consumers that barge in. */
module BlockQueue {
  import opened Common

  /** Who holds the mutex and how far through its critical section it is. */
  datatype Holder<T> =
    | Free
    | Pushing(e: T)          // put: before push_back
    | Notifying              // put: between push_back and notify_one
    | PutDone                // put: before the lock guard releases
    | Testing(t: nat)        // take: about to test the queue, entering or back from wait
    | Popping(t: nat)        // take: found the queue non-empty
    | TakeDone(t: nat)       // take: before the lock releases

  /** `asleep` is the condition variable's wait set; `woken` have left it and want the mutex back.
      `puts` and `takes` record every element pushed and popped, in order. */
  datatype Monitor<T> = Monitor(
    holder: Holder<T>, queue: seq<T>, asleep: set<nat>, woken: set<nat>, puts: seq<T>, takes: seq<T>)

  datatype Event<T> =
    | LockForPut(e: T)
    | Push
    | NotifyNobody
    | Notify(t: nat)
    | LockForTake(t: nat)    // a new consumer, possibly barging past woken ones
    | Relock(t: nat)         // a woken consumer gets the mutex back inside wait
    | FindNonEmpty
    | Sleep                  // wait: joins the wait set and releases the mutex in one step
    | Pop
    | Unlock
    | SpuriousWake(t: nat)

  function Init<T>(): (m: Monitor<T>)
  {
    Monitor(Free, [], {}, {}, [], [])
  }

  ghost predicate Enabled<T>(m: Monitor<T>, e: Event<T>)
  {
    match e
    case LockForPut(_) => m.holder == Free
    case Push => m.holder.Pushing?
    case NotifyNobody => m.holder == Notifying && m.asleep == {}
    case Notify(t) => m.holder == Notifying && t in m.asleep
    case LockForTake(t) => m.holder == Free && t !in m.asleep && t !in m.woken
    case Relock(t) => m.holder == Free && t in m.woken
    case FindNonEmpty => m.holder.Testing? && m.queue != []
    case Sleep => m.holder.Testing? && m.queue == []
    case Pop => m.holder.Popping? && m.queue != []
    case Unlock => m.holder == PutDone || m.holder.TakeDone?
    case SpuriousWake(t) => t in m.asleep
  }

  ghost function Apply<T>(m: Monitor<T>, e: Event<T>): (m': Monitor<T>)
    requires Enabled(m, e)
  {
    match e
    case LockForPut(x) => m.(holder := Pushing(x))
    case Push => m.(holder := Notifying, queue := m.queue + [m.holder.e], puts := m.puts + [m.holder.e])
    case NotifyNobody => m.(holder := PutDone)
    case Notify(t) => m.(holder := PutDone, asleep := m.asleep - {t}, woken := m.woken + {t})
    case LockForTake(t) => m.(holder := Testing(t))
    case Relock(t) => m.(holder := Testing(t), woken := m.woken - {t})
    case FindNonEmpty => m.(holder := Popping(m.holder.t))
    case Sleep => m.(holder := Free, asleep := m.asleep + {m.holder.t})
    case Pop => m.(holder := TakeDone(m.holder.t), queue := m.queue[1..], takes := m.takes + [m.queue[0]])
    case Unlock => m.(holder := Free)
    case SpuriousWake(t) => m.(asleep := m.asleep - {t}, woken := m.woken + {t})
  }

  /** A critical section in progress may be about to wake a sleeper or to take an element itself. */
  function Credit<T>(h: Holder<T>): (n: nat)
  {
    if h == Notifying || h.Testing? || h.Popping? then 1 else 0
  }

  /** No consumer is in two places. */
  ghost predicate Apart<T>(m: Monitor<T>)
  {
    && m.asleep !! m.woken
    && (m.holder.Testing? || m.holder.Popping? || m.holder.TakeDone? ==>
          m.holder.t !in m.asleep && m.holder.t !in m.woken)
  }

  /** What every step keeps. */
  ghost predicate Inv<T>(m: Monitor<T>)
  {
    && m.puts == m.takes + m.queue
    && Apart(m)
    && (m.holder.Popping? ==> m.queue != [])
    && (m.asleep != {} ==> |m.queue| <= |m.woken| + Credit(m.holder))
  }

  lemma PutStepKeepsInv<T>(m: Monitor<T>, e: Event<T>)
    requires Inv(m) && Enabled(m, e)
    requires e.LockForPut? || e.Push? || e.NotifyNobody? || e.Notify? || e.Unlock? || e.SpuriousWake?
    ensures Inv(Apply(m, e))
  {
    if e.Notify? || e.SpuriousWake? { assert |m.woken + {e.t}| == |m.woken| + 1; }
  }

  lemma TakeStepKeepsInv<T>(m: Monitor<T>, e: Event<T>)
    requires Inv(m) && Enabled(m, e)
    requires e.LockForTake? || e.Relock? || e.FindNonEmpty? || e.Sleep? || e.Pop?
    ensures Inv(Apply(m, e))
  {
    if e.Relock? { assert |m.woken - {e.t}| == |m.woken| - 1; }
    if e.Pop? { assert m.takes + m.queue == (m.takes + [m.queue[0]]) + m.queue[1..]; }
  }

  lemma StepKeepsInv<T>(m: Monitor<T>, e: Event<T>)
    requires Inv(m) && Enabled(m, e)
    ensures Inv(Apply(m, e))
  {
    if e.LockForTake? || e.Relock? || e.FindNonEmpty? || e.Sleep? || e.Pop? {
      TakeStepKeepsInv(m, e);
    } else {
      PutStepKeepsInv(m, e);
    }
  }

  /** An interleaving: each event is enabled when its turn comes. */
  ghost predicate Legal<T>(m: Monitor<T>, events: seq<Event<T>>)
    decreases |events|
  {
    events == [] || (Enabled(m, events[0]) && Legal(Apply(m, events[0]), events[1..]))
  }

  ghost function After<T>(m: Monitor<T>, events: seq<Event<T>>): (m': Monitor<T>)
    requires Legal(m, events)
    decreases |events|
  {
    if events == [] then m else After(Apply(m, events[0]), events[1..])
  }

  lemma {:induction false} RunKeepsInv<T>(m: Monitor<T>, events: seq<Event<T>>)
    requires Inv(m) && Legal(m, events)
    ensures Inv(After(m, events))
    decreases |events|
  {
    if events != [] {
      StepKeepsInv(m, events[0]);
      RunKeepsInv(Apply(m, events[0]), events[1..]);
    }
  }

  /** What a bystander who only watches the calls writes down: the element of each push, who called
      take, and who popped. It knows nothing of the queue or the wait set. */
  datatype Ledger<T> = Ledger(pushing: Option<T>, puts: seq<T>, calls: seq<nat>, taker: Option<nat>, pops: seq<nat>)

  function Note<T>(l: Ledger<T>, e: Event<T>): (r: Ledger<T>)
  {
    match e
    case LockForPut(x) => l.(pushing := Some(x))
    case Push => if l.pushing == None then l else l.(puts := l.puts + [l.pushing.value])
    case LockForTake(t) => l.(calls := l.calls + [t], taker := Some(t))
    case Relock(t) => l.(taker := Some(t))
    case Pop => if l.taker == None then l else l.(pops := l.pops + [l.taker.value])
    case _ => l
  }

  function NoteAll<T>(l: Ledger<T>, events: seq<Event<T>>): (r: Ledger<T>)
    decreases |events|
  {
    if events == [] then l else NoteAll(Note(l, events[0]), events[1..])
  }

  function LedgerOf<T>(events: seq<Event<T>>): (l: Ledger<T>)
  {
    NoteAll(Ledger(None, [], [], None, []), events)
  }

  /** The consumers that have called take and not popped yet. */
  ghost function Inside<T>(m: Monitor<T>): (ts: set<nat>)
  {
    m.asleep + m.woken + (if m.holder.Testing? || m.holder.Popping? then {m.holder.t} else {})
  }

  /** The monitor's histories are what the bystander wrote down. */
  ghost predicate Recorded<T>(m: Monitor<T>, l: Ledger<T>)
  {
    && m.puts == l.puts && |m.takes| == |l.pops|
    && (m.holder.Pushing? ==> l.pushing == Some(m.holder.e))
    && (m.holder.Testing? || m.holder.Popping? ==> l.taker == Some(m.holder.t))
  }

  /** Every call of take has popped or is inside, once. */
  ghost predicate AllCallsKnown<T>(m: Monitor<T>, l: Ledger<T>)
  {
    multiset(l.calls) == multiset(l.pops) + multiset(Inside(m))
  }

  lemma StepIsRecorded<T>(m: Monitor<T>, l: Ledger<T>, e: Event<T>)
    requires Enabled(m, e) && Recorded(m, l)
    ensures Recorded(Apply(m, e), Note(l, e))
  {
  }

  lemma InsideStays<T>(m: Monitor<T>, e: Event<T>)
    requires Enabled(m, e) && !e.LockForTake? && !e.Pop?
    ensures Inside(Apply(m, e)) == Inside(m)
  {
  }

  lemma OneMore<T>(ts: set<T>, t: T)
    requires t !in ts
    ensures multiset(ts + {t}) == multiset(ts) + multiset{t}
  {
  }

  lemma TakeJoins<T>(m: Monitor<T>, l: Ledger<T>, t: nat)
    requires Enabled(m, LockForTake(t)) && AllCallsKnown(m, l)
    ensures AllCallsKnown(Apply(m, LockForTake(t)), Note(l, Event<T>.LockForTake(t)))
  {
    OneMore(Inside(m), t);
    assert Inside(Apply(m, LockForTake(t))) == Inside(m) + {t};
  }

  lemma PopLeaves<T>(m: Monitor<T>, l: Ledger<T>)
    requires Enabled(m, Pop) && Apart(m) && Recorded(m, l) && AllCallsKnown(m, l)
    ensures AllCallsKnown(Apply(m, Pop), Note(l, Pop))
  {
    var m' := Apply(m, Pop);
    assert Inside(m) == Inside(m') + {m.holder.t};
    OneMore(Inside(m'), m.holder.t);
  }

  lemma StepKeepsCalls<T>(m: Monitor<T>, l: Ledger<T>, e: Event<T>)
    requires Enabled(m, e) && Apart(m) && Recorded(m, l) && AllCallsKnown(m, l)
    ensures AllCallsKnown(Apply(m, e), Note(l, e))
  {
    if e.LockForTake? {
      TakeJoins(m, l, e.t);
    } else if e.Pop? {
      PopLeaves(m, l);
    } else {
      InsideStays(m, e);
    }
  }

  lemma {:induction false} RunAgrees<T>(m: Monitor<T>, l: Ledger<T>, events: seq<Event<T>>)
    requires Inv(m) && Recorded(m, l) && AllCallsKnown(m, l) && Legal(m, events)
    ensures Recorded(After(m, events), NoteAll(l, events)) && AllCallsKnown(After(m, events), NoteAll(l, events))
    decreases |events|
  {
    if events != [] {
      var e := events[0];
      StepIsRecorded(m, l, e);
      StepKeepsCalls(m, l, e);
      StepKeepsInv(m, e);
      RunAgrees(Apply(m, e), Note(l, e), events[1..]);
    }
  }

  /** In every interleaving the k-th pop takes the k-th element pushed, by the calls alone, and the
      queue holds the rest: none lost, none doubled, none overtaken. */
  lemma FirstInFirstOut<T>(events: seq<Event<T>>)
    requires Legal(Init(), events)
    ensures
      var m, l := After(Init(), events), LedgerOf(events);
      && |l.pops| <= |l.puts|
      && m.takes == l.puts[..|l.pops|] && m.queue == l.puts[|l.pops|..]
  {
    RunKeepsInv(Init(), events);
    RunAgrees(Init(), Ledger(None, [], [], None, []), events);
  }

  /** Every call of take is accounted for: it has popped one element, or its consumer is asleep, or
      woken and waiting for the mutex, or holding it, and only one of these. */
  lemma EveryTakeIsAccountedFor<T>(events: seq<Event<T>>)
    requires Legal(Init(), events)
    ensures
      var m, l := After(Init(), events), LedgerOf(events);
      && multiset(l.calls) == multiset(l.pops) + multiset(Inside(m))
      && m.asleep !! m.woken
      && (m.holder.Testing? || m.holder.Popping? ==> m.holder.t !in m.asleep && m.holder.t !in m.woken)
  {
    RunKeepsInv(Init(), events);
    RunAgrees(Init(), Ledger(None, [], [], None, []), events);
  }

  // ---- Whole critical sections ----

  /** A run is its first step and then the rest. */
  lemma StepFirst<T>(m: Monitor<T>, e: Event<T>, rest: seq<Event<T>>)
    requires Enabled(m, e) && Legal(Apply(m, e), rest)
    ensures Legal(m, [e] + rest) && After(m, [e] + rest) == After(Apply(m, e), rest)
  {
    var events := [e] + rest;
    assert events[0] == e && events[1..] == rest;
  }

  /** `put` from lock to unlock appends one element, wakes one sleeper if there is one, and does
      nothing else. */
  lemma PutIsAtomic<T>(m: Monitor<T>, x: T, wake: Option<nat>)
    requires m.holder == Free && (if wake == None then m.asleep == {} else wake.value in m.asleep)
    ensures
      var notify := if wake == None then NotifyNobody else Notify(wake.value);
      var events := [LockForPut(x)] + ([Push] + ([notify] + ([Unlock] + [])));
      && Legal(m, events)
      && After(m, events) ==
         var served := m.(queue := m.queue + [x], puts := m.puts + [x]);
         if wake == None then served
         else served.(asleep := m.asleep - {wake.value}, woken := m.woken + {wake.value})
  {
    var notify: Event<T> := if wake == None then NotifyNobody else Notify(wake.value);
    var m1 := Apply(m, LockForPut(x));
    var m2 := Apply(m1, Push);
    var m3 := Apply(m2, notify);
    StepFirst(m3, Unlock, []);
    StepFirst(m2, notify, [Unlock] + []);
    StepFirst(m1, Push, [notify] + ([Unlock] + []));
    StepFirst(m, LockForPut(x), [Push] + ([notify] + ([Unlock] + [])));
  }

  /** A consumer that gets the mutex, new or woken, and finds an element takes the front one and lets
      go of the mutex. */
  lemma TakeIsAtomic<T>(m: Monitor<T>, enter: Event<T>)
    requires Enabled(m, enter) && (enter.LockForTake? || enter.Relock?) && m.queue != []
    ensures
      var events := [enter] + ([FindNonEmpty] + ([Pop] + ([Unlock] + [])));
      && Legal(m, events)
      && After(m, events) == m.(queue := m.queue[1..], takes := m.takes + [m.queue[0]],
                                woken := if enter.Relock? then m.woken - {enter.t} else m.woken)
  {
    var m1 := Apply(m, enter);
    var m2 := Apply(m1, FindNonEmpty);
    var m3 := Apply(m2, Pop);
    StepFirst(m3, Unlock, []);
    StepFirst(m2, Pop, [Unlock] + []);
    StepFirst(m1, FindNonEmpty, [Pop] + ([Unlock] + []));
    StepFirst(m, enter, [FindNonEmpty] + ([Pop] + ([Unlock] + [])));
  }

  /** One that finds none joins the wait set and lets go of the mutex. */
  lemma TakeOfNothingSleeps<T>(m: Monitor<T>, enter: Event<T>)
    requires Enabled(m, enter) && (enter.LockForTake? || enter.Relock?) && m.queue == []
    ensures
      var events := [enter] + ([Sleep] + []);
      && Legal(m, events)
      && After(m, events) == m.(asleep := m.asleep + {enter.t},
                                woken := if enter.Relock? then m.woken - {enter.t} else m.woken)
  {
    var m1 := Apply(m, enter);
    StepFirst(m1, Sleep, []);
    StepFirst(m, enter, [Sleep] + []);
  }

  /** Left to run, the woken consumer `t` takes the front element. */
  ghost predicate TakesFront<T>(m: Monitor<T>, t: nat)
    requires m.queue != []
  {
    var turn := [Relock(t)] + ([FindNonEmpty] + ([Pop] + ([Unlock] + [])));
    && Legal(m, turn)
    && After(m, turn) == m.(queue := m.queue[1..], takes := m.takes + [m.queue[0]], woken := m.woken - {t})
  }

  /** No lost wake-up: with the mutex free and a consumer asleep, at least as many woken consumers
      are on their way as there are elements, and any one of them can go on to take the front. */
  lemma NoLostWakeup<T>(events: seq<Event<T>>)
    requires Legal(Init(), events)
    ensures
      var m := After(Init(), events);
      m.asleep != {} ==>
        && |m.queue| <= |m.woken| + Credit(m.holder)
        && (m.holder == Free ==> |m.queue| <= |m.woken|)
        && (m.holder == Free && m.queue != [] ==>
              m.woken != {} && forall t :: t in m.woken ==> TakesFront(m, t))
  {
    RunKeepsInv(Init(), events);
    var m := After(Init(), events);
    if m.holder == Free && m.queue != [] {
      forall t | t in m.woken ensures TakesFront(m, t) { TakeIsAtomic(m, Relock(t)); }
    }
  }
}
