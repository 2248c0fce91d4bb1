/** Whole runs of the chat room told from their events alone, and what a room can always still do. */
module ChatRuns {
  import opened Common
  import opened Wire
  import opened Announcement
  import opened ChatRoom
  import Channel

  /** A run is its first step and then the rest. */
  lemma StepFirst(r: Room, e: Event, rest: seq<Event>)
    requires Enabled(r, e) && Legal(Apply(r, e), rest)
    ensures Legal(r, [e] + rest) && After(r, [e] + rest) == After(Apply(r, e), rest)
  {
    var events := [e] + rest;
    assert events[0] == e && events[1..] == rest;
  }

  /** One run after another is a run. */
  lemma {:induction false} RunThen(r: Room, es: seq<Event>, fs: seq<Event>)
    requires Legal(r, es) && Legal(After(r, es), fs)
    ensures Legal(r, es + fs) && After(r, es + fs) == After(After(r, es), fs)
    decreases |es|
  {
    if es == [] {
      assert es + fs == fs;
    } else {
      RunThen(Apply(r, es[0]), es[1..], fs);
      StepFirst(r, es[0], es[1..] + fs);
      assert es + fs == [es[0]] + (es[1..] + fs);
    }
  }

  /** A run is all but its last step and then that step. */
  lemma {:induction false} LastStep(r: Room, events: seq<Event>, e: Event)
    requires Legal(r, events + [e])
    ensures Legal(r, events) && Enabled(After(r, events), e)
    ensures After(r, events + [e]) == Apply(After(r, events), e)
    decreases |events|
  {
    if events == [] {
      assert events + [e] == [e] && [e][1..] == [];
    } else {
      assert (events + [e])[0] == events[0] && (events + [e])[1..] == events[1..] + [e];
      LastStep(Apply(r, events[0]), events[1..], e);
    }
  }

  // ---- The table, from the events alone ----

  /** Every failed read, and every failed write of the server, closes the socket. */
  predicate Closes(e: Event, k: nat)
  {
    e == Close(k) || e == Down(k, Channel.Fail)
  }

  ghost predicate Closed(events: seq<Event>, k: nat)
  {
    exists i :: 0 <= i < |events| && Closes(events[i], k)
  }

  /** Closed, and swept after that. */
  ghost predicate Swept(events: seq<Event>, k: nat)
  {
    exists j :: 0 <= j < |events| && events[j] == Sweep && Closed(events[..j], k)
  }

  /** Whose messages were handled, in order. */
  function Speakers(events: seq<Event>): (ids: seq<nat>)
  {
    if events == [] then []
    else
      var e := events[|events| - 1];
      Speakers(events[..|events| - 1]) + if e.Handle? then [e.id] else []
  }

  /** Connection `k` stands in the table as the events say. */
  ghost predicate Standing(r: Room, events: seq<Event>, k: nat)
  {
    && (k in r.conns <==> k < r.nextId)
    && (Closed(events, k) ==> k in r.conns)
    && (k in r.conns ==> (r.conns[k].open <==> !Closed(events, k)))
    && (k in r.members <==> k in r.conns && !Swept(events, k))
  }

  lemma ClosedSnoc(events: seq<Event>, e: Event, k: nat)
    ensures Closed(events + [e], k) <==> Closed(events, k) || Closes(e, k)
  {
    var longer := events + [e];
    if Closed(events, k) {
      var i :| 0 <= i < |events| && Closes(events[i], k);
      assert Closes(longer[i], k);
    }
    if Closes(e, k) { assert Closes(longer[|events|], k); }
  }

  lemma SweptSnoc(events: seq<Event>, e: Event, k: nat)
    ensures Swept(events + [e], k) <==> Swept(events, k) || (e == Sweep && Closed(events, k))
  {
    var longer := events + [e];
    forall j | 0 <= j <= |events| ensures longer[..j] == events[..j] {}
    assert longer[..|events|] == events;
    if Swept(events, k) {
      var j :| 0 <= j < |events| && events[j] == Sweep && Closed(events[..j], k);
      assert longer[j] == Sweep && Closed(longer[..j], k);
    }
    if e == Sweep && Closed(events, k) { assert longer[|events|] == Sweep; }
  }

  lemma SweptWasClosed(events: seq<Event>, k: nat)
    requires Swept(events, k)
    ensures Closed(events, k)
  {
    var j :| 0 <= j < |events| && events[j] == Sweep && Closed(events[..j], k);
    var i :| 0 <= i < j && Closes(events[..j][i], k);
    assert Closes(events[i], k);
  }

  lemma StepKeepsStanding(r: Room, events: seq<Event>, e: Event, k: nat)
    requires TableInv(r) && Enabled(r, e) && Standing(r, events, k)
    ensures Standing(Apply(r, e), events + [e], k)
  {
    ClosedSnoc(events, e, k);
    SweptSnoc(events, e, k);
    if e == Accept {
      NextIdIsFree(r);
      if Swept(events, k) { SweptWasClosed(events, k); }
    }
  }

  lemma StepKeepsCounts(r: Room, events: seq<Event>, e: Event)
    requires TableInv(r) && Enabled(r, e)
    requires r.nextId == multiset(events)[Accept] && r.origin == Speakers(events)
    ensures Apply(r, e).nextId == multiset(events + [e])[Accept] && Apply(r, e).origin == Speakers(events + [e])
  {
    assert (events + [e])[..|events|] == events;
    NextIdIsFree(r);
  }

  /** Ids count the accepted connections; a connection is open until an error closes it and in the
      table until a sweep finds it closed; every handled message has become one broadcast. */
  lemma {:induction false} EventsDecideTheTable(events: seq<Event>, k: nat)
    requires Legal(Init(), events)
    ensures
      var r := After(Init(), events);
      && TableInv(r) && ChannelsInv(r)
      && r.nextId == multiset(events)[Accept] && r.origin == Speakers(events)
      && Standing(r, events, k)
    decreases |events|
  {
    if events == [] {
      InitIsOk();
    } else {
      var before, e := events[..|events| - 1], events[|events| - 1];
      assert events == before + [e];
      LastStep(Init(), before, e);
      EventsDecideTheTable(before, k);
      var r := After(Init(), before);
      StepKeepsStanding(r, before, e, k);
      StepKeepsCounts(r, before, e);
      StepKeepsTable(r, e);
      StepKeepsChannels(r, e);
    }
  }

  // ---- The channels, from the events ----

  /** What a run is to the channel down to `k`. */
  ghost function DownTrace(r: Room, events: seq<Event>, k: nat): (ces: seq<Channel.Event>)
    requires Legal(r, events)
    decreases |events|
  {
    if events == [] then [] else DownOf(r, events[0], k) + DownTrace(Apply(r, events[0]), events[1..], k)
  }

  /** What a run is to the channel up from `k`, by the events alone. */
  function UpTrace(events: seq<Event>, k: nat): (ces: seq<Channel.Event>)
    decreases |events|
  {
    if events == [] then [] else UpOf(events[0], k) + UpTrace(events[1..], k)
  }

  lemma RunsThen(c: Channel.Chan, ces: seq<Channel.Event>, d: Channel.Chan, des: seq<Channel.Event>, e: Channel.Chan)
    requires Runs(c, ces, d) && Runs(d, des, e)
    ensures Runs(c, ces + des, e)
  {
    Channel.RunThen(c, ces, des);
  }

  lemma {:induction false} RunProjects(r: Room, events: seq<Event>, k: nat)
    requires TableInv(r) && Legal(r, events)
    ensures Runs(DownAt(r, k), DownTrace(r, events, k), DownAt(After(r, events), k))
    ensures Runs(UpAt(r, k), UpTrace(events, k), UpAt(After(r, events), k))
    decreases |events|
  {
    if events != [] {
      var r1 := Apply(r, events[0]);
      ChannelsTakeOwnSteps(r, events[0], k);
      StepKeepsTable(r, events[0]);
      RunProjects(r1, events[1..], k);
      var r2 := After(r1, events[1..]);
      RunsThen(DownAt(r, k), DownOf(r, events[0], k), DownAt(r1, k), DownTrace(r1, events[1..], k), DownAt(r2, k));
      RunsThen(UpAt(r, k), UpOf(events[0], k), UpAt(r1, k), UpTrace(events[1..], k), UpAt(r2, k));
    }
  }

  /** In every run of the room each channel makes exactly the run that its own events make of a fresh
      one: no event is skipped, none is added, none leaks from one connection into another. */
  lemma ChannelsRunTheirOwnEvents(events: seq<Event>, k: nat)
    requires Legal(Init(), events)
    ensures Runs(Channel.Fresh(), DownTrace(Init(), events, k), DownAt(After(Init(), events), k))
    ensures Runs(Channel.Fresh(), UpTrace(events, k), UpAt(After(Init(), events), k))
  {
    InitIsOk();
    RunProjects(Init(), events, k);
  }

  // ---- What is said can be heard ----

  /** The room's own work: everything but new connections, new messages and failures. */
  predicate Work(e: Event)
  {
    match e
    case Up(_, ce) => Channel.Work(ce)
    case Down(_, ce) => Channel.Work(ce)
    case Handle(_) => true
    case _ => false
  }

  /** The announcements of all that `k` has sent fit a message. */
  ghost predicate AllAnnounceable(k: nat, ms: seq<Payload>)
  {
    forall i :: 0 <= i < |ms| ==> |Announce(k, ms[i])| <= CONTENT_MAX
  }

  /** The server can go on reading from `k`. */
  ghost predicate Hears(r: Room, k: nat)
  {
    && k in r.conns && r.conns[k].open && Channel.Inv(r.conns[k].up)
    && AllAnnounceable(k, r.conns[k].up.enqueued)
  }

  /** Connection `j` is in the table, or not, as before, and its write has not newly failed. */
  ghost predicate Stays(r: Room, r': Room, j: nat)
  {
    && (j in r.members <==> j in r'.members) && j in r.conns && j in r'.conns
    && r'.conns[j].joinedAt == r.conns[j].joinedAt && r'.conns[j].down.failed == r.conns[j].down.failed
  }

  /** The room's event for the next piece of work on the channel up from `k`. */
  function Doing(k: nat, ce: Channel.Event): (e: Event)
  {
    if ce == Channel.ReadBody then Handle(k) else Up(k, ce)
  }

  lemma UpWorkIsEnabled(r: Room, k: nat, ce: Channel.Event)
    requires Hears(r, k) && Channel.Work(ce) && Channel.Enabled(r.conns[k].up, ce)
    ensures Enabled(r, Doing(k, ce))
  {
    if ce == Channel.ReadBody { Channel.BodyAhead(r.conns[k].up); }
  }

  lemma UpWorkStays(r: Room, k: nat, ce: Channel.Event, j: nat)
    requires j in r.conns && Channel.Work(ce) && Enabled(r, Doing(k, ce))
    ensures Stays(r, Apply(r, Doing(k, ce)), j)
    ensures
      var c, c' := r.conns[k], Apply(r, Doing(k, ce)).conns[k];
      c'.open == c.open && c'.up == Channel.Apply(c.up, ce)
  {
  }

  lemma UpWorkKeeps(r: Room, k: nat, ce: Channel.Event, j: nat)
    requires Hears(r, k) && j in r.conns && Channel.Work(ce) && Enabled(r, Doing(k, ce))
    ensures Hears(Apply(r, Doing(k, ce)), k) && Stays(r, Apply(r, Doing(k, ce)), j)
    ensures Apply(r, Doing(k, ce)).conns[k].up == Channel.Apply(r.conns[k].up, ce)
  {
    UpWorkStays(r, k, ce, j);
    Channel.StepKeepsInv(r.conns[k].up, ce);
    assert Channel.Apply(r.conns[k].up, ce).enqueued == r.conns[k].up.enqueued;
  }

  /** Whatever work the channel up from `k` can do, the room can do. */
  lemma {:induction false} DoUp(r: Room, k: nat, ces: seq<Channel.Event>, j: nat) returns (events: seq<Event>)
    requires Hears(r, k) && j in r.conns && Channel.Legal(r.conns[k].up, ces)
    requires forall i :: 0 <= i < |ces| ==> Channel.Work(ces[i])
    ensures forall i :: 0 <= i < |events| ==> Work(events[i])
    ensures Legal(r, events) && Stays(r, After(r, events), j) && k in After(r, events).conns
    ensures After(r, events).conns[k].up == Channel.After(r.conns[k].up, ces)
    decreases |ces|
  {
    events := [];
    if ces != [] {
      UpWorkIsEnabled(r, k, ces[0]);
      UpWorkKeeps(r, k, ces[0], j);
      var e := Doing(k, ces[0]);
      var rest := DoUp(Apply(r, e), k, ces[1..], j);
      StepFirst(r, e, rest);
      events := [e] + rest;
    }
  }

  /** The log is as before, and so is what was heard from `k`. */
  ghost predicate Quiet(r: Room, r': Room, k: nat)
  {
    && r'.log == r.log && r'.origin == r.origin
    && k in r.conns && k in r'.conns && r'.conns[k].up == r.conns[k].up
  }

  lemma {:induction false} DoDown(r: Room, j: nat, ces: seq<Channel.Event>, k: nat) returns (events: seq<Event>)
    requires j in r.conns && k in r.conns && Channel.Legal(r.conns[j].down, ces)
    requires forall i :: 0 <= i < |ces| ==> Channel.Work(ces[i])
    ensures forall i :: 0 <= i < |events| ==> Work(events[i])
    ensures Legal(r, events) && Quiet(r, After(r, events), k) && j in After(r, events).conns
    ensures After(r, events).conns[j].down == Channel.After(r.conns[j].down, ces)
    decreases |ces|
  {
    events := [];
    if ces != [] {
      var e := Down(j, ces[0]);
      var rest := DoDown(Apply(r, e), j, ces[1..], k);
      StepFirst(r, e, rest);
      events := [e] + rest;
    }
  }

  /** Everything `k` has sent can be taken into the log. */
  lemma SayAll(r: Room, k: nat, j: nat) returns (events: seq<Event>)
    requires TableInv(r) && ChannelsInv(r) && Hears(r, k) && j in r.conns && !r.conns[k].up.failed
    ensures forall i :: 0 <= i < |events| ==> Work(events[i])
    ensures Legal(r, events) && Stays(r, After(r, events), j)
    ensures
      var r' := After(r, events);
      && TableInv(r') && ChannelsInv(r') && k in r'.conns
      && r'.conns[k].up.decoded == r.conns[k].up.enqueued
  {
    var ces := Channel.EverythingCanBeDelivered(r.conns[k].up);
    events := DoUp(r, k, ces, j);
    RunKeepsInv(r, events);
  }

  /** Everything pushed to `j` can be read by its client, while nobody speaks. */
  lemma HearAll(r: Room, j: nat, k: nat) returns (events: seq<Event>)
    requires j in r.conns && k in r.conns && Channel.Inv(r.conns[j].down) && !r.conns[j].down.failed
    ensures forall i :: 0 <= i < |events| ==> Work(events[i])
    ensures Legal(r, events) && Quiet(r, After(r, events), k) && j in After(r, events).conns
    ensures After(r, events).conns[j].down.decoded == r.conns[j].down.enqueued
  {
    var ces := Channel.EverythingCanBeDelivered(r.conns[j].down);
    events := DoDown(r, j, ces, k);
  }

  /** All of `said` by `k` is announced in the log, and `j` has decoded the log from its place on. */
  ghost predicate Heard(r: Room, k: nat, said: seq<Payload>, j: nat, joinedAt: nat)
  {
    && |r.log| == |r.origin| && Said(r.log, r.origin, k, said)
    && j in r.conns && joinedAt <= |r.log| && r.conns[j].down.decoded == r.log[joinedAt..]
  }

  lemma SaidAndHeard(r: Room, r': Room, k: nat, j: nat)
    requires TableInv(r) && Quiet(r, r', k) && j in r.members && j in r'.conns && j in r.conns
    requires r'.conns[j].down.decoded == r.conns[j].down.enqueued
    ensures Heard(r', k, r.conns[k].up.decoded, j, r.conns[j].joinedAt)
  {
    assert ConnOk(r, k, r.conns[k]) && ConnOk(r, j, r.conns[j]);
  }

  /** From every moment of every run, the room's own work alone takes all that an open connection's
      client has sent into the log, and the whole log to any client in the table: nothing said is
      lost and nobody in the room is left out. */
  lemma EverythingSaidCanBeHeard(events: seq<Event>, k: nat, j: nat) returns (more: seq<Event>)
    requires Legal(Init(), events)
    requires
      var r := After(Init(), events);
      && k in r.conns && r.conns[k].open && !r.conns[k].up.failed && AllAnnounceable(k, r.conns[k].up.enqueued)
      && j in r.members && j in r.conns && !r.conns[j].down.failed
    ensures forall i :: 0 <= i < |more| ==> Work(more[i])
    ensures Legal(After(Init(), events), more)
    ensures
      var r := After(Init(), events);
      Heard(After(r, more), k, r.conns[k].up.enqueued, j, r.conns[j].joinedAt)
  {
    InitIsOk();
    RunKeepsInv(Init(), events);
    var r := After(Init(), events);
    assert BothOk(r, k);
    var first := SayAll(r, k, j);
    var r1 := After(r, first);
    assert BothOk(r1, j);
    var second := HearAll(r1, j, k);
    RunThen(r, first, second);
    more := first + second;
    SaidAndHeard(r1, After(r1, second), k, j);
  }
}
