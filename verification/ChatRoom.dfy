/** The chat room as one state machine: accepting, framing, announcing, broadcasting, sending and
    sweeping, with every handler an atomic step on the server's one thread. */
module ChatRoom {
  import opened Common
  import opened Wire
  import opened Channel
  import opened Announcement

  /** `down` runs from the server to this client and `up` the other way. `joinedAt` and `leftAt` are
      history: the length of the broadcast log when the connection entered and left the table. */
  datatype Conn = Conn(id: nat, open: bool, down: Chan, up: Chan, joinedAt: nat, leftAt: Option<nat>)

  /** `members` are the keys of the connection table; `conns` also keeps the swept connections, whose
      clients may still be reading. `log` is every broadcast and `origin` who it came from. */
  datatype Room = Room(nextId: nat, conns: map<nat, Conn>, members: set<nat>, log: seq<Payload>, origin: seq<nat>)

  function Init(): (r: Room)
  {
    Room(0, map[], {}, [], [])
  }

  // ---- Steps ----

  datatype Event =
    | Accept
    | Up(id: nat, e: Channel.Event)    // the client's sends and writes, the server's header reads
    | Handle(id: nat)                  // the server's body read, handle_message and broadcast
    | Down(id: nat, e: Channel.Event)  // the server's writes, the client's reads
    | Close(id: nat)                   // handle_error after a failed read
    | Sweep

  ghost predicate Enabled(r: Room, e: Event)
  {
    match e
    case Accept => r.nextId < INT32_MAX
    case Up(id, ce) =>
      && id in r.conns && Channel.Enabled(r.conns[id].up, ce) && ce != ReadBody
      && (ce == ReadHeader ==> r.conns[id].open)
    case Handle(id) =>
      // a body read that completed before the socket was closed is still handled
      && id in r.conns && Channel.Enabled(r.conns[id].up, ReadBody)
      && |Announce(id, Incoming(r.conns[id].up))| <= CONTENT_MAX
    case Down(id, ce) => id in r.conns && Channel.Enabled(r.conns[id].down, ce) && !ce.Send?
    case Close(id) => id in r.conns
    case Sweep => true
  }

  /** The message body that the next read completes. */
  ghost function Incoming(c: Chan): (p: Payload)
    requires Channel.Enabled(c, ReadBody)
  {
    c.wire[..c.reader.n]
  }

  /** `send_msg_to_client` on every connection in the table. */
  ghost function Broadcast(conns: map<nat, Conn>, members: set<nat>, text: Payload): (conns': map<nat, Conn>)
    requires |text| <= CONTENT_MAX
    ensures conns'.Keys == conns.Keys
  {
    map k | k in conns :: if k in members then conns[k].(down := Channel.Apply(conns[k].down, Send(text))) else conns[k]
  }

  ghost function Apply(r: Room, e: Event): (r': Room)
    requires Enabled(r, e)
  {
    match e
    case Accept =>
      // add_conn returns without inserting if the next id is taken
      if r.nextId in r.members then r
      else
        var c := Conn(r.nextId, true, Fresh(), Fresh(), |r.log|, None);
        r.(nextId := r.nextId + 1, conns := r.conns[r.nextId := c], members := r.members + {r.nextId})
    case Up(id, ce) =>
      r.(conns := r.conns[id := r.conns[id].(up := Channel.Apply(r.conns[id].up, ce))])
    case Handle(id) =>
      var text := Announce(id, Incoming(r.conns[id].up));
      var read := r.conns[id := r.conns[id].(up := Channel.Apply(r.conns[id].up, ReadBody))];
      r.(conns := Broadcast(read, r.members, text), log := r.log + [text], origin := r.origin + [id])
    case Down(id, ce) =>
      var c := r.conns[id];
      r.(conns := r.conns[id := c.(down := Channel.Apply(c.down, ce), open := c.open && ce != Fail)])
    case Close(id) =>
      r.(conns := r.conns[id := r.conns[id].(open := false)])
    case Sweep =>
      r.(conns := map k | k in r.conns ::
           if k in r.members && !r.conns[k].open then r.conns[k].(leftAt := Some(|r.log|)) else r.conns[k],
         members := set k | k in r.members && k in r.conns && r.conns[k].open)
  }

  // ---- What every step keeps ----

  /** How many broadcasts before number `i` came from the same connection. */
  function Turn(origin: seq<nat>, i: nat): (n: nat)
    requires i < |origin|
  {
    multiset(origin[..i])[origin[i]]
  }

  /** The broadcasts from connection `k` are the announcements of `said`, in order and all of them. */
  ghost predicate Said(log: seq<Payload>, origin: seq<nat>, k: nat, said: seq<Payload>)
    requires |log| == |origin|
  {
    && multiset(origin)[k] == |said|
    && forall i :: 0 <= i < |log| && origin[i] == k ==>
         Turn(origin, i) < |said| && log[i] == Announce(k, said[Turn(origin, i)])
  }

  /** Where a connection's slice of the log ends. */
  function Until(r: Room, c: Conn): (n: nat)
  {
    match c.leftAt case None => |r.log| case Some(n) => n
  }

  /** A connection's place in the table and in the log. */
  ghost predicate Placed(r: Room, k: nat, c: Conn)
  {
    && c.id == k && k < r.nextId
    && (c.leftAt == None <==> k in r.members) && (c.open ==> k in r.members)
    && c.joinedAt <= Until(r, c) <= |r.log|
    && c.down.enqueued == r.log[c.joinedAt..Until(r, c)]
  }

  ghost predicate ConnOk(r: Room, k: nat, c: Conn)
    requires |r.log| == |r.origin|
  {
    Placed(r, k, c) && Said(r.log, r.origin, k, c.up.decoded)
  }

  ghost predicate TableInv(r: Room)
  {
    && |r.log| == |r.origin|
    && (forall i :: 0 <= i < |r.origin| ==> r.origin[i] < r.nextId)
    && r.members <= r.conns.Keys
    && forall k :: k in r.conns ==> ConnOk(r, k, r.conns[k])
  }

  /** The branch of `add_conn` for an occupied id is never taken. */
  lemma NextIdIsFree(r: Room)
    requires TableInv(r)
    ensures r.nextId !in r.conns && r.nextId !in r.members
  {
    assert r.nextId in r.conns ==> ConnOk(r, r.nextId, r.conns[r.nextId]);
  }

  lemma AcceptKeepsTable(r: Room)
    requires TableInv(r) && Enabled(r, Accept)
    ensures TableInv(Apply(r, Accept))
  {
    NextIdIsFree(r);
    assert r.nextId !in r.origin;
    var r' := Apply(r, Accept);
    forall k | k in r'.conns ensures ConnOk(r', k, r'.conns[k]) {
      if k != r.nextId { assert ConnOk(r, k, r.conns[k]); }
    }
  }

  /** Changing one connection's channels or closing it keeps the table. */
  lemma ConnChangeKeepsTable(r: Room, k: nat, c: Conn)
    requires TableInv(r) && k in r.conns
    requires c.id == k && c.joinedAt == r.conns[k].joinedAt && c.leftAt == r.conns[k].leftAt
    requires c.open ==> r.conns[k].open
    requires c.down.enqueued == r.conns[k].down.enqueued && c.up.decoded == r.conns[k].up.decoded
    ensures TableInv(r.(conns := r.conns[k := c]))
  {
    var r' := r.(conns := r.conns[k := c]);
    forall j | j in r'.conns ensures ConnOk(r', j, r'.conns[j]) {
      assert ConnOk(r, j, r.conns[j]);
    }
  }

  lemma SweepKeepsTable(r: Room)
    requires TableInv(r)
    ensures TableInv(Apply(r, Sweep))
  {
    var r' := Apply(r, Sweep);
    forall k | k in r'.conns ensures ConnOk(r', k, r'.conns[k]) {
      assert ConnOk(r, k, r.conns[k]);
    }
  }

  lemma SaidSnoc(log: seq<Payload>, origin: seq<nat>, id: nat, p: Payload, k: nat, said: seq<Payload>)
    requires |log| == |origin| && Said(log, origin, k, said)
    ensures Said(log + [Announce(id, p)], origin + [id], k, if id == k then said + [p] else said)
  {
    var origin' := origin + [id];
    assert origin'[..|log|] == origin;
    forall i | 0 <= i < |log| ensures Turn(origin', i) == Turn(origin, i) {
      assert origin'[..i] == origin[..i];
    }
  }

  /** What handling a message does to one connection. */
  ghost function Handled(r: Room, id: nat, k: nat): (c: Conn)
    requires Enabled(r, Handle(id)) && k in r.conns
  {
    var c := r.conns[k];
    var read := if k == id then c.(up := Channel.Apply(c.up, ReadBody)) else c;
    if k in r.members then read.(down := Channel.Apply(read.down, Send(Announce(id, Incoming(r.conns[id].up)))))
    else read
  }

  /** A connection's slice of a log that has grown by one entry. */
  lemma SliceGrows(log: seq<Payload>, text: Payload, a: nat, b: nat)
    requires a <= b <= |log|
    ensures (log + [text])[a..b] == log[a..b]
    ensures (log + [text])[a..|log| + 1] == log[a..|log|] + [text]
  {
  }

  /** One connection's place through a broadcast. */
  lemma HandleKeepsPlace(r: Room, id: nat, k: nat, text: Payload)
    requires Enabled(r, Handle(id)) && k in r.conns && Placed(r, k, r.conns[k])
    requires text == Announce(id, Incoming(r.conns[id].up))
    ensures Placed(r.(log := r.log + [text], origin := r.origin + [id]), k, Handled(r, id, k))
  {
    SliceGrows(r.log, text, r.conns[k].joinedAt, Until(r, r.conns[k]));
  }

  lemma HandleKeepsConn(r: Room, id: nat, k: nat)
    requires TableInv(r) && Enabled(r, Handle(id)) && k in r.conns
    ensures
      var text := Announce(id, Incoming(r.conns[id].up));
      var r' := r.(log := r.log + [text], origin := r.origin + [id]);
      ConnOk(r', k, Handled(r, id, k))
  {
    var up := r.conns[id].up;
    assert ConnOk(r, k, r.conns[k]);
    HandleKeepsPlace(r, id, k, Announce(id, Incoming(up)));
    SaidSnoc(r.log, r.origin, id, Incoming(up), k, r.conns[k].up.decoded);
  }

  lemma HandleKeepsTable(r: Room, id: nat)
    requires TableInv(r) && Enabled(r, Handle(id))
    ensures TableInv(Apply(r, Handle(id)))
  {
    var r' := Apply(r, Handle(id));
    assert ConnOk(r, id, r.conns[id]);
    forall k | k in r'.conns ensures ConnOk(r', k, r'.conns[k]) {
      HandleKeepsConn(r, id, k);
      assert r'.conns[k] == Handled(r, id, k);
    }
  }

  lemma StepKeepsTable(r: Room, e: Event)
    requires TableInv(r) && Enabled(r, e)
    ensures TableInv(Apply(r, e))
  {
    match e
    case Accept => AcceptKeepsTable(r);
    case Up(id, ce) =>
      assert ConnOk(r, id, r.conns[id]);
      ConnChangeKeepsTable(r, id, r.conns[id].(up := Channel.Apply(r.conns[id].up, ce)));
    case Handle(id) => HandleKeepsTable(r, id);
    case Down(id, ce) =>
      var c := r.conns[id];
      assert ConnOk(r, id, c);
      ConnChangeKeepsTable(r, id, c.(down := Channel.Apply(c.down, ce), open := c.open && ce != Fail));
    case Close(id) =>
      assert ConnOk(r, id, r.conns[id]);
      ConnChangeKeepsTable(r, id, r.conns[id].(open := false));
    case Sweep => SweepKeepsTable(r);
  }

  /** The two channels of connection `k`, fresh until it is accepted. */
  ghost function DownAt(r: Room, k: nat): (c: Chan)
  {
    if k in r.conns then r.conns[k].down else Fresh()
  }

  ghost function UpAt(r: Room, k: nat): (c: Chan)
  {
    if k in r.conns then r.conns[k].up else Fresh()
  }

  /** What an event is to the channel down to `k`: a broadcast is one push while `k` is in the table. */
  ghost function DownOf(r: Room, e: Event, k: nat): (ces: seq<Channel.Event>)
    requires Enabled(r, e)
  {
    match e
    case Down(id, ce) => if id == k then [ce] else []
    case Handle(id) => if k in r.members then [Send(Announce(id, Incoming(r.conns[id].up)))] else []
    case _ => []
  }

  /** What an event is to the channel up from `k`: handling a message is one body read. */
  function UpOf(e: Event, k: nat): (ces: seq<Channel.Event>)
  {
    match e
    case Up(id, ce) => if id == k then [ce] else []
    case Handle(id) => if id == k then [ReadBody] else []
    case _ => []
  }

  /** `c` does what `ces` says and ends as `c'`. */
  ghost predicate Runs(c: Chan, ces: seq<Channel.Event>, c': Chan)
  {
    Channel.Legal(c, ces) && Channel.After(c, ces) == c'
  }

  lemma DownTakesOwnStep(r: Room, e: Event, k: nat)
    requires TableInv(r) && Enabled(r, e)
    ensures Runs(DownAt(r, k), DownOf(r, e, k), DownAt(Apply(r, e), k))
  {
    if e == Accept { NextIdIsFree(r); }
    if e.Down? && e.id == k { Channel.OneStep(DownAt(r, k), e.e); }
    if e.Handle? && k in r.members {
      Channel.OneStep(DownAt(r, k), Send(Announce(e.id, Incoming(r.conns[e.id].up))));
    }
  }

  lemma UpTakesOwnStep(r: Room, e: Event, k: nat)
    requires TableInv(r) && Enabled(r, e)
    ensures Runs(UpAt(r, k), UpOf(e, k), UpAt(Apply(r, e), k))
  {
    if e == Accept { NextIdIsFree(r); }
    if e.Up? && e.id == k { Channel.OneStep(UpAt(r, k), e.e); }
    if e.Handle? && e.id == k { Channel.OneStep(UpAt(r, k), ReadBody); }
  }

  /** A step of the room is to each channel exactly the channel events it stands for. */
  lemma ChannelsTakeOwnSteps(r: Room, e: Event, k: nat)
    requires TableInv(r) && Enabled(r, e)
    ensures Runs(DownAt(r, k), DownOf(r, e, k), DownAt(Apply(r, e), k))
    ensures Runs(UpAt(r, k), UpOf(e, k), UpAt(Apply(r, e), k))
  {
    DownTakesOwnStep(r, e, k);
    UpTakesOwnStep(r, e, k);
  }

  lemma RunsKeepsInv(c: Chan, ces: seq<Channel.Event>, c': Chan)
    requires Channel.Inv(c) && Runs(c, ces, c')
    ensures Channel.Inv(c')
  {
    Channel.RunKeepsInv(c, ces);
  }

  ghost predicate BothOk(r: Room, k: nat)
  {
    Channel.Inv(DownAt(r, k)) && Channel.Inv(UpAt(r, k))
  }

  ghost predicate ChannelsInv(r: Room)
  {
    forall k :: BothOk(r, k)
  }

  lemma StepKeepsBoth(r: Room, e: Event, k: nat)
    requires TableInv(r) && Enabled(r, e) && BothOk(r, k)
    ensures BothOk(Apply(r, e), k)
  {
    ChannelsTakeOwnSteps(r, e, k);
    RunsKeepsInv(DownAt(r, k), DownOf(r, e, k), DownAt(Apply(r, e), k));
    RunsKeepsInv(UpAt(r, k), UpOf(e, k), UpAt(Apply(r, e), k));
  }

  lemma StepKeepsChannels(r: Room, e: Event)
    requires TableInv(r) && ChannelsInv(r) && Enabled(r, e)
    ensures ChannelsInv(Apply(r, e))
  {
    forall k ensures BothOk(Apply(r, e), k) { StepKeepsBoth(r, e, k); }
  }

  // ---- Whole runs ----

  ghost predicate Legal(r: Room, events: seq<Event>)
    decreases |events|
  {
    events == [] || (Enabled(r, events[0]) && Legal(Apply(r, events[0]), events[1..]))
  }

  ghost function After(r: Room, events: seq<Event>): (r': Room)
    requires Legal(r, events)
    decreases |events|
  {
    if events == [] then r else After(Apply(r, events[0]), events[1..])
  }

  lemma InitIsOk()
    ensures TableInv(Init()) && ChannelsInv(Init())
  {
    forall k ensures BothOk(Init(), k) { assert DownAt(Init(), k) == UpAt(Init(), k) == Fresh(); }
  }

  lemma {:induction false} RunKeepsInv(r: Room, events: seq<Event>)
    requires TableInv(r) && ChannelsInv(r) && Legal(r, events)
    ensures TableInv(After(r, events)) && ChannelsInv(After(r, events))
    decreases |events|
  {
    if events != [] {
      StepKeepsTable(r, events[0]);
      StepKeepsChannels(r, events[0]);
      RunKeepsInv(Apply(r, events[0]), events[1..]);
    }
  }

  lemma Reached(events: seq<Event>, k: nat)
    requires Legal(Init(), events) && k in After(Init(), events).conns
    ensures
      var r := After(Init(), events);
      |r.log| == |r.origin| && ConnOk(r, k, r.conns[k]) && InOrder(r.conns[k].down) && InOrder(r.conns[k].up)
  {
    InitIsOk();
    RunKeepsInv(Init(), events);
    assert BothOk(After(Init(), events), k);
    var c := After(Init(), events).conns[k];
    Channel.InvMeansInOrder(c.down);
    Channel.InvMeansInOrder(c.up);
  }

  /** Messages enqueued to a connection are exactly the slice of the broadcast log between its
      acceptance and its removal, and at every moment what its client has decoded is a prefix of
      the broadcasts from its acceptance on. */
  lemma ClientsSeeTheLog(events: seq<Event>, k: nat)
    requires Legal(Init(), events) && k in After(Init(), events).conns
    ensures
      var r := After(Init(), events);
      var c := r.conns[k];
      && c.joinedAt <= Until(r, c) <= |r.log|
      && c.down.enqueued == r.log[c.joinedAt..Until(r, c)]
      && c.down.decoded <= r.log[c.joinedAt..]
  {
    Reached(events, k);
  }

  /** Any two clients that have both decoded a broadcast have decoded the same one at the same place
      in the log: their common messages come in the same order. */
  lemma ClientsAgree(events: seq<Event>, j: nat, k: nat, p: nat)
    requires Legal(Init(), events)
    requires j in After(Init(), events).conns && k in After(Init(), events).conns
    requires
      var r := After(Init(), events);
      && r.conns[j].joinedAt <= p < r.conns[j].joinedAt + |r.conns[j].down.decoded|
      && r.conns[k].joinedAt <= p < r.conns[k].joinedAt + |r.conns[k].down.decoded|
    ensures
      var r := After(Init(), events);
      r.conns[j].down.decoded[p - r.conns[j].joinedAt] == r.conns[k].down.decoded[p - r.conns[k].joinedAt]
  {
    var r := After(Init(), events);
    ClientsSeeTheLog(events, j);
    ClientsSeeTheLog(events, k);
    assert r.log[r.conns[j].joinedAt..][p - r.conns[j].joinedAt] == r.log[p];
    assert r.log[r.conns[k].joinedAt..][p - r.conns[k].joinedAt] == r.log[p];
  }

  /** Nothing is broadcast that was not said: the broadcasts from a connection are, in order, the
      announcements of a prefix of what its client sent, and whoever reads one finds the speaker's
      id and the text in it. */
  lemma BroadcastsWereSaid(events: seq<Event>, k: nat)
    requires Legal(Init(), events) && k in After(Init(), events).conns
    ensures
      var r := After(Init(), events);
      && |r.log| == |r.origin|
      && r.conns[k].up.decoded <= r.conns[k].up.enqueued
      && Said(r.log, r.origin, k, r.conns[k].up.decoded)
      && forall i :: 0 <= i < |r.log| && r.origin[i] == k ==>
           && Turn(r.origin, i) < |r.conns[k].up.enqueued|
           && Read(r.log[i]) == Some((k, CString(r.conns[k].up.enqueued[Turn(r.origin, i)])))
  {
    Reached(events, k);
    var r := After(Init(), events);
    forall i | 0 <= i < |r.log| && r.origin[i] == k
      ensures
        && Turn(r.origin, i) < |r.conns[k].up.enqueued|
        && Read(r.log[i]) == Some((k, CString(r.conns[k].up.enqueued[Turn(r.origin, i)])))
    {
      AnnouncementReadsBack(k, r.conns[k].up.decoded[Turn(r.origin, i)]);
    }
  }

  /** The connection table: keys are ids, all below the next id, so no id is taken twice and the
      occupied branch of `add_conn` is dead; open connections are in the table. */
  lemma TableIsConsistent(events: seq<Event>)
    requires Legal(Init(), events)
    ensures
      var r := After(Init(), events);
      && r.nextId !in r.conns && r.nextId !in r.members
      && r.members <= r.conns.Keys
      && (forall k :: k in r.conns ==> r.conns[k].id == k && k < r.nextId && (r.conns[k].open ==> k in r.members))
  {
    InitIsOk();
    RunKeepsInv(Init(), events);
    var r := After(Init(), events);
    NextIdIsFree(r);
    forall k | k in r.conns
      ensures r.conns[k].id == k && k < r.nextId && (r.conns[k].open ==> k in r.members)
    {
      assert ConnOk(r, k, r.conns[k]);
    }
  }

  /** A sweep leaves exactly the open connections in the table. */
  lemma SweepKeepsOpen(events: seq<Event>, k: nat)
    requires Legal(Init(), events)
    ensures
      var r := After(Init(), events);
      k in Apply(r, Sweep).members <==> k in r.conns && r.conns[k].open
  {
    TableIsConsistent(events);
  }
}
