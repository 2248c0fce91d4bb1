/** One direction of a chat connection: a send queue with one write in flight, a byte stream that
    may take the write in pieces, and a reader that takes a header and then a body. */
module Channel {
  import opened Common
  import opened Wire

  /** The sender's queue and the buffers of the writes it has started and not seen completed. Nothing
      but the protocol keeps that list from growing. */
  datatype Outbox = Outbox(queue: seq<Payload>, writing: seq<seq<byte>>)

  /** `do_write`. */
  function StartWrite(o: Outbox): (r: Outbox)
    requires o.queue != [] && |o.queue[0]| <= CONTENT_MAX
  {
    o.(writing := o.writing + [Encode(o.queue[0])])
  }

  /** `send_msg_to_client`: a write is started only when the queue was empty. */
  function Pushed(o: Outbox, m: Payload): (r: Outbox)
    requires |m| <= CONTENT_MAX
  {
    var p := o.(queue := o.queue + [m]);
    if o.queue == [] then StartWrite(p) else p
  }

  /** The write handler of the oldest write, without an error. */
  function Written(o: Outbox): (r: Outbox)
    requires o.queue != [] && AllFit(o.queue) && o.writing != []
  {
    var p := Outbox(o.queue[1..], o.writing[1..]);
    if p.queue == [] then p else StartWrite(p)
  }

  /** The write handler with an error: nothing is popped, nothing is started. */
  function WriteFailed(o: Outbox): (r: Outbox)
    requires o.writing != []
  {
    o.(writing := o.writing[1..])
  }

  datatype Reader = AtHeader | AtBody(n: nat)

  /** `enqueued`, `transmitted`, `decoded` and `failed` are history: all messages ever pushed, all
      bytes the transport took, all messages the reader delivered, whether a write ever failed.
      `sent` is how much of the oldest write in flight, or of the failed one, was taken; `wire` holds the
      bytes delivered to the reader's side and not read yet. */
  datatype Chan = Chan(
    out: Outbox, sent: nat, wire: seq<byte>, reader: Reader,
    enqueued: seq<Payload>, transmitted: seq<byte>, decoded: seq<Payload>, failed: bool)

  function Fresh(): (c: Chan)
  {
    Chan(Outbox([], []), 0, [], AtHeader, [], [], [], false)
  }

  datatype Event = Send(m: Payload) | Transmit(k: nat) | Done | Fail | ReadHeader | ReadBody

  ghost predicate Enabled(c: Chan, e: Event)
  {
    match e
    case Send(m) => |m| <= CONTENT_MAX
    case Transmit(k) => c.out.writing != [] && c.sent + k <= |c.out.writing[0]|
    case Done => c.out.writing != [] && c.sent == |c.out.writing[0]| && c.out.queue != [] && AllFit(c.out.queue)
    case Fail => c.out.writing != []
    case ReadHeader => c.reader == AtHeader && 2 <= |c.wire|
    case ReadBody => c.reader.AtBody? && c.reader.n <= |c.wire|
  }

  /** Reads fill their buffer: a header read takes two bytes, a body read all of the body. */
  ghost function Apply(c: Chan, e: Event): (c': Chan)
    requires Enabled(c, e)
  {
    match e
    case Send(m) => c.(out := Pushed(c.out, m), enqueued := c.enqueued + [m])
    case Transmit(k) =>
      var bytes := c.out.writing[0][c.sent..c.sent + k];
      c.(sent := c.sent + k, wire := c.wire + bytes, transmitted := c.transmitted + bytes)
    case Done => c.(out := Written(c.out), sent := 0)
    case Fail => c.(out := WriteFailed(c.out), failed := true)
    case ReadHeader => c.(reader := AtBody(HeaderValue(c.wire[..2])), wire := c.wire[2..])
    case ReadBody => c.(reader := AtHeader, wire := c.wire[c.reader.n..], decoded := c.decoded + [c.wire[..c.reader.n]])
  }

  /** How many messages have left the queue. */
  function Popped(c: Chan): (n: int)
  {
    |c.enqueued| - |c.out.queue|
  }

  /** One write in flight, carrying the front, exactly while the queue is non-empty, until a write
      fails; then never again. What went out is the encoding of the popped messages and part of the
      front one. */
  ghost predicate WriterOk(c: Chan)
  {
    && AllFit(c.enqueued) && 0 <= Popped(c) && c.out.queue == c.enqueued[Popped(c)..]
    && (c.failed ==> c.out.queue != [])
    && c.out.writing == (if c.failed || c.out.queue == [] then [] else [Encode(c.out.queue[0])])
    && (if c.out.queue == [] then c.sent == 0 && c.transmitted == EncodeAll(c.enqueued)
        else c.sent <= |c.out.queue[0]| + 2
             && c.transmitted == EncodeAll(c.enqueued[..Popped(c)]) + Encode(c.out.queue[0])[..c.sent])
  }

  /** How many bytes the reader has taken, by what it has delivered. */
  ghost function Consumed(c: Chan): (n: nat)
    requires AllFit(c.decoded)
  {
    |EncodeAll(c.decoded)| + if c.reader.AtBody? then 2 else 0
  }

  /** The reader has delivered a prefix of what was pushed and is in step with the stream. */
  ghost predicate ReaderOk(c: Chan)
  {
    && AllFit(c.enqueued) && c.decoded <= c.enqueued && AllFit(c.decoded)
    && Consumed(c) <= |c.transmitted| && c.wire == c.transmitted[Consumed(c)..]
    && (c.reader.AtBody? ==> |c.decoded| < |c.enqueued| && c.reader.n == |c.enqueued[|c.decoded|]|)
  }

  ghost predicate Inv(c: Chan)
  {
    WriterOk(c) && ReaderOk(c)
  }

  /** Whatever has gone out is a prefix of the encoding of everything pushed. */
  lemma SentIsPrefix(c: Chan)
    requires WriterOk(c)
    ensures c.transmitted <= EncodeAll(c.enqueued)
  {
    if c.out.queue != [] {
      StreamAt(c.enqueued, Popped(c));
    }
  }

  lemma SendKeeps(c: Chan, m: Payload)
    requires Inv(c) && |m| <= CONTENT_MAX
    ensures Inv(Apply(c, Send(m)))
  {
    var c' := Apply(c, Send(m));
    assert c'.enqueued[..Popped(c)] == c.enqueued[..Popped(c)];
    if c.out.queue == [] { assert c.enqueued[..Popped(c)] == c.enqueued; }
  }

  lemma DropOfConcat(a: seq<byte>, b: seq<byte>, k: nat)
    requires k <= |a|
    ensures (a + b)[k..] == a[k..] + b
  {
  }

  lemma PieceExtends(before: seq<byte>, buf: seq<byte>, sent: nat, k: nat)
    requires sent + k <= |buf|
    ensures before + buf[..sent] + buf[sent..sent + k] == before + buf[..sent + k]
  {
  }

  lemma TransmitKeepsWriter(c: Chan, k: nat)
    requires WriterOk(c) && Enabled(c, Transmit(k))
    ensures WriterOk(Apply(c, Transmit(k)))
  {
    var buf := c.out.writing[0];
    assert c.out.queue != [] && buf == Encode(c.out.queue[0]);
    PieceExtends(EncodeAll(c.enqueued[..Popped(c)]), buf, c.sent, k);
  }

  lemma TransmitKeepsReader(c: Chan, k: nat)
    requires ReaderOk(c) && Enabled(c, Transmit(k))
    ensures ReaderOk(Apply(c, Transmit(k)))
  {
    DropOfConcat(c.transmitted, c.out.writing[0][c.sent..c.sent + k], Consumed(c));
  }

  lemma DoneKeeps(c: Chan)
    requires Inv(c) && Enabled(c, Done)
    ensures Inv(Apply(c, Done))
  {
    var c' := Apply(c, Done);
    var p := Popped(c);
    DoneOut(c.enqueued, p);
    assert c'.out.queue == c.enqueued[p + 1..];
    assert c'.out.writing == if c'.out.queue == [] then [] else [Encode(c'.out.queue[0])];
    assert Encode(c.out.queue[0])[..c.sent] == Encode(c.out.queue[0]);
    assert c.transmitted == EncodeAll(c.enqueued[..p + 1]);
    assert p + 1 == |c.enqueued| ==> c.enqueued[..p + 1] == c.enqueued;
  }

  lemma DoneOut(ms: seq<Payload>, p: nat)
    requires AllFit(ms) && p < |ms|
    ensures AllFit(ms[..p]) && AllFit(ms[..p + 1]) && EncodeAll(ms[..p + 1]) == EncodeAll(ms[..p]) + Encode(ms[p])
  {
    EncodeAllSnoc(ms[..p], ms[p]);
    assert ms[..p + 1] == ms[..p] + [ms[p]];
  }

  /** What a receiver that is `at` bytes into a frame reads next is the next part of that frame. */
  lemma FrameAhead(got: seq<byte>, before: seq<byte>, frame: seq<byte>, after: seq<byte>, at: nat, k: nat)
    requires got <= before + frame + after && |before| + at + k <= |got| && at + k <= |frame|
    ensures got[|before| + at..][..k] == frame[at..at + k]
  {
    var all := before + frame + after;
    var next, part := got[|before| + at..][..k], frame[at..at + k];
    forall j | 0 <= j < k
      ensures next[j] == part[j]
    {
      assert got[|before| + at + j] == all[|before| + at + j];
    }
  }

  lemma HeaderAhead(c: Chan)
    requires Inv(c) && Enabled(c, ReadHeader)
    ensures |c.decoded| < |c.enqueued| && HeaderValue(c.wire[..2]) == |c.enqueued[|c.decoded|]|
  {
    SentIsPrefix(c);
    var d := |c.decoded|;
    assert d == |c.enqueued| ==> c.decoded == c.enqueued;
    StreamAt(c.enqueued, d);
    assert c.enqueued[..d] == c.decoded;
    FrameAhead(c.transmitted, EncodeAll(c.decoded), Encode(c.enqueued[d]), EncodeAll(c.enqueued[d + 1..]), 0, 2);
    HeaderRoundTrip(c.enqueued[d]);
  }

  lemma BodyAhead(c: Chan)
    requires Inv(c) && Enabled(c, ReadBody)
    ensures |c.decoded| < |c.enqueued| && c.wire[..c.reader.n] == c.enqueued[|c.decoded|]
  {
    SentIsPrefix(c);
    var d := |c.decoded|;
    StreamAt(c.enqueued, d);
    assert c.enqueued[..d] == c.decoded;
    var frame, after := Encode(c.enqueued[d]), EncodeAll(c.enqueued[d + 1..]);
    FrameAhead(c.transmitted, EncodeAll(c.decoded), frame, after, 2, c.reader.n);
    HeaderRoundTrip(c.enqueued[d]);
  }

  lemma ReadHeaderKeeps(c: Chan)
    requires Inv(c) && Enabled(c, ReadHeader)
    ensures Inv(Apply(c, ReadHeader))
  {
    HeaderAhead(c);
  }

  lemma ReadBodyKeeps(c: Chan)
    requires Inv(c) && Enabled(c, ReadBody)
    ensures Inv(Apply(c, ReadBody))
  {
    BodyAhead(c);
    EncodeAllSnoc(c.decoded, c.enqueued[|c.decoded|]);
  }

  lemma StepKeepsInv(c: Chan, e: Event)
    requires Inv(c) && Enabled(c, e)
    ensures Inv(Apply(c, e))
  {
    match e
    case Send(m) => SendKeeps(c, m);
    case Transmit(k) =>
      TransmitKeepsWriter(c, k);
      TransmitKeepsReader(c, k);
    case Done => DoneKeeps(c);
    case Fail =>
    case ReadHeader => ReadHeaderKeeps(c);
    case ReadBody => ReadBodyKeeps(c);
  }

  lemma FailedStaysFailed(c: Chan, e: Event)
    requires Inv(c) && c.failed && Enabled(c, e)
    ensures Apply(c, e).failed && Apply(c, e).transmitted == c.transmitted
  {
  }

  ghost predicate Legal(c: Chan, events: seq<Event>)
    decreases |events|
  {
    events == [] || (Enabled(c, events[0]) && Legal(Apply(c, events[0]), events[1..]))
  }

  ghost function After(c: Chan, events: seq<Event>): (c': Chan)
    requires Legal(c, events)
    decreases |events|
  {
    if events == [] then c else After(Apply(c, events[0]), events[1..])
  }

  lemma {:induction false} RunKeepsInv(c: Chan, events: seq<Event>)
    requires Inv(c) && Legal(c, events)
    ensures Inv(After(c, events))
    decreases |events|
  {
    if events != [] {
      StepKeepsInv(c, events[0]);
      RunKeepsInv(Apply(c, events[0]), events[1..]);
    }
  }

  /** After a write error no write is ever in flight again and no further byte goes out, for the rest
      of any run. */
  lemma {:induction false} FailureIsFinal(c: Chan, events: seq<Event>)
    requires Inv(c) && c.failed && Legal(c, events)
    ensures After(c, events).failed && After(c, events).out.writing == []
    ensures After(c, events).transmitted == c.transmitted
    decreases |events|
  {
    if events != [] {
      FailedStaysFailed(c, events[0]);
      StepKeepsInv(c, events[0]);
      FailureIsFinal(Apply(c, events[0]), events[1..]);
    }
  }

  /** What has been decoded is a prefix of what was pushed; until a write fails, one is in flight
      exactly while the queue is non-empty and it carries the front; and what went out is a prefix
      of the encoded messages, in order, and includes every message that has left the queue. */
  ghost predicate InOrder(c: Chan)
  {
    && c.decoded <= c.enqueued
    && AllFit(c.enqueued) && c.transmitted <= EncodeAll(c.enqueued)
    && 0 <= Popped(c) && c.out.queue == c.enqueued[Popped(c)..]
    && EncodeAll(c.enqueued[..Popped(c)]) <= c.transmitted
    && (if c.failed || c.out.queue == [] then c.out.writing == []
        else |c.out.queue[0]| <= CONTENT_MAX && c.out.writing == [Encode(c.out.queue[0])])
  }

  lemma InvMeansInOrder(c: Chan)
    requires Inv(c)
    ensures InOrder(c)
  {
    SentIsPrefix(c);
    if c.out.queue == [] { assert c.enqueued[..Popped(c)] == c.enqueued; }
  }

  /** Every run keeps order, however the transport cuts the writes. */
  lemma DeliversInOrder(events: seq<Event>)
    requires Legal(Fresh(), events)
    ensures InOrder(After(Fresh(), events))
  {
    RunKeepsInv(Fresh(), events);
    InvMeansInOrder(After(Fresh(), events));
  }

  // ---- What the events alone say ----

  /** A count of the events, kept without looking at any queue or stream. */
  datatype Tally = Tally(sends: seq<Payload>, bytes: nat, dones: nat, failed: bool, headers: nat, bodies: nat)

  function Note(t: Tally, e: Event): (t': Tally)
  {
    match e
    case Send(m) => t.(sends := t.sends + [m])
    case Transmit(k) => t.(bytes := t.bytes + k)
    case Done => t.(dones := t.dones + 1)
    case Fail => t.(failed := true)
    case ReadHeader => t.(headers := t.headers + 1)
    case ReadBody => t.(bodies := t.bodies + 1)
  }

  function NoteAll(t: Tally, events: seq<Event>): (t': Tally)
    decreases |events|
  {
    if events == [] then t else NoteAll(Note(t, events[0]), events[1..])
  }

  function TallyOf(events: seq<Event>): (t: Tally)
  {
    NoteAll(Tally([], 0, 0, false, 0, 0), events)
  }

  /** The histories are what was counted: every send is enqueued, every byte taken is transmitted,
      every completed write has popped one message, every body read has delivered one. */
  ghost predicate Counted(c: Chan, t: Tally)
  {
    && c.enqueued == t.sends && |c.transmitted| == t.bytes && Popped(c) == t.dones && c.failed == t.failed
    && |c.decoded| == t.bodies && t.headers == t.bodies + (if c.reader.AtBody? then 1 else 0)
  }

  lemma StepIsCounted(c: Chan, t: Tally, e: Event)
    requires Enabled(c, e) && Counted(c, t)
    ensures Counted(Apply(c, e), Note(t, e))
  {
  }

  lemma {:induction false} RunIsCounted(c: Chan, t: Tally, events: seq<Event>)
    requires Legal(c, events) && Counted(c, t)
    ensures Counted(After(c, events), NoteAll(t, events))
    decreases |events|
  {
    if events != [] {
      StepIsCounted(c, t, events[0]);
      RunIsCounted(Apply(c, events[0]), Note(t, events[0]), events[1..]);
    }
  }

  lemma SamePrefix<T>(a: seq<T>, b: seq<T>, s: seq<T>)
    requires a <= s && b <= s && |a| == |b|
    ensures a == b
  {
    assert a == s[..|a|] && b == s[..|b|];
  }

  lemma TallyDeterminesState(c: Chan, d: Chan, t: Tally)
    requires Inv(c) && Inv(d) && Counted(c, t) && Counted(d, t)
    ensures c == d
  {
    SentIsPrefix(c);
    SentIsPrefix(d);
    SamePrefix(c.transmitted, d.transmitted, EncodeAll(c.enqueued));
    SamePrefix(c.decoded, d.decoded, c.enqueued);
    assert c.out.queue == d.out.queue;
    assert c.reader == d.reader;
  }

  /** The whole state is a function of the tally: every count is met, and two runs that count the same
      end in the same queue, write, stream and reader, however their events were interleaved. */
  lemma EventsDecideTheState(events: seq<Event>, others: seq<Event>)
    requires Legal(Fresh(), events)
    ensures Counted(After(Fresh(), events), TallyOf(events))
    ensures Legal(Fresh(), others) && TallyOf(others) == TallyOf(events) ==>
              After(Fresh(), others) == After(Fresh(), events)
  {
    var zero := Tally([], 0, 0, false, 0, 0);
    RunIsCounted(Fresh(), zero, events);
    if Legal(Fresh(), others) && TallyOf(others) == TallyOf(events) {
      RunIsCounted(Fresh(), zero, others);
      RunKeepsInv(Fresh(), events);
      RunKeepsInv(Fresh(), others);
      TallyDeterminesState(After(Fresh(), others), After(Fresh(), events), TallyOf(events));
    }
  }

  // ---- Nothing gets stuck ----

  /** Pushes come from outside and failures need not happen; the other events are the channel's own
      work. */
  predicate Work(e: Event)
  {
    !e.Send? && e != Fail
  }

  /** The next piece of work, as long as a message is undelivered and no write has failed. */
  ghost function NextWork(c: Chan): (e: Event)
    requires Inv(c) && !c.failed && c.decoded != c.enqueued
    ensures Work(e)
  {
    if c.out.queue != [] then
      if c.sent < |c.out.writing[0]| then Transmit(|c.out.writing[0]| - c.sent) else Done
    else if c.reader == AtHeader then ReadHeader
    else ReadBody
  }

  /** Bytes still to transmit, messages still to pop, reads still to make. */
  ghost function Backlog(c: Chan): (n: nat)
    requires Inv(c)
  {
    SentIsPrefix(c);
    |EncodeAll(c.enqueued)| - |c.transmitted| + |c.out.queue| + 2 * (|c.enqueued| - |c.decoded|)
      - (if c.reader.AtBody? then 1 else 0)
  }

  lemma WorkIsEnabled(c: Chan)
    requires Inv(c) && !c.failed && c.decoded != c.enqueued
    ensures Enabled(c, NextWork(c))
  {
    if c.out.queue == [] {
      var d := |c.decoded|;
      assert d == |c.enqueued| ==> c.decoded == c.enqueued;
      StreamAt(c.enqueued, d);
      assert c.enqueued[..d] == c.decoded;
    }
  }

  lemma WorkShrinksBacklog(c: Chan)
    requires Inv(c) && !c.failed && c.decoded != c.enqueued && Enabled(c, NextWork(c))
    ensures
      var c' := Apply(c, NextWork(c));
      && Inv(c') && !c'.failed && c'.enqueued == c.enqueued
      && Backlog(c') < Backlog(c)
  {
    StepKeepsInv(c, NextWork(c));
  }

  /** From every state without a write error, the channel's own steps alone deliver everything that
      was ever pushed: nothing is lost and nothing gets stuck. */
  lemma {:induction false} EverythingCanBeDelivered(c: Chan) returns (events: seq<Event>)
    requires Inv(c) && !c.failed
    ensures forall i :: 0 <= i < |events| ==> Work(events[i])
    ensures Legal(c, events) && After(c, events).decoded == c.enqueued
    decreases Backlog(c)
  {
    if c.decoded == c.enqueued {
      events := [];
    } else {
      WorkIsEnabled(c);
      WorkShrinksBacklog(c);
      var e := NextWork(c);
      var rest := EverythingCanBeDelivered(Apply(c, e));
      StepFirst(c, e, rest);
      events := [e] + rest;
    }
  }

  /** A run is its first step and then the rest. */
  lemma StepFirst(c: Chan, e: Event, rest: seq<Event>)
    requires Enabled(c, e) && Legal(Apply(c, e), rest)
    ensures Legal(c, [e] + rest) && After(c, [e] + rest) == After(Apply(c, e), rest)
  {
    var events := [e] + rest;
    assert events[0] == e && events[1..] == rest;
  }

  lemma OneStep(c: Chan, e: Event)
    requires Enabled(c, e)
    ensures Legal(c, [e]) && After(c, [e]) == Apply(c, e)
  {
    StepFirst(c, e, []);
    assert [e] + [] == [e];
  }

  /** One run after another is a run. */
  lemma {:induction false} RunThen(c: Chan, es: seq<Event>, fs: seq<Event>)
    requires Legal(c, es) && Legal(After(c, es), fs)
    ensures Legal(c, es + fs) && After(c, es + fs) == After(After(c, es), fs)
    decreases |es|
  {
    if es == [] {
      assert es + fs == fs;
    } else {
      RunThen(Apply(c, es[0]), es[1..], fs);
      StepFirst(c, es[0], es[1..] + fs);
      assert es + fs == [es[0]] + (es[1..] + fs);
    }
  }

  lemma TwoSteps(c: Chan, e: Event, f: Event)
    requires Enabled(c, e) && Enabled(Apply(c, e), f)
    ensures Legal(c, [e, f]) && After(c, [e, f]) == Apply(Apply(c, e), f)
  {
    OneStep(Apply(c, e), f);
    StepFirst(c, e, [f]);
    assert [e] + [f] == [e, f];
  }

  /** A header read that returns after one byte, as `async_read_some` is allowed to: the cleared
      second byte of the header stays zero. */
  ghost function ShortHeaderRead(c: Chan): (c': Chan)
    requires c.reader == AtHeader && 1 <= |c.wire|
  {
    c.(reader := AtBody(HeaderValue([c.wire[0], 0])), wire := c.wire[1..])
  }

  /** Reads that fill their buffer are not just convenient: one short header read and the reader
      delivers a message nobody sent. */
  lemma ShortReadBreaksFraming(b: byte)
    ensures
      var events := [Send([b]), Transmit(3)];
      && Legal(Fresh(), events)
      && var c := After(Fresh(), events);
         && c.reader == AtHeader && 1 <= |c.wire|
         && Enabled(ShortHeaderRead(c), ReadBody)
         && !(Apply(ShortHeaderRead(c), ReadBody).decoded <= c.enqueued)
  {
    var c1 := Apply(Fresh(), Send([b]));
    assert Encode([b]) == [0, 1, b] && c1.out.writing == [Encode([b])];
    var c2 := Apply(c1, Transmit(3));
    TwoSteps(Fresh(), Send([b]), Transmit(3));
    assert c2.wire == [0, 1, b];
    var c3 := ShortHeaderRead(c2);
    assert c3.reader == AtBody(0);
    assert Apply(c3, ReadBody).decoded == [[]];
    assert c2.enqueued == [[b]] && [[]][0] != [[b]][0];
  }
}
