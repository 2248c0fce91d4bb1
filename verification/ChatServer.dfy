/** The server's objects: connections with their send queues, and the connection table. Each handler
    is proved to make exactly the step that the protocol model of Channel and ChatRoom takes. */
module ChatServer {
  import opened Common
  import opened Wire
  import opened Channel
  import opened Announcement

  class Connection {
    var id: int
    var open: bool
    var queue: seq<Payload>
    var writing: seq<seq<byte>>
    /** The read in progress; None once the socket was found closed. */
    var reading: Option<Reader>

    ghost predicate Valid()
      reads this
    {
      AllFit(queue)
    }

    ghost function Out(): (o: Outbox)
      reads this
    {
      Outbox(queue, writing)
    }

    constructor ()
      ensures Valid() && id == -1 && open && Out() == Fresh().out && reading == Some(Fresh().reader)
    {
      id, open, queue, writing, reading := -1, true, [], [], Some(AtHeader);
    }

    method HandleError()
      modifies this`open
      ensures !open
    {
      if !open {
        return;
      }
      open := false;
    }

    method DoWrite()
      requires Valid() && queue != []
      modifies this`writing
      ensures Out() == StartWrite(old(Out()))
    {
      var front := new Message();
      front.SetContent(queue[0]);
      var buf := front.GetBuf();
      writing := writing + [buf];
    }

    method SendMsgToClient(msg: seq<byte>)
      requires Valid() && |msg| <= CONTENT_MAX
      modifies this`queue, this`writing
      ensures Valid() && Out() == Pushed(old(Out()), msg)
    {
      var sendBack := new Message();
      sendBack.SetContent(msg);
      var content := sendBack.GetContent();
      var isWriting := queue != [];
      queue := queue + [content];
      if !isWriting {
        DoWrite();
      }
    }

    /** The write completion handler. */
    method OnWrite(failed: bool)
      requires Valid() && queue != [] && writing != []
      modifies this`queue, this`writing, this`open
      ensures Valid()
      ensures Out() == if failed then WriteFailed(old(Out())) else Written(old(Out()))
      ensures open == (old(open) && !failed)
    {
      writing := writing[1..];
      if failed {
        HandleError();
        return;
      }
      queue := queue[1..];
      if queue != [] {
        DoWrite();
      }
    }

    /** `read_header`: starts a read unless the socket is closed. */
    method ReadHeader()
      modifies this`reading
      ensures reading == if open then Some(AtHeader) else None
    {
      reading := None;
      if !open {
        return;
      }
      reading := Some(AtHeader);
    }

    /** The header read handler, given the two bytes that arrived: the next read wants the body. */
    method OnHeader(bytes: seq<byte>)
      requires reading == Some(AtHeader) && |bytes| == 2
      modifies this`reading
      ensures reading == if open then Some(AtBody(HeaderValue(bytes))) else None
    {
      reading := None;
      if !open {
        return;
      }
      reading := Some(AtBody(HeaderValue(bytes)));
    }
  }

  class Server {
    var nextId: int
    var conns: map<int, Connection>

    /** Keys are ids below the next one, so different keys hold different connections. */
    ghost predicate Valid()
      reads this, conns.Values
    {
      && 0 <= nextId <= INT32_MAX
      && forall k :: k in conns ==> 0 <= k < nextId && conns[k].id == k && conns[k].Valid()
    }

    constructor ()
      ensures Valid() && nextId == 0 && conns == map[]
    {
      nextId, conns := 0, map[];
    }

    /** Every connection in the table, in the order of its ids, takes the same push; nothing else
        changes. */
    method Broadcast(msg: seq<byte>)
      requires Valid() && |msg| <= CONTENT_MAX
      modifies conns.Values
      ensures Valid()
      ensures forall k :: k in conns ==> conns[k].Out() == Pushed(old(conns[k].Out()), msg)
      ensures forall k :: k in conns ==>
        conns[k].open == old(conns[k].open) && conns[k].reading == old(conns[k].reading)
    {
      for next := 0 to nextId
        invariant Valid()
        invariant forall k :: k in conns ==>
          conns[k].Out() == if k < next then Pushed(old(conns[k].Out()), msg) else old(conns[k].Out())
        invariant forall k :: k in conns ==>
          conns[k].open == old(conns[k].open) && conns[k].reading == old(conns[k].reading)
      {
        if next in conns {
          conns[next].SendMsgToClient(msg);
        }
      }
    }

    /** The body read handler of connection `k`: the announcement goes to everybody in the table,
        whether or not the sender's socket is still open, and the next header is awaited if it is. */
    method OnBody(k: int, body: seq<byte>)
      requires Valid() && k in conns && conns[k].reading == Some(AtBody(|body|))
      requires |Announce(k, body)| <= CONTENT_MAX
      modifies conns.Values
      ensures Valid()
      ensures forall j :: j in conns ==> conns[j].Out() == Pushed(old(conns[j].Out()), Announce(k, body))
      ensures conns[k].reading == if conns[k].open then Some(AtHeader) else None
      ensures forall j :: j in conns ==> conns[j].open == old(conns[j].open)
      ensures forall j :: j in conns && j != k ==> conns[j].reading == old(conns[j].reading)
    {
      Broadcast(Announce(conns[k].id, body));
      conns[k].ReadHeader();
    }

    /** The accepted connection gets the next id; an occupied id would leave it out. */
    method AddConn(c: Connection)
      requires Valid() && nextId < INT32_MAX && c !in conns.Values && c.Valid()
      modifies this, c`id
      ensures Valid() && nextId == old(nextId) + 1 && c.id == old(nextId)
      ensures old(nextId) !in old(conns) && conns == old(conns)[old(nextId) := c]
    {
      if nextId in conns {
        return;
      }
      c.id := nextId;
      nextId := nextId + 1;
      conns := conns[c.id := c];
    }

    method RemoveConn(k: int)
      requires Valid()
      modifies this`conns
      ensures Valid() && conns == old(conns) - {k}
    {
      if k in conns {
        conns := conns - {k};
      }
    }

    /** One sweep of `loop`: collect the closed connections, then erase them by id. */
    method Sweep()
      requires Valid()
      modifies this`conns
      ensures Valid()
      ensures forall k :: k in conns <==> k in old(conns) && old(conns)[k].open
      ensures forall k :: k in conns ==> conns[k] == old(conns)[k]
    {
      ghost var table := conns;
      var invalid: seq<Connection> := [];
      for next := 0 to nextId
        invariant conns == table && Valid()
        invariant forall c :: c in invalid ==> c.id in table && table[c.id] == c && !c.open
        invariant forall k :: k in table && k < next && !table[k].open ==> table[k] in invalid
      {
        if next in conns {
          if !conns[next].open {
            invalid := invalid + [conns[next]];
          }
        }
      }
      for i := 0 to |invalid|
        invariant Valid() && conns.Keys <= table.Keys
        invariant forall k :: k in conns ==> conns[k] == table[k]
        invariant forall k :: k in table ==> (k in conns <==> table[k] !in invalid[..i])
        invariant forall c :: c in invalid ==> c.id in table && table[c.id] == c && !c.open
        invariant forall k :: k in table && !table[k].open ==> table[k] in invalid
      {
        assert invalid[..i + 1] == invalid[..i] + [invalid[i]];
        assert invalid[i] in invalid;
        RemoveConn(invalid[i].id);
      }
      assert invalid[..|invalid|] == invalid;
    }
  }
}
