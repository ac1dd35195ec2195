/**
 * `CloudVoIPServer`'s tables as fields updated in place, one method per
 * handler. Each method is proved to take the tables exactly where the
 * matching function of `ServerSpec` says, and to keep `Inv`.
 */
module Server {
  import opened Common
  import opened Framing
  import opened AudioHeader
  import opened ServerSpec

  class RelayServer {
    var clients: map<Option<Id>, ClientInfo>
    var sockets: map<Option<Id>, Conn>
    var learned: map<Id, Addr>          // client_audio_addrs
    var rooms: map<Text, seq<Option<Id>>>
    var calls: map<Text, CallRecord>
    var sent: seq<Sent>                 // everything written to control sockets
    var relayed: seq<Relayed>           // everything sent from the audio socket

    ghost function Model(): State
      reads this
    {
      State(clients, sockets, learned, rooms, calls, sent, relayed)
    }

    ghost predicate Valid()
      reads this
    {
      Inv(Model())
    }

    constructor()
      ensures Model() == Initial() && Valid()
    {
      clients := map[];
      sockets := map[];
      learned := map[];
      rooms := map[];
      calls := map[];
      sent := [];
      relayed := [];
    }

    /** `forward_audio`. */
    method ForwardAudio(source: Id, target: Id, payload: seq<byte>)
      modifies this
      ensures Model() == Forward(old(Model()), source, target, payload)
    {
      if |payload| > 0 {
        var to: Option<Addr> := None;
        if target in learned {
          to := Some(learned[target]);
        } else if Some(target) in clients {
          var info := clients[Some(target)];
          if info.status == Online && PortSet(info.audioPort) {
            to := Some(Addr(info.addr.ip, info.audioPort.value));
          }
        }
        if to.Some? {
          var packet := Pad16(source) + Pad16(target) + payload;
          relayed := relayed + [Relayed(to.value, packet)];
        }
      }
    }

    /** One datagram through `audio_relay_thread`; `data` is the datagram
        as sent, of which `recvfrom(4096)` delivers `InBuffer(data)`. */
    method ReceiveDatagram(data: seq<byte>, from: Addr)
      requires Valid()
      modifies this
      ensures Model() == Relay(old(Model()), data, from)
      ensures Valid()
    {
      var got := InBuffer(data);
      if |got| > HEADER_SIZE {
        var source := RStripNul(got[..ID_FIELD]);
        var target := RStripNul(got[ID_FIELD..HEADER_SIZE]);
        if Utf8Valid(source) && Utf8Valid(target) {
          if source != [] {
            learned := learned[source := from];
          }
          ForwardAudio(source, target, got[HEADER_SIZE..]);
        }
      }
    }

    /** The refresh at the top of each message: a truthy id gets a fresh
        entry with no name and no audio port. */
    method RefreshEntry(id: Option<Id>, addr: Addr, conn: Conn, now: nat)
      requires Valid()
      modifies this
      ensures Model() == Refresh(old(Model()), id, addr, conn, now)
      ensures Valid()
    {
      if Truthy(id) {
        clients := clients[id := ClientInfo(None, addr, None, conn, now, Online)];
        sockets := sockets[id := conn];
      }
    }

    /** `handle_client_register`. */
    method HandleRegister(id: Option<Id>, name: Option<Text>, audioPort: Option<int>,
                          addr: Addr, conn: Conn, now: nat)
      requires Valid()
      modifies this
      ensures Model() == RegisterClient(old(Model()), id, name, audioPort, addr, conn, now)
      ensures Valid()
    {
      var shown := if name.Some? then name.value else CLIENT_PREFIX + Render(id);
      clients := clients[id := ClientInfo(Some(shown), addr, audioPort, conn, now, Online)];
      sockets := sockets[id := conn];
      sent := sent + [Sent(conn, RegisterResponse(id))];
    }

    /** `handle_broadcast_message`: walks the registry in some order and
        reports the order it took. */
    method HandleBroadcast(sender: Option<Id>, content: Text) returns (order: seq<Option<Id>>)
      requires Valid()
      modifies this
      ensures Enumerates(order, BroadcastTargets(old(clients), sender))
      ensures Model() == BroadcastAll(old(Model()), sender, content, order)
      ensures Valid()
    {
      var note := BroadcastNote(sender, content);
      var pending := clients.Keys;
      order := [];
      while pending != {}
        invariant Model() == old(Model()).(sent := sent)
        invariant Broadcasting(clients, sender, note, pending, order, old(sent), sent)
        decreases pending
      {
        var k :| k in pending;
        BroadcastNext(clients, sender, note, pending, order, old(sent), sent, k);
        if k != sender && clients[k].status == Online {
          order := order + [k];
          sent := sent + [Sent(clients[k].conn, note)];
        }
        pending := pending - {k};
      }
    }

    /** `handle_private_message`. */
    method HandlePrivate(sender: Option<Id>, target: Option<Id>, content: Text)
      requires Valid()
      modifies this
      ensures Model() == PrivateTo(old(Model()), sender, target, content)
      ensures Valid()
    {
      if target in clients && clients[target].status == Online {
        sent := sent + [Sent(clients[target].conn, PrivateNote(sender, content))];
      }
    }

    /** `handle_call_request`. */
    method HandleCallRequest(caller: Option<Id>, target: Option<Id>, now: nat)
      requires Valid()
      modifies this
      ensures Model() == RequestCall(old(Model()), caller, target, now)
      ensures Valid()
    {
      if !Truthy(target) {
        return;
      }
      var callee := target.value;
      var id := Render(caller) + [UNDERSCORE] + callee + [UNDERSCORE] + DecimalText(now);
      calls := calls[id := CallRecord(caller, callee, Requesting, now)];
      if target in clients && clients[target].status == Online {
        sent := sent + [Sent(clients[target].conn, CallOffer(id, caller))];
      }
    }

    /** `handle_call_answer`. */
    method HandleCallAnswer(answerer: Option<Id>, callId: Option<Text>, accepted: bool)
      requires Valid()
      modifies this
      ensures Model() == AnswerCall(old(Model()), answerer, callId, accepted)
      ensures Valid()
    {
      if !Truthy(callId) || callId.value !in calls {
        return;
      }
      var id := callId.value;
      var rec := calls[id];
      calls := calls[id := rec.(status := if accepted then Active else Rejected)];
      if rec.caller in clients {
        sent := sent + [Sent(clients[rec.caller].conn, CallAnswered(id, accepted, answerer))];
      }
    }

    /** `handle_call_hangup`. */
    method HandleCallHangup(sender: Option<Id>, callId: Option<Text>)
      requires Valid()
      modifies this
      ensures Model() == HangupCall(old(Model()), sender, callId)
      ensures Valid()
    {
      if !Truthy(callId) || callId.value !in calls {
        return;
      }
      var id := callId.value;
      var rec := calls[id];
      var other := if sender == rec.caller then Some(rec.callee) else rec.caller;
      if other in clients {
        sent := sent + [Sent(clients[other].conn, CallEnded(id, sender))];
      }
      calls := calls - {id};
    }

    /** `handle_join_room`. */
    method HandleJoinRoom(member: Option<Id>, roomId: Option<Text>)
      requires Valid()
      modifies this
      ensures Model() == Join(old(Model()), member, roomId)
      ensures Valid()
    {
      if !Truthy(roomId) {
        return;
      }
      var room := roomId.value;
      ghost var before := rooms;
      if room !in rooms {
        rooms := rooms[room := []];
      }
      if member !in rooms[room] {
        UpdateTwice(before, room, rooms[room], rooms[room] + [member]);
        rooms := rooms[room := rooms[room] + [member]];
      } else {
        UpdateSame(rooms, room);
      }
    }

    /** `handle_leave_room`. */
    method HandleLeaveRoom(member: Option<Id>, roomId: Option<Text>)
      requires Valid()
      modifies this
      ensures Model() == Leave(old(Model()), member, roomId)
      ensures Valid()
    {
      if !Truthy(roomId) {
        return;
      }
      var room := roomId.value;
      if room in rooms && member in rooms[room] {
        var left := RemoveFirst(rooms[room], member);
        if left == [] {
          rooms := rooms - {room};
        } else {
          rooms := rooms[room := left];
        }
      }
    }

    /** `handle_get_clients`: builds the list in some walk of the registry
        and reports the order it took. */
    method HandleGetClients(conn: Conn) returns (order: seq<Option<Id>>)
      requires Valid()
      modifies this
      ensures Enumerates(order, old(clients).Keys)
      ensures Model() == ListClients(old(Model()), conn, order)
      ensures Valid()
    {
      var pending := clients.Keys;
      var list: seq<ListEntry> := [];
      order := [];
      while pending != {}
        invariant Model() == old(Model())
        invariant pending <= clients.Keys
        invariant NoDup(order)
        invariant forall k :: k in order <==> k in clients && k !in pending
        invariant list == Entries(clients, order)
        decreases pending
      {
        var k :| k in pending;
        var info := clients[k];
        EntriesAppend(clients, order, k);
        AppendFresh(order, k);
        list := list + [ListEntry(k, if info.name.Some? then info.name else k,
                                  info.status, info.lastSeen, info.audioPort, info.addr)];
        order := order + [k];
        pending := pending - {k};
      }
      sent := sent + [Sent(conn, ClientList(list))];
    }

    /** `process_message`. */
    method ProcessMessage(m: Message, conn: Conn, addr: Addr, connId: Option<Id>, now: nat)
      returns (order: seq<Option<Id>>)
      requires Valid()
      modifies this
      ensures OrderFits(old(Model()), m, connId, order)
      ensures Model() == Process(old(Model()), m, conn, addr, connId, now, order)
      ensures Valid()
    {
      order := [];
      match m.body {
        case Register(name, port) => HandleRegister(m.clientId, name, port, addr, conn, now);
        case Broadcast(content) => order := HandleBroadcast(connId, content);
        case Private(target, content) => HandlePrivate(connId, target, content);
        case CallRequest(target) => HandleCallRequest(connId, target, now);
        case CallAnswer(callId, accepted) => HandleCallAnswer(connId, callId, accepted);
        case CallHangup(callId) => HandleCallHangup(connId, callId);
        case JoinRoom(roomId) => HandleJoinRoom(connId, roomId);
        case LeaveRoom(roomId) => HandleLeaveRoom(connId, roomId);
        case GetClients => order := HandleGetClients(conn);
        case Unknown =>
      }
    }

    /** One decoded message on a connection whose id so far is `connId`:
        take the message's `client_id` if it has one, refresh, dispatch. */
    method HandleMessage(m: Message, conn: Conn, addr: Addr, connId: Option<Id>, now: nat)
      returns (id: Option<Id>, order: seq<Option<Id>>)
      requires Valid()
      modifies this
      ensures id == NextId(connId, m)
      ensures OrderFits(Refresh(old(Model()), id, addr, conn, now), m, id, order)
      ensures Model() == Handle(old(Model()), m, conn, addr, connId, now, order)
      ensures Valid()
    {
      id := if m.clientId.Some? then m.clientId else connId;
      RefreshEntry(id, addr, conn, now);
      order := ProcessMessage(m, conn, addr, id, now);
    }

    /** The `finally` of `handle_message_client`. */
    method Cleanup(id: Option<Id>)
      requires Valid()
      modifies this
      ensures Model() == Disconnect(old(Model()), id)
      ensures Valid()
    {
      if Truthy(id) {
        if id in clients {
          clients := clients - {id};
        } else {
          RemoveAbsent(clients, id);
        }
        if id in sockets {
          sockets := sockets - {id};
        } else {
          RemoveAbsent(sockets, id);
        }
        if id.value in learned {
          learned := learned - {id.value};
        } else {
          RemoveAbsent(learned, id.value);
        }
      }
    }

    /** `handle_message_client` over everything one connection delivers:
        read the frames, handle each message that decodes (message `k` at
        second `clock(k)`), stop at the first body whose decoding fails,
        then clean up the id the connection ended with. */
    method ServeConnection(conn: Conn, addr: Addr, stream: seq<byte>,
                           decode: seq<byte> -> Decoding<Message>, clock: nat -> nat)
      returns (connId: Option<Id>, orders: seq<seq<Option<Id>>>)
      requires Valid()
      modifies this
      ensures var msgs := Decoded(Frames(stream).bodies, decode);
              && |orders| == |msgs|
              && OrdersFit(old(Model()), msgs, conn, addr, clock, orders)
              && connId == Serve(old(Model()), msgs, conn, addr, clock, orders).1
              && Model() == Disconnect(Serve(old(Model()), msgs, conn, addr, clock, orders).0, connId)
      ensures Valid()
    {
      var bodies, _ := ReadFrames(stream);
      connId, orders := ServeBodies(conn, addr, bodies, decode, clock);
      Cleanup(connId);
    }

    /** The handling half of `handle_message_client`: each body that
        decodes is handled, a malformed one is skipped, and the first body
        whose decoding fails ends the loop. */
    method ServeBodies(conn: Conn, addr: Addr, bodies: seq<seq<byte>>,
                       decode: seq<byte> -> Decoding<Message>, clock: nat -> nat)
      returns (connId: Option<Id>, orders: seq<seq<Option<Id>>>)
      requires Valid()
      modifies this
      ensures Valid() && Served(old(Model()), Decoded(bodies, decode), conn, addr, clock, orders, Model(), connId)
    {
      ghost var st0 := Model();
      connId := None;
      orders := [];
      ghost var msgs: seq<Message> := [];
      var i := 0;
      while i < |bodies| && !decode(bodies[i]).Fail?
        invariant Valid() && DecodedSoFar(bodies, i, decode, msgs)
        invariant Served(st0, msgs, conn, addr, clock, orders, Model(), connId)
      {
        connId, orders, msgs := ServeAt(bodies, i, decode, conn, addr, connId, clock, st0, msgs, orders);
        i := i + 1;
      }
      DecodeDone(bodies, i, decode, msgs);
    }

    /** The body at index `i`, which does not end the loop: handled if it
        decodes to a message, skipped otherwise. */
    method ServeAt(bodies: seq<seq<byte>>, i: nat, decode: seq<byte> -> Decoding<Message>,
                   conn: Conn, addr: Addr, id: Option<Id>, clock: nat -> nat,
                   ghost st0: State, ghost msgs: seq<Message>, orders: seq<seq<Option<Id>>>)
      returns (next: Option<Id>, orders': seq<seq<Option<Id>>>, ghost msgs': seq<Message>)
      requires i < |bodies| && !decode(bodies[i]).Fail?
      requires Valid() && DecodedSoFar(bodies, i, decode, msgs)
      requires Served(st0, msgs, conn, addr, clock, orders, Model(), id)
      modifies this
      ensures Valid() && DecodedSoFar(bodies, i + 1, decode, msgs')
      ensures Served(st0, msgs', conn, addr, clock, orders', Model(), next)
    {
      DecodeNext(bodies, i, decode, msgs);
      var d := decode(bodies[i]);
      if d.Good? {
        var order;
        next, order := ServeNext(d.msg, conn, addr, id, clock, st0, msgs, orders);
        orders', msgs' := orders + [order], msgs + [d.msg];
      } else {
        next, orders', msgs' := id, orders, msgs;
      }
    }

    /** One decoded message through `handle_message`, at the time the
        clock gives for it, as the next step of the connection's fold. */
    method ServeNext(m: Message, conn: Conn, addr: Addr, id: Option<Id>, clock: nat -> nat,
                     ghost st0: State, ghost msgs: seq<Message>, orders: seq<seq<Option<Id>>>)
      returns (next: Option<Id>, order: seq<Option<Id>>)
      requires Valid() && Served(st0, msgs, conn, addr, clock, orders, Model(), id)
      modifies this
      ensures Valid() && Served(st0, msgs + [m], conn, addr, clock, orders + [order], Model(), next)
    {
      ghost var before := Model();
      next, order := HandleMessage(m, conn, addr, id, clock(|orders|));
      ServeStep(st0, msgs, m, conn, addr, clock, orders, order, before, id);
    }
  }

  lemma RemoveAbsent<K, V>(m: map<K, V>, k: K)
    requires k !in m
    ensures m - {k} == m
  {
  }

  lemma UpdateSame<K, V>(m: map<K, V>, k: K)
    requires k in m
    ensures m[k := m[k]] == m
  {
  }

  lemma UpdateTwice<K, V>(m: map<K, V>, k: K, a: V, b: V)
    ensures m[k := a][k := b] == m[k := b]
  {
  }

  /** A broadcast loop with `pending` still to visit has sent `note`, in
      the order listed, to every target visited so far. */
  ghost predicate Broadcasting(clients: map<Option<Id>, ClientInfo>, sender: Option<Id>, note: Outgoing,
                               pending: set<Option<Id>>, order: seq<Option<Id>>, sent0: seq<Sent>, sent: seq<Sent>)
  {
    && pending <= clients.Keys
    && NoDup(order)
    && (forall k :: k in order <==> k in BroadcastTargets(clients, sender) && k !in pending)
    && sent == sent0 + Deliver(clients, order, note)
  }

  /** Visiting one more key: a target is sent the note and listed. */
  lemma BroadcastNext(clients: map<Option<Id>, ClientInfo>, sender: Option<Id>, note: Outgoing,
                      pending: set<Option<Id>>, order: seq<Option<Id>>, sent0: seq<Sent>, sent: seq<Sent>,
                      k: Option<Id>)
    requires Broadcasting(clients, sender, note, pending, order, sent0, sent) && k in pending
    ensures k in clients
    ensures k != sender && clients[k].status == Online ==>
              Broadcasting(clients, sender, note, pending - {k}, order + [k], sent0,
                           sent + [Sent(clients[k].conn, note)])
    ensures !(k != sender && clients[k].status == Online) ==>
              Broadcasting(clients, sender, note, pending - {k}, order, sent0, sent)
  {
    if k != sender && clients[k].status == Online {
      DeliverAppend(clients, order, k, note);
      AppendFresh(order, k);
    }
  }

  /** Appending an element not yet listed keeps a list duplicate-free. */
  lemma AppendFresh<T>(xs: seq<T>, x: T)
    requires NoDup(xs) && x !in xs
    ensures NoDup(xs + [x])
  {
  }

  /** The fold of a connection so far: `orders` fit and the messages
      take `st0` to `st` and the connection to `id`. */
  ghost predicate Served(st0: State, msgs: seq<Message>, conn: Conn, addr: Addr, clock: nat -> nat,
                         orders: seq<seq<Option<Id>>>, st: State, id: Option<Id>)
  {
    && |orders| == |msgs|
    && OrdersFit(st0, msgs, conn, addr, clock, orders)
    && Serve(st0, msgs, conn, addr, clock, orders) == (st, id)
  }

  /** One more message extends the fold of a connection. */
  lemma ServeStep(st0: State, msgs: seq<Message>, m: Message, conn: Conn, addr: Addr, clock: nat -> nat,
                  orders: seq<seq<Option<Id>>>, order: seq<Option<Id>>, before: State, beforeId: Option<Id>)
    requires Served(st0, msgs, conn, addr, clock, orders, before, beforeId)
    requires OrderFits(Refresh(before, NextId(beforeId, m), addr, conn, clock(|msgs|)), m, NextId(beforeId, m), order)
    ensures Served(st0, msgs + [m], conn, addr, clock, orders + [order],
                   Handle(before, m, conn, addr, beforeId, clock(|msgs|), order), NextId(beforeId, m))
  {
    var ms, os := msgs + [m], orders + [order];
    assert ms[..|msgs|] == msgs && ms[|msgs|] == m;
    assert os[..|orders|] == orders && os[|orders|] == order;
    assert Serve(st0, ms, conn, addr, clock, os)
        == (Handle(before, m, conn, addr, beforeId, clock(|msgs|), order), NextId(beforeId, m));
  }
}
