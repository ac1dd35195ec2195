/**
 * The client's session state (`CloudVoIPClient`) and what each of its
 * operations and message handlers does to it, as functions from one
 * `Session` to the next. Writes to the message socket are recorded as
 * the messages sent and the bytes on the wire; audio datagrams sent and
 * payloads played are recorded too.
 */
module ClientSpec {
  import opened Common
  import opened Framing
  import opened AudioHeader
  import opened ServerSpec

  /** What stays fixed for a client: its id, its name, the JSON encoder
      (`json.dumps(...).encode('utf-8')`) and whether audio works. */
  datatype Config = Config(id: Id, name: Text, encode: Message -> seq<byte>, audio: bool)

  predicate IsHexDigit(b: byte)
  {
    48 <= b <= 57 || 97 <= b <= 102
  }

  /** `str(uuid.uuid4())[:8]`: eight lower-case hex digits. */
  predicate IdShape(id: Id)
  {
    |id| == 8 && forall i :: 0 <= i < |id| ==> IsHexDigit(id[i])
  }

  /** Such an id fits the audio header and cannot blur a call id. */
  lemma IdShapeFits(id: Id)
    requires IdShape(id)
    ensures id != [] && FitsField(id) && NoUnderscore(id)
  {
    AsciiIsUtf8(id);
  }

  datatype CurrentCall = CurrentCall(id: Text, peer: Option<Id>)

  datatype Session = Session(
    socketOpen: bool,                      // message_socket is set
    connected: bool,
    currentCall: Option<CurrentCall>,
    pending: map<Text, Option<Id>>,        // pending_calls: call id to caller
    peers: map<Option<Id>, ListEntry>,     // online_clients
    sent: seq<Message>,                    // messages written, client_id included
    wire: seq<byte>,                       // the bytes written to the message socket
    audioOut: seq<seq<byte>>,              // datagrams sent to the relay
    played: seq<seq<byte>>)                // audio written to the output stream

  function Fresh(): Session
  {
    Session(false, false, None, map[], map[], [], [], [], [])
  }

  /** The bodies of the messages sent, in order. */
  function Bodies(c: Config, sent: seq<Message>): (r: seq<seq<byte>>)
    ensures |r| == |sent| && forall i :: 0 <= i < |sent| ==> r[i] == c.encode(sent[i])
    decreases |sent|
  {
    if sent == [] then [] else Bodies(c, sent[..|sent| - 1]) + [c.encode(sent[|sent| - 1])]
  }

  /** What every reachable session satisfies: the wire is exactly the
      framed messages sent, each of which names a client, and the peer
      cache never holds the client itself. */
  predicate Inv(c: Config, s: Session)
  {
    && Encodable(Bodies(c, s.sent))
    && s.wire == EncodeAll(Bodies(c, s.sent))
    && (forall i :: 0 <= i < |s.sent| ==> s.sent[i].clientId.Some?)
    && (forall k :: k in s.peers ==> k != Some(c.id) && s.peers[k].id == k)
  }

  lemma FreshInv(c: Config)
    ensures Inv(c, Fresh())
  {
  }

  // ---------------------------------------------------------------------
  // Sending
  // ---------------------------------------------------------------------

  /** `if 'client_id' not in message: message['client_id'] = self.client_id`. */
  function Stamp(c: Config, m: Message): (r: Message)
    ensures r.body == m.body && r.clientId.Some?
    ensures m.clientId.None? ==> r.clientId == Some(c.id)
    ensures m.clientId.Some? ==> r == m
  {
    if m.clientId.None? then m.(clientId := Some(c.id)) else m
  }

  /** `send_message` succeeds when the socket exists and `struct.pack`
      can encode the body's length. */
  predicate Sendable(c: Config, s: Session, m: Message)
  {
    s.socketOpen && |c.encode(Stamp(c, m))| < TWO_32
  }

  function Send(c: Config, s: Session, m: Message): (r: Session)
    ensures !Sendable(c, s, m) ==> r == s
    ensures Sendable(c, s, m) ==> r.(sent := s.sent, wire := s.wire) == s && r.sent == s.sent + [Stamp(c, m)]
    ensures Sendable(c, s, m) ==> var body := c.encode(Stamp(c, m));
              && |r.wire| == |s.wire| + 4 + |body| && r.wire[..|s.wire|] == s.wire
              && ReadLe32(r.wire[|s.wire|..|s.wire| + 4]) == |body| && r.wire[|s.wire| + 4..] == body
    ensures Inv(c, s) ==> Inv(c, r)
  {
    if Sendable(c, s, m) then
      var body := c.encode(Stamp(c, m));
      var r := s.(sent := s.sent + [Stamp(c, m)], wire := s.wire + EncodeFrame(body));
      assert Inv(c, s) ==> Inv(c, r) by {
        if Inv(c, s) {
          SendKeepsInv(c, s, m);
        }
      }
      assert r.wire[|s.wire|..|s.wire| + 4] == EncodeFrame(body)[..4];
      assert r.wire[|s.wire| + 4..] == EncodeFrame(body)[4..];
      r
    else s
  }

  lemma SendKeepsInv(c: Config, s: Session, m: Message)
    requires Inv(c, s) && Sendable(c, s, m)
    ensures var body := c.encode(Stamp(c, m));
            Inv(c, s.(sent := s.sent + [Stamp(c, m)], wire := s.wire + EncodeFrame(body)))
  {
    var body := c.encode(Stamp(c, m));
    var sent := s.sent + [Stamp(c, m)];
    assert Bodies(c, sent) == Bodies(c, s.sent) + [body];
    EncodeAllAppend(Bodies(c, s.sent), body);
  }

  /** A send that goes through appends the stamped message and its frame. */
  lemma SendWrites(c: Config, s: Session, m: Message, data: seq<byte>)
    requires Sendable(c, s, m) && data == c.encode(Stamp(c, m))
    ensures Send(c, s, m) == s.(sent := s.sent + [Stamp(c, m)], wire := s.wire + (Le32(|data|) + data))
  {
  }

  /** Everything the client writes reads back, frame by frame, as the
      messages it sent, in order, once each body fits the 1 MiB limit. */
  lemma {:induction false} WireCarriesSent(c: Config, s: Session, decode: seq<byte> -> Decoding<Message>)
    requires Inv(c, s) && Framable(Bodies(c, s.sent))
    requires forall i :: 0 <= i < |s.sent| ==> decode(c.encode(s.sent[i])) == Good(s.sent[i])
    ensures Frames(s.wire) == Reading(Bodies(c, s.sent), Closed)
    ensures Decoded(Frames(s.wire).bodies, decode) == s.sent
  {
    FramesOfEncodeAll(Bodies(c, s.sent));
    DecodedOfBodies(c, s.sent, decode);
  }

  lemma {:induction false} DecodedOfBodies(c: Config, sent: seq<Message>, decode: seq<byte> -> Decoding<Message>)
    requires forall i :: 0 <= i < |sent| ==> decode(c.encode(sent[i])) == Good(sent[i])
    ensures Decoded(Bodies(c, sent), decode) == sent
    decreases |sent|
  {
    if sent != [] {
      var n := |sent| - 1;
      DecodedOfBodies(c, sent[..n], decode);
      var bs := Bodies(c, sent[..n]);
      assert NoFail(bs, decode) by {
        forall i | 0 <= i < |bs| ensures !decode(bs[i]).Fail? {
          assert bs[i] == c.encode(sent[i]);
        }
      }
      DecodedAppend(bs, c.encode(sent[n]), decode);
      assert sent[..n] + [sent[n]] == sent;
    }
  }

  /** The server files every message the client sends under the client's
      own id, unless the message names another one itself. */
  lemma ServerSeesOwnId(c: Config, m: Message, connId: Option<Id>)
    requires m.clientId.None?
    ensures NextId(connId, Stamp(c, m)) == Some(c.id)
  {
  }

  // ---------------------------------------------------------------------
  // The calls the user places, accepts, rejects and ends
  // ---------------------------------------------------------------------

  function CallRequestTo(target: Id): Message
  {
    Message(None, CallRequest(Some(target)))
  }

  function AnswerTo(callId: Text, accepted: bool): Message
  {
    Message(None, CallAnswer(Some(callId), accepted))
  }

  function HangupOf(callId: Text): Message
  {
    Message(None, CallHangup(Some(callId)))
  }

  /** `make_call`: refused while a call is current; otherwise a
      `call_request` goes out and the result is whether it was sent. */
  function MakeCall(c: Config, s: Session, target: Id): (r: (Session, bool))
    ensures s.currentCall.Some? ==> r == (s, false)
    ensures r.1 <==> s.currentCall.None? && Sendable(c, s, CallRequestTo(target))
    ensures r.1 ==> r.0.sent == s.sent + [Message(Some(c.id), CallRequest(Some(target)))]
    ensures !r.1 ==> r.0 == s
    ensures r.0.currentCall == s.currentCall && r.0.pending == s.pending
    ensures Inv(c, s) ==> Inv(c, r.0)
  {
    if s.currentCall.Some? then (s, false)
    else (Send(c, s, CallRequestTo(target)), Sendable(c, s, CallRequestTo(target)))
  }

  /** `accept_call`: an unknown call id is refused; otherwise the answer
      goes out and, once sent, the call becomes current with the caller as
      peer and leaves the pending table. */
  function AcceptCall(c: Config, s: Session, callId: Text): (r: (Session, bool))
    ensures callId !in s.pending ==> r == (s, false)
    ensures r.1 <==> callId in s.pending && Sendable(c, s, AnswerTo(callId, true))
    ensures r.1 ==> && r.0.currentCall == Some(CurrentCall(callId, s.pending[callId]))
                    && r.0.pending == s.pending - {callId}
                    && r.0.sent == s.sent + [Message(Some(c.id), CallAnswer(Some(callId), true))]
    ensures !r.1 ==> r.0 == s
    ensures Inv(c, s) ==> Inv(c, r.0)
  {
    if callId !in s.pending then (s, false)
    else
      var m := AnswerTo(callId, true);
      if Sendable(c, s, m) then
        var s1 := Send(c, s, m);
        (s1.(currentCall := Some(CurrentCall(callId, s.pending[callId])), pending := s.pending - {callId}), true)
      else (s, false)
  }

  /** `reject_call`: like accepting, but the current call is never
      touched. */
  function RejectCall(c: Config, s: Session, callId: Text): (r: (Session, bool))
    ensures callId !in s.pending ==> r == (s, false)
    ensures r.1 <==> callId in s.pending && Sendable(c, s, AnswerTo(callId, false))
    ensures r.1 ==> && r.0.pending == s.pending - {callId}
                    && r.0.sent == s.sent + [Message(Some(c.id), CallAnswer(Some(callId), false))]
    ensures !r.1 ==> r.0 == s
    ensures r.0.currentCall == s.currentCall
    ensures Inv(c, s) ==> Inv(c, r.0)
  {
    if callId !in s.pending then (s, false)
    else
      var m := AnswerTo(callId, false);
      if Sendable(c, s, m) then (Send(c, s, m).(pending := s.pending - {callId}), true)
      else (s, false)
  }

  /** `hangup_call`: with no current call nothing happens; otherwise the
      call is cleared first and its id is sent in a `call_hangup`,
      whether or not that send succeeds. */
  function HangupCall(c: Config, s: Session): (r: (Session, bool))
    ensures s.currentCall.None? ==> r == (s, false)
    ensures s.currentCall.Some? ==> r.1 && r.0.currentCall.None? && r.0.pending == s.pending
    ensures s.currentCall.Some? && Sendable(c, s, HangupOf(s.currentCall.value.id)) ==>
              r.0.sent == s.sent + [Message(Some(c.id), CallHangup(Some(s.currentCall.value.id)))]
    ensures s.currentCall.Some? && !Sendable(c, s, HangupOf(s.currentCall.value.id)) ==>
              r.0 == s.(currentCall := None)
    ensures Inv(c, s) ==> Inv(c, r.0)
  {
    if s.currentCall.None? then (s, false)
    else (Send(c, s.(currentCall := None), HangupOf(s.currentCall.value.id)), true)
  }

  /** The three plain requests: `request_client_list`, `send_broadcast`
      and `send_private_message`. */
  function RequestClientList(c: Config, s: Session): (r: (Session, bool))
    ensures r.1 <==> Sendable(c, s, Message(None, GetClients))
    ensures r.1 ==> r.0.sent == s.sent + [Message(Some(c.id), GetClients)]
    ensures !r.1 ==> r.0 == s
    ensures Inv(c, s) ==> Inv(c, r.0)
  {
    (Send(c, s, Message(None, GetClients)), Sendable(c, s, Message(None, GetClients)))
  }

  function SendBroadcast(c: Config, s: Session, content: Text): (r: (Session, bool))
    ensures r.1 <==> Sendable(c, s, Message(None, Broadcast(content)))
    ensures r.1 ==> r.0.sent == s.sent + [Message(Some(c.id), Broadcast(content))]
    ensures !r.1 ==> r.0 == s
    ensures Inv(c, s) ==> Inv(c, r.0)
  {
    (Send(c, s, Message(None, Broadcast(content))), Sendable(c, s, Message(None, Broadcast(content))))
  }

  function SendPrivate(c: Config, s: Session, target: Id, content: Text): (r: (Session, bool))
    ensures r.1 <==> Sendable(c, s, Message(None, Private(Some(target), content)))
    ensures r.1 ==> r.0.sent == s.sent + [Message(Some(c.id), Private(Some(target), content))]
    ensures !r.1 ==> r.0 == s
    ensures Inv(c, s) ==> Inv(c, r.0)
  {
    var m := Message(None, Private(Some(target), content));
    (Send(c, s, m), Sendable(c, s, m))
  }

  /** `connect` once the socket is open: mark the session connected and
      register, naming the client's id explicitly. */
  function Connect(c: Config, s: Session, audioPort: Option<int>): (r: Session)
    ensures r.socketOpen && r.connected
    ensures r.(socketOpen := s.socketOpen, connected := s.connected, sent := s.sent, wire := s.wire) == s
    ensures |c.encode(Message(Some(c.id), Register(Some(c.name), audioPort)))| < TWO_32 ==>
              r.sent == s.sent + [Message(Some(c.id), Register(Some(c.name), audioPort))]
    ensures Inv(c, s) ==> Inv(c, r)
  {
    Send(c, s.(socketOpen := true, connected := true), Message(Some(c.id), Register(Some(c.name), audioPort)))
  }

  // ---------------------------------------------------------------------
  // Server messages
  // ---------------------------------------------------------------------

  /** The peer cache `handle_client_list` builds: every listed entry but
      the client's own, a later entry for the same id replacing an
      earlier one. */
  function PeersFrom(own: Id, entries: seq<ListEntry>): (r: map<Option<Id>, ListEntry>)
    ensures forall k :: k in r ==> k != Some(own) && r[k].id == k
    decreases |entries|
  {
    if entries == [] then map[]
    else
      var n := |entries| - 1;
      var m := PeersFrom(own, entries[..n]);
      if entries[n].id != Some(own) then m[entries[n].id := entries[n]] else m
  }

  /** The cache holds exactly the listed ids other than the client's own. */
  lemma {:induction false} PeersFromListed(own: Id, entries: seq<ListEntry>)
    ensures forall k :: k in PeersFrom(own, entries) <==>
              k != Some(own) && exists i :: 0 <= i < |entries| && entries[i].id == k
    decreases |entries|
  {
    if entries != [] {
      var n := |entries| - 1;
      var prefix := entries[..n];
      PeersFromListed(own, prefix);
      var r := PeersFrom(own, entries);
      var before := PeersFrom(own, prefix);
      assert r == if entries[n].id != Some(own) then before[entries[n].id := entries[n]] else before;
      forall k ensures k in r <==> k != Some(own) && exists i :: 0 <= i < |entries| && entries[i].id == k {
        if k != entries[n].id {
          assert k in r <==> k in before;
          if exists i :: 0 <= i < |entries| && entries[i].id == k {
            var i :| 0 <= i < |entries| && entries[i].id == k;
            assert i < n && prefix[i].id == k;
          }
          if exists i :: 0 <= i < |prefix| && prefix[i].id == k {
            var i :| 0 <= i < |prefix| && prefix[i].id == k;
            assert entries[i].id == k;
          }
        } else {
          assert entries[n].id == k;
        }
      }
    }
  }

  /** Each cached peer is the last entry listed with its id. */
  lemma {:induction false} PeersFromLast(own: Id, entries: seq<ListEntry>)
    ensures forall k :: k in PeersFrom(own, entries) ==>
              exists i :: 0 <= i < |entries| && entries[i] == PeersFrom(own, entries)[k]
                          && forall j :: i < j < |entries| ==> entries[j].id != k
    decreases |entries|
  {
    if entries != [] {
      var n := |entries| - 1;
      var prefix := entries[..n];
      PeersFromLast(own, prefix);
      var r := PeersFrom(own, entries);
      var before := PeersFrom(own, prefix);
      assert r == if entries[n].id != Some(own) then before[entries[n].id := entries[n]] else before;
      forall k | k in r
        ensures exists i :: 0 <= i < |entries| && entries[i] == r[k] && forall j :: i < j < |entries| ==> entries[j].id != k
      {
        if k == entries[n].id {
          assert entries[n] == r[k];
        } else {
          assert k in before && r[k] == before[k];
          var i :| 0 <= i < |prefix| && prefix[i] == before[k] && forall j :: i < j < |prefix| ==> prefix[j].id != k;
          assert entries[i] == r[k];
          forall j | i < j < |entries| ensures entries[j].id != k {
            if j < n {
              assert entries[j] == prefix[j];
            }
          }
        }
      }
    }
  }

  /** `handle_call_request`: remember who offered the call. */
  function OnCallOffer(s: Session, callId: Text, from: Option<Id>): (r: Session)
    ensures r.pending.Keys == s.pending.Keys + {callId} && r.pending[callId] == from
    ensures forall k :: k in s.pending && k != callId ==> r.pending[k] == s.pending[k]
    ensures r.(pending := s.pending) == s
  {
    s.(pending := s.pending[callId := from])
  }

  /** `handle_call_answer`: an acceptance makes the call current with the
      answerer as peer; a refusal changes nothing. */
  function OnCallAnswered(s: Session, callId: Text, accepted: bool, from: Option<Id>): (r: Session)
    ensures accepted ==> r == s.(currentCall := Some(CurrentCall(callId, from)))
    ensures !accepted ==> r == s
  {
    if accepted then s.(currentCall := Some(CurrentCall(callId, from))) else s
  }

  /** One message from the server, through `handle_server_message`. A
      registration acknowledgement asks for the client list; chat
      messages are only printed. */
  function OnServerMessage(c: Config, s: Session, o: Outgoing): (r: Session)
    ensures o.RegisterResponse? ==> r == RequestClientList(c, s).0
    ensures o.CallOffer? ==> r == OnCallOffer(s, o.callId, o.from)
    ensures o.CallAnswered? ==> r == OnCallAnswered(s, o.callId, o.accepted, o.from)
    ensures o.CallEnded? ==> r == s.(currentCall := None)
    ensures o.ClientList? ==> r == s.(peers := PeersFrom(c.id, o.clients))
    ensures o.BroadcastNote? || o.PrivateNote? ==> r == s
    ensures Inv(c, s) ==> Inv(c, r)
  {
    match o
    case RegisterResponse(_) => RequestClientList(c, s).0
    case BroadcastNote(_, _) => s
    case PrivateNote(_, _) => s
    case CallOffer(callId, from) => OnCallOffer(s, callId, from)
    case CallAnswered(callId, accepted, from) => OnCallAnswered(s, callId, accepted, from)
    case CallEnded(_, _) => s.(currentCall := None)
    case ClientList(entries) => s.(peers := PeersFrom(c.id, entries))
  }

  /** The messages one connection delivers, handled in order. */
  function Receive(c: Config, s: Session, msgs: seq<Outgoing>): (r: Session)
    ensures Inv(c, s) ==> Inv(c, r)
    decreases |msgs|
  {
    if msgs == [] then s
    else OnServerMessage(c, Receive(c, s, msgs[..|msgs| - 1]), msgs[|msgs| - 1])
  }

  // ---------------------------------------------------------------------
  // Audio
  // ---------------------------------------------------------------------

  /** One chunk through `audio_send_loop`: sent only with audio working,
      a current call and a truthy peer. */
  function SendAudio(c: Config, s: Session, data: seq<byte>): (r: Session)
    ensures r.(audioOut := s.audioOut) == s
    ensures c.audio && s.currentCall.Some? && Truthy(s.currentCall.value.peer) ==>
              r.audioOut == s.audioOut + [BuildPacket(c.id, s.currentCall.value.peer.value, data)]
    ensures !(c.audio && s.currentCall.Some? && Truthy(s.currentCall.value.peer)) ==> r == s
  {
    if c.audio && s.currentCall.Some? && Truthy(s.currentCall.value.peer) then
      s.(audioOut := s.audioOut + [BuildPacket(c.id, s.currentCall.value.peer.value, data)])
    else s
  }

  /** One datagram through `audio_receive_loop`, as `recvfrom(4096)`
      hands it over: played only during a call, only when longer than the
      header, and without the header, so at most MAX_PAYLOAD bytes of it. */
  function ReceiveAudio(c: Config, s: Session, d: seq<byte>): (r: Session)
    ensures r.(played := s.played) == s
    ensures |r.played| == |s.played| + 1 <==> c.audio && s.currentCall.Some? && |d| > HEADER_SIZE
    ensures |r.played| == |s.played| + 1 ==>
              r.played[|s.played|] == Truncate(d[HEADER_SIZE..], MAX_PAYLOAD) && d[HEADER_SIZE..] != []
    ensures |r.played| != |s.played| + 1 ==> r == s
  {
    var got := InBuffer(d);
    if c.audio && s.currentCall.Some? && |got| > HEADER_SIZE then s.(played := s.played + [got[HEADER_SIZE..]])
    else s
  }

  // ---------------------------------------------------------------------
  // Properties across operations
  // ---------------------------------------------------------------------

  /** While a call is current, no second call can be placed. */
  lemma SingleCallGuard(c: Config, s: Session, target: Id, callId: Text, from: Option<Id>)
    ensures var a := OnCallAnswered(s, callId, true, from);
            MakeCall(c, a, target) == (a, false)
  {
  }

  /** Accepting an offer makes it the current call, with the offering
      caller as peer, and a second accept of the same id is refused. */
  lemma OfferThenAccept(c: Config, s: Session, callId: Text, caller: Option<Id>)
    requires Sendable(c, s, AnswerTo(callId, true))
    ensures var r := AcceptCall(c, OnCallOffer(s, callId, caller), callId);
            && r.1 && r.0.currentCall == Some(CurrentCall(callId, caller))
            && callId !in r.0.pending
            && AcceptCall(c, r.0, callId) == (r.0, false)
  {
    var o := OnCallOffer(s, callId, caller);
    assert Sendable(c, o, AnswerTo(callId, true));
  }

  /** A hangup from the other side ends whatever call is current, even
      one with a different id. */
  lemma RemoteHangupEndsAnyCall(c: Config, s: Session, callId: Text, other: Text, from: Option<Id>)
    requires s.currentCall == Some(CurrentCall(callId, from)) && other != callId
    ensures OnServerMessage(c, s, CallEnded(other, from)).currentCall.None?
  {
  }

  /** Hanging up twice: the second finds no call and sends nothing. */
  lemma HangupTwice(c: Config, s: Session)
    requires s.currentCall.Some?
    ensures var once := HangupCall(c, s).0;
            HangupCall(c, once) == (once, false)
  {
  }

  /** An audio chunk the client sends carries its own id as source, its
      peer as target and the chunk as payload; through the relay's receive
      buffer the header survives and the chunk keeps its first MAX_PAYLOAD
      bytes. */
  lemma ClientPacketParses(c: Config, s: Session, data: seq<byte>)
    requires IdShape(c.id) && data != []
    requires c.audio && s.currentCall.Some? && Truthy(s.currentCall.value.peer)
    requires FitsField(s.currentCall.value.peer.value)
    ensures var r := SendAudio(c, s, data);
            Parse(r.audioOut[|r.audioOut| - 1]) == Frame(c.id, s.currentCall.value.peer.value, data)
    ensures var r := SendAudio(c, s, data);
            Parse(InBuffer(r.audioOut[|r.audioOut| - 1])) ==
              Frame(c.id, s.currentCall.value.peer.value, Truncate(data, MAX_PAYLOAD))
  {
    var packet := BuildPacket(c.id, s.currentCall.value.peer.value, data);
    IdShapeFits(c.id);
    HeaderRoundTrip(c.id, s.currentCall.value.peer.value, data);
    ParseInBuffer(packet);
  }

  /** End to end: a chunk one client sends in a call, forwarded by the
      relay to the other client, is played there as sent up to
      MAX_PAYLOAD bytes, and exactly as sent when it is no longer. */
  lemma AudioEndToEnd(a: Config, sa: Session, data: seq<byte>, st: State, from: Addr, b: Config, sb: Session)
    requires IdShape(a.id) && data != []
    requires a.audio && sa.currentCall.Some? && Truthy(sa.currentCall.value.peer)
    requires FitsField(sa.currentCall.value.peer.value)
    requires b.audio && sb.currentCall.Some?
    ensures var packet := SendAudio(a, sa, data).audioOut[|sa.audioOut|];
            var relayed := Relay(st, packet, from).relayed;
            |relayed| == |st.relayed| + 1 ==>
              ReceiveAudio(b, sb, relayed[|st.relayed|].packet).played == sb.played + [Truncate(data, MAX_PAYLOAD)]
    ensures var packet := SendAudio(a, sa, data).audioOut[|sa.audioOut|];
            var relayed := Relay(st, packet, from).relayed;
            |relayed| == |st.relayed| + 1 && |data| <= MAX_PAYLOAD ==>
              ReceiveAudio(b, sb, relayed[|st.relayed|].packet).played == sb.played + [data]
  {
    var peer := sa.currentCall.value.peer.value;
    var packet := SendAudio(a, sa, data).audioOut[|sa.audioOut|];
    assert packet == BuildPacket(a.id, peer, data);
    ClientPacketParses(a, sa, data);
    RelayForwardsDatagram(st, packet, from);
    IdShapeFits(a.id);
    PacketInBuffer(a.id, peer, data);
    var got := InBuffer(packet);
    assert InBuffer(got) == got;
    assert got[HEADER_SIZE..] == Truncate(data, MAX_PAYLOAD) by {
      assert got == Pad16(a.id) + Pad16(peer) + Truncate(data, MAX_PAYLOAD);
    }
  }
}
