/**
 * `CloudVoIPClient` as a class whose fields its methods update in place.
 * Each method is proved to take the session exactly where the matching
 * function of `ClientSpec` says, and to keep `Inv`.
 */
module Client {
  import opened Common
  import opened Framing
  import opened AudioHeader
  import opened ServerSpec
  import opened ClientSpec

  class VoipClient {
    const config: Config
    var socketOpen: bool
    var connected: bool
    var currentCall: Option<CurrentCall>
    var pending: map<Text, Option<Id>>
    var peers: map<Option<Id>, ListEntry>
    var sent: seq<Message>
    var wire: seq<byte>
    var audioOut: seq<seq<byte>>
    var played: seq<seq<byte>>

    ghost function Model(): Session
      reads this
    {
      Session(socketOpen, connected, currentCall, pending, peers, sent, wire, audioOut, played)
    }

    ghost predicate Valid()
      reads this
    {
      IdShape(config.id) && ClientSpec.Inv(config, Model())
    }

    /** `__init__`, with the id `uuid` produced passed in. */
    constructor(config: Config)
      requires IdShape(config.id)
      ensures this.config == config && Model() == Fresh() && Valid()
    {
      this.config := config;
      socketOpen := false;
      connected := false;
      currentCall := None;
      pending := map[];
      peers := map[];
      sent := [];
      wire := [];
      audioOut := [];
      played := [];
    }

    /** `send_message`. */
    method SendMessage(m: Message) returns (ok: bool)
      requires Valid()
      modifies this
      ensures ok == Sendable(config, old(Model()), m)
      ensures Model() == Send(config, old(Model()), m)
      ensures Valid()
    {
      if !socketOpen {
        return false;
      }
      var msg := m;
      if msg.clientId.None? {
        msg := msg.(clientId := Some(config.id));
      }
      var data := config.encode(msg);
      if |data| >= TWO_32 {
        return false;
      }
      assert msg == Stamp(config, m);
      SendWrites(config, Model(), m, data);
      Append(msg, Le32(|data|) + data);
      ok := true;
    }

    /** Records a message as sent and its frame as written. */
    method Append(msg: Message, frame: seq<byte>)
      modifies this
      ensures Model() == old(Model()).(sent := old(sent) + [msg], wire := old(wire) + frame)
    {
      wire := wire + frame;
      sent := sent + [msg];
    }

    /** `connect`, from the point where the message socket is open. */
    method Connect(audioPort: Option<int>)
      requires Valid()
      modifies this
      ensures Model() == ClientSpec.Connect(config, old(Model()), audioPort)
      ensures Valid()
    {
      socketOpen := true;
      connected := true;
      var _ := SendMessage(Message(Some(config.id), Register(Some(config.name), audioPort)));
    }

    /** `make_call`. */
    method MakeCall(target: Id) returns (ok: bool)
      requires Valid()
      modifies this
      ensures (Model(), ok) == ClientSpec.MakeCall(config, old(Model()), target)
      ensures Valid()
    {
      if currentCall.Some? {
        return false;
      }
      ok := SendMessage(CallRequestTo(target));
    }

    /** `accept_call`. */
    method AcceptCall(callId: Text) returns (ok: bool)
      requires Valid()
      modifies this
      ensures (Model(), ok) == ClientSpec.AcceptCall(config, old(Model()), callId)
      ensures Valid()
    {
      if callId !in pending {
        return false;
      }
      var caller := pending[callId];
      ok := SendMessage(AnswerTo(callId, true));
      if ok {
        SetCallState(Some(CurrentCall(callId, caller)), pending - {callId});
      }
    }

    /** `reject_call`. */
    method RejectCall(callId: Text) returns (ok: bool)
      requires Valid()
      modifies this
      ensures (Model(), ok) == ClientSpec.RejectCall(config, old(Model()), callId)
      ensures Valid()
    {
      if callId !in pending {
        return false;
      }
      ok := SendMessage(AnswerTo(callId, false));
      if ok {
        SetCallState(currentCall, pending - {callId});
      }
    }

    /** Replaces the current call and the pending offers, which the
        session invariant does not constrain. */
    method SetCallState(call: Option<CurrentCall>, offers: map<Text, Option<Id>>)
      requires Valid()
      modifies this
      ensures Model() == old(Model()).(currentCall := call, pending := offers)
      ensures Valid()
    {
      CallFieldsFree(config, Model(), call, offers);
      currentCall := call;
      pending := offers;
    }

    /** `hangup_call`. */
    method HangupCall() returns (ok: bool)
      requires Valid()
      modifies this
      ensures (Model(), ok) == ClientSpec.HangupCall(config, old(Model()))
      ensures Valid()
    {
      if currentCall.None? {
        return false;
      }
      var callId := currentCall.value.id;
      currentCall := None;
      var _ := SendMessage(HangupOf(callId));
      ok := true;
    }

    /** `request_client_list`. */
    method RequestClientList() returns (ok: bool)
      requires Valid()
      modifies this
      ensures (Model(), ok) == ClientSpec.RequestClientList(config, old(Model()))
      ensures Valid()
    {
      ok := SendMessage(Message(None, GetClients));
    }

    /** `send_broadcast`. */
    method SendBroadcast(content: Text) returns (ok: bool)
      requires Valid()
      modifies this
      ensures (Model(), ok) == ClientSpec.SendBroadcast(config, old(Model()), content)
      ensures Valid()
    {
      ok := SendMessage(Message(None, Broadcast(content)));
    }

    /** `send_private_message`. */
    method SendPrivate(target: Id, content: Text) returns (ok: bool)
      requires Valid()
      modifies this
      ensures (Model(), ok) == ClientSpec.SendPrivate(config, old(Model()), target, content)
      ensures Valid()
    {
      ok := SendMessage(Message(None, Private(Some(target), content)));
    }

    /** `handle_client_list`: empty the cache, then add every listed peer. */
    method HandleClientList(entries: seq<ListEntry>)
      requires Valid()
      modifies this
      ensures Model() == old(Model()).(peers := PeersFrom(config.id, entries))
      ensures Valid()
    {
      peers := map[];
      var i := 0;
      while i < |entries|
        invariant i <= |entries|
        invariant Model() == old(Model()).(peers := peers)
        invariant peers == PeersFrom(config.id, entries[..i])
      {
        var entry := entries[i];
        assert entries[..i + 1][..i] == entries[..i];
        if entry.id != Some(config.id) {
          peers := peers[entry.id := entry];
        }
        i := i + 1;
      }
      assert entries[..i] == entries;
    }

    /** `handle_server_message` for what the server sends. */
    method HandleServerMessage(o: Outgoing)
      requires Valid()
      modifies this
      ensures Model() == OnServerMessage(config, old(Model()), o)
      ensures Valid()
    {
      match o {
        case RegisterResponse(_) =>
          var _ := RequestClientList();
        case BroadcastNote(_, _) =>
        case PrivateNote(_, _) =>
        case CallOffer(callId, from) =>
          pending := pending[callId := from];
        case CallAnswered(callId, accepted, from) =>
          if accepted {
            currentCall := Some(CurrentCall(callId, from));
          }
        case CallEnded(_, _) =>
          currentCall := None;
        case ClientList(entries) =>
          HandleClientList(entries);
      }
    }

    /** The thread `show_call_options` starts: accept the offer if it is
        still pending. */
    method AutoAccept(callId: Text)
      requires Valid()
      modifies this
      ensures Model() == ClientSpec.AcceptCall(config, old(Model()), callId).0
      ensures Valid()
    {
      if callId in pending {
        var _ := AcceptCall(callId);
      }
    }

    /** `message_receive_thread` over everything the connection delivers:
        handle the messages its frames carry, then mark the session
        disconnected. */
    method ReceiveLoop(stream: seq<byte>, decode: seq<byte> -> Decoding<Outgoing>)
      requires Valid()
      modifies this
      ensures Model() == Receive(config, old(Model()), Decoded(Frames(stream).bodies, decode)).(connected := false)
      ensures Valid()
    {
      var bodies, _ := ReadFrames(stream);
      HandleFrames(bodies, decode);
      ConnectedFree(config, Model());
      connected := false;
    }

    /** The handling half of the receive loop: each body that decodes is
        handled, a malformed one is skipped, and the first body whose
        decoding fails ends the loop. */
    method HandleFrames(bodies: seq<seq<byte>>, decode: seq<byte> -> Decoding<Outgoing>)
      requires Valid()
      modifies this
      ensures Model() == Receive(config, old(Model()), Decoded(bodies, decode))
      ensures Valid()
    {
      ghost var s0 := Model();
      ghost var msgs: seq<Outgoing> := [];
      var i := 0;
      while i < |bodies| && !decode(bodies[i]).Fail?
        invariant Valid() && DecodedSoFar(bodies, i, decode, msgs)
        invariant Received(config, s0, msgs, Model())
      {
        DecodeNext(bodies, i, decode, msgs);
        var d := decode(bodies[i]);
        if d.Good? {
          HandleNext(d.msg, s0, msgs);
          msgs := msgs + [d.msg];
        }
        i := i + 1;
      }
      DecodeDone(bodies, i, decode, msgs);
    }

    /** One decoded message through `handle_server_message`, as the next
        step of the connection's fold. */
    method HandleNext(o: Outgoing, ghost s0: Session, ghost msgs: seq<Outgoing>)
      requires Valid() && Received(config, s0, msgs, Model())
      modifies this
      ensures Valid() && Received(config, s0, msgs + [o], Model())
    {
      ghost var before := Model();
      HandleServerMessage(o);
      ReceiveStep(config, s0, msgs, o, before);
    }

    /** One chunk through `audio_send_loop`. */
    method SendAudioChunk(data: seq<byte>)
      requires Valid()
      modifies this
      ensures Model() == SendAudio(config, old(Model()), data)
      ensures Valid()
    {
      if config.audio && currentCall.Some? {
        var target := currentCall.value.peer;
        if Truthy(target) {
          var header := Pad16(config.id) + Pad16(target.value);
          audioOut := audioOut + [header + data];
        }
      }
    }

    /** One datagram through `audio_receive_loop`. */
    method ReceiveAudioDatagram(d: seq<byte>)
      requires Valid()
      modifies this
      ensures Model() == ReceiveAudio(config, old(Model()), d)
      ensures Valid()
    {
      var got := InBuffer(d);
      if config.audio && currentCall.Some? && |got| > HEADER_SIZE {
        played := played + [got[HEADER_SIZE..]];
      }
    }
  }

  /** The call fields play no part in the session invariant. */
  lemma CallFieldsFree(c: Config, s: Session, call: Option<CurrentCall>, pending: map<Text, Option<Id>>)
    requires ClientSpec.Inv(c, s)
    ensures ClientSpec.Inv(c, s.(currentCall := call, pending := pending))
  {
  }

  /** Nor does the connection flag. */
  lemma ConnectedFree(c: Config, s: Session)
    requires ClientSpec.Inv(c, s)
    ensures ClientSpec.Inv(c, s.(connected := false))
  {
  }

  /** The messages of a connection so far take `s0` to `s`. */
  ghost predicate Received(c: Config, s0: Session, msgs: seq<Outgoing>, s: Session)
  {
    Receive(c, s0, msgs) == s
  }

  /** One more message extends the fold of a connection. */
  lemma ReceiveStep(c: Config, s0: Session, msgs: seq<Outgoing>, o: Outgoing, s: Session)
    requires Received(c, s0, msgs, s)
    ensures Received(c, s0, msgs + [o], OnServerMessage(c, s, o))
  {
    assert (msgs + [o])[..|msgs|] == msgs;
  }
}
