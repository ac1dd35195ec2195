# Cloud VoIP relay: a Dafny model

This project models the core of a small VoIP system. It has two parts:

- `CloudVoIPServer` runs a TCP control service and a UDP audio relay. On the control service it registers clients, fans out broadcast and private chat messages, brokers call requests, answers and hangups, keeps chat rooms, and answers client-list requests. The relay forwards an audio datagram from any source id to any target id it can resolve. It does not check that the two are in a call.
- `CloudVoIPClient` connects to the server, registers, sends messages, tracks offered and current calls and a cache of online peers, and sends and plays audio during a call.

Control messages travel as frames: a 4-byte length, then that many bytes of JSON. Audio datagrams carry a 32-byte header, which is the source id and then the target id, each NUL-padded to 16 bytes, followed by the payload.

The files:

- `common.dfy`: bytes, text as UTF-8 bytes, Python truthiness of strings, UTF-8 well-formedness (section 4 of RFC 3629), and `str(n)` for non-negative integers.
- `framing.dfy`: frame encoding, the read loop shared by server and client, and the decoding of frame bodies.
  - Frame encoding and the read loop are specified by `Frames` and are proved to round-trip both ways.
  - Each body decodes to a message. A malformed body is skipped. Any other failure ends the loop.
- `audio_header.dfy`: building and parsing the audio header, the header round trip, and what happens to ids longer than 16 bytes.
- `server_spec.dfy`: the server's tables as a `State` value.
  - Every handler is a function from state to state, and every handler preserves `Inv`.
  - Lemmas state broadcast delivery, the call life cycle, room membership, address learning, the forgetting of a registered audio port, and call-id collisions.
- `server.dfy`: class `RelayServer`, whose fields are the server's dictionaries. There is one method per handler, including the per-connection loop and its cleanup. Each method is proved to reach exactly the state its `ServerSpec` function gives.
- `client_spec.dfy`: the client's session as a `Session` value, with one function per operation and per server message.
  - An invariant ties the bytes written to the control socket to the messages sent.
  - Lemmas cover the single-call guard, offers and acceptance, hangups, and audio end to end, from the sending client through the relay to the receiving client.
- `client.dfy`: class `VoipClient`, whose fields are the client's attributes. Each method is proved to reach exactly the session its `ClientSpec` function gives.

How the model treats the environment:

- Clock readings, generated ids, the JSON codec and the bytes a connection delivers are parameters.
- A connection's input is a byte sequence. `recv(n)` returns the next `min(n, remaining)` bytes, and an empty read means the peer closed.
- Dictionary iteration order is any enumeration of the keys. The method that walks the dictionary reports the order it took.

## Model

| member | source | states |
|---|---|---|
| Common.Render | cloud_voip_server.py:400 | an f-string of a value renders the string itself, and a missing value renders "None" |
| Common.AsciiIsUtf8 | cloud_voip_client.py:60 | ASCII text (such as a hex client id) always decodes as UTF-8 |
| Common.DecimalText | cloud_voip_server.py:480 | `str(n)` is a non-empty run of digits, one digit exactly when n < 10 |
| Common.DecimalRoundTrip | cloud_voip_server.py:480 | reading back the decimal text of n gives n |
| Common.DecimalInjective | cloud_voip_server.py:480 | distinct seconds render to distinct texts |
| Framing.LeBytes | cloud_voip_server.py:689 | the k low-order bytes of a length, k of them |
| Framing.Le32 | cloud_voip_server.py:689 | `struct.pack('I', n)` is four bytes |
| Framing.ReadLe32 | cloud_voip_server.py:289 | `struct.unpack('I', b)` yields a value below 2^32 |
| Framing.Le32Bytes | cloud_voip_server.py:689 | the four packed bytes are n's base-256 digits, least significant first |
| Framing.Le32RoundTrip | cloud_voip_server.py:289 | unpacking a packed length gives the length back |
| Framing.ReadLe32Injective | cloud_voip_server.py:289 | packing an unpacked prefix gives the prefix back, so the two are inverse |
| Framing.EncodeFrame | cloud_voip_server.py:688-692 | a frame is 4 + len(body) bytes, and its prefix reads back as the body length, followed by the body |
| Framing.FrameOfPrefix | cloud_voip_server.py:285-303 | any 4-byte prefix announcing a body's length is that body's frame header |
| Framing.EncodeAllAppend | cloud_voip_client.py:178-180 | sending one more message appends exactly its frame to the stream |
| Framing.HeadAt | cloud_voip_server.py:285-303 | the loop stops cleanly exactly at the end of the stream; a complete frame has an announced length of at most 1 MiB, and the whole frame is present |
| Framing.FramesFramable | cloud_voip_server.py:290-292 | no body the read loop hands on exceeds 1 MiB |
| Framing.HeadSuffix | cloud_voip_server.py:285-303 | what the loop finds at an offset is what it finds at the start of the rest of the stream |
| Framing.ReadBody | cloud_voip_server.py:295-300 | the body loop returns the next n bytes, or every byte that is left when the peer closes first |
| Framing.ReadFrame | cloud_voip_server.py:285-303 | one pass reads a complete frame, or stops for a close, a short prefix, an oversize length or a short body, in agreement with `HeadAt` |
| Framing.ReadFrames | cloud_voip_server.py:283-303 | the read loop returns exactly the bodies and the stop reason that `Frames` gives for the stream |
| Framing.ReadNext | cloud_voip_client.py:189-209 | one pass of the loop either ends the whole reading or extends what has been read by one body |
| Framing.ReadStep | cloud_voip_client.py:189-209 | the bodies read so far, followed by the reading of the rest, are the reading of the whole stream |
| Framing.FramesCons | cloud_voip_server.py:285-303 | a sender's frame at the head of a stream is read back whole, and then the rest is read |
| Framing.EncodeAllCons | cloud_voip_client.py:178-180 | the first message's frame comes first on the wire |
| Framing.FramesStep | cloud_voip_server.py:285-303 | one more sender frame in front of a stream adds its body in front of the reading |
| Framing.FramesAfterEncoded | cloud_voip_server.py:285-303 | the frames a sender writes are read back in order, followed by whatever follows them |
| Framing.FramesOfEncodeAll | cloud_voip_client.py:178-180 | framing round trip: the read loop recovers every body a sender wrote and then sees a clean close |
| Framing.EncodeAllOfFrames | cloud_voip_server.py:285-303 | converse round trip: a stream read to a clean close is exactly the encoding of the bodies read |
| Framing.FrameSplit | cloud_voip_server.py:285-303 | a complete frame at the start of a stream is the sender's frame of its body |
| Framing.EncodeAllPrepend | cloud_voip_client.py:178-180 | the stream for one more message in front is its frame, then the rest |
| Framing.OversizeStops | cloud_voip_server.py:289-292 | a length above 1 MiB ends the loop at once, and nothing after it is read |
| Framing.TruncatedStream | cloud_voip_server.py:296-303 | a close inside a frame loses that message only: the bodies before it are all read |
| Framing.Decoded | cloud_voip_server.py:305-325 | a connection hands on at most one message per body, and exactly one per body when every body decodes |
| Framing.DecodedAppend | cloud_voip_server.py:305-325 | one more non-failing body appends its message, if it has one |
| Framing.DecodeStep | cloud_voip_client.py:211-216 | the loop's prefix of handled bodies grows by one body at a time |
| Framing.DecodeFailStep | cloud_voip_server.py:327 | nothing after the first body whose decoding raises is handled |
| Framing.DecodeNext | cloud_voip_client.py:211-216 | the loop invariant survives a body that does not fail |
| Framing.DecodeDone | cloud_voip_client.py:218-221 | at the end of the bodies, or at a failing one, the messages handled are all there are |
| AudioHeader.Nuls | cloud_voip_client.py:567 | n NUL bytes |
| AudioHeader.Pad16 | cloud_voip_client.py:567-568 | `ljust(16, NUL)` keeps the id as a prefix, pads it to 16 bytes with NULs, and never truncates |
| AudioHeader.RStripNul | cloud_voip_server.py:257-258 | `rstrip(NUL)` leaves a prefix that does not end in NUL and drops only NULs |
| AudioHeader.Parse | cloud_voip_server.py:255-259 | a datagram of at most 32 bytes is ignored; a parsed one has ids that fit and decode, and a non-empty payload that is the bytes after the header |
| AudioHeader.StripPadded | cloud_voip_server.py:257 | stripping the padding of an id that fits its field gives back the id |
| AudioHeader.HeaderRoundTrip | test/debug_server_audio.py:126-145 | ids that fit, with a non-empty payload, parse back exactly as they were built |
| AudioHeader.EmptyPayloadIgnored | cloud_voip_server.py:270 | a header with no payload is too short and is ignored |
| AudioHeader.RebuildIsIdentity | cloud_voip_server.py:673-675 | rebuilding the header from what was parsed gives the datagram back byte for byte |
| AudioHeader.PadStripped | cloud_voip_server.py:257-258 | padding a stripped 16-byte id field gives the field back |
| AudioHeader.InBuffer | cloud_voip_server.py:251 | `recvfrom(4096)` hands over at most 4096 bytes, a prefix of the datagram, and all of a datagram that fits |
| AudioHeader.ParseInBuffer | cloud_voip_server.py:251-259 | a datagram cut to the buffer parses the same way, with its payload cut to 4064 bytes |
| AudioHeader.PacketInBuffer | cloud_voip_client.py:595 | a packet with fitting ids arrives with its header intact and its payload cut to 4064 bytes |
| AudioHeader.LongIdMisparsed | cloud_voip_client.py:567 | a source id longer than 16 bytes never survives the round trip |
| AudioHeader.LongIdExample | test/test_complete_flow.py:116-141 | a 17-byte source id spills its last byte into the target field and a NUL into the payload |
| ServerSpec.InitialInv | cloud_voip_server.py:76-80 | the empty tables satisfy the server invariant |
| ServerSpec.Learn | cloud_voip_server.py:262-263 | a truthy source id is mapped to the sender's address, an empty one teaches nothing, and other ids are untouched |
| ServerSpec.Forward | cloud_voip_server.py:646-683 | forwarding sends at most one packet and changes nothing else, and an empty payload sends nothing |
| ServerSpec.Relay | cloud_voip_server.py:246-277 | the datagram is what `recvfrom(4096)` delivers; a short one changes nothing; the registry, rooms, calls and control output never change; the invariant is kept |
| ServerSpec.RelayForwardsDatagram | cloud_voip_server.py:251-269 | a well-formed datagram is forwarded, cut to the 4096-byte receive buffer, to the address resolution gives after learning the sender, or nowhere; one that fits the buffer is forwarded unchanged |
| ServerSpec.RelayedFitBuffer | cloud_voip_server.py:251 | no forwarded packet is longer than the receive buffer |
| ServerSpec.LastSenderWins | cloud_voip_server.py:262-263 | the latest datagram claiming an id decides where that id's audio goes, whatever the registry says |
| ServerSpec.EmptySourceLearnsNothing | cloud_voip_server.py:262 | a datagram with an empty source id leaves the learned addresses alone |
| ServerSpec.Touch | cloud_voip_server.py:311-319 | the per-message refresh replaces the whole entry: no name and no audio port, the connection's address and socket, the current second, online. Other entries and all other tables stay, and the invariant is kept |
| ServerSpec.RegisterClient | cloud_voip_server.py:397-425 | registration overwrites the entry of the given id (even a missing one) with the name or "Client_<id>", the address, the audio port, the socket and the current second, online. Other entries stay, as do learned addresses, rooms, calls and relayed audio. The acknowledgement goes back on the same socket |
| ServerSpec.Disconnect | cloud_voip_server.py:329-339 | a falsy id changes nothing. Otherwise exactly that id leaves the registry, the socket table and the learned addresses, and every other id keeps its entries. Calls, rooms and all output stay |
| ServerSpec.RegisteredPortResolves | cloud_voip_server.py:660-668 | right after registering a truthy audio port, a client that has sent no audio is reached at its control IP and that port |
| ServerSpec.RegisteredPortForgotten | cloud_voip_server.py:311-319 | the next message on the connection erases the registered port, so only a learned address reaches the client |
| ServerSpec.RegisterThenDisconnect | cloud_voip_server.py:329-339 | register then disconnect leaves no trace of the id in the registry or in any later client list |
| ServerSpec.BroadcastTargets | cloud_voip_server.py:441-442 | a broadcast goes to exactly the online clients other than the sender |
| ServerSpec.Deliver | cloud_voip_server.py:441-446 | at most one copy of the message per listed id, each copy being that message |
| ServerSpec.DeliverAppend | cloud_voip_server.py:441-446 | visiting one more registered id adds one copy to its socket |
| ServerSpec.DeliverCount | cloud_voip_server.py:441-446 | every listed registered id gets exactly one copy, in order |
| ServerSpec.BroadcastAll | cloud_voip_server.py:427-448 | a broadcast changes only the control output |
| ServerSpec.BroadcastReachesOthers | cloud_voip_server.py:427-448 | a broadcast reaches each online client other than the sender exactly once, and nobody else |
| ServerSpec.EnumerationSize | cloud_voip_server.py:441 | a duplicate-free walk of a set has one step per element |
| ServerSpec.PrivateTo | cloud_voip_server.py:450-470 | exactly one note is sent exactly when the target is registered and online, and it goes to the target's socket |
| ServerSpec.EntriesFromRegistry | cloud_voip_server.py:610-618 | every listed entry is a registered client, shown as its registry entry |
| ServerSpec.EntriesAppend | cloud_voip_server.py:610-618 | visiting one more registered id appends its entry |
| ServerSpec.ListClients | cloud_voip_server.py:605-631 | one client list goes back on the requesting socket, and nothing else changes |
| ServerSpec.EntriesOfRegistered | cloud_voip_server.py:610-618 | walking registered ids lists exactly one entry per id, in the walk's order |
| ServerSpec.ListsWholeRegistry | cloud_voip_server.py:605-631 | the reply lists every registered client exactly once, the requester included, each as its registry entry |
| ServerSpec.RequestCall | cloud_voip_server.py:472-505 | an empty target does nothing; otherwise a requesting record goes in under the derived call id, and the callee is told if it is online |
| ServerSpec.AnswerCall | cloud_voip_server.py:507-539 | on a known call the status becomes active or rejected, whoever answers, and only the caller is told; an unknown or empty id does nothing |
| ServerSpec.HangupCall | cloud_voip_server.py:541-572 | a known call is deleted and the other party is told; an unknown or empty id does nothing |
| ServerSpec.RequestThenAccept | cloud_voip_server.py:472-539 | a request accepted on its own call id is active, with the same caller and callee, and the caller hears of it |
| ServerSpec.AnswerDecides | cloud_voip_server.py:518-521 | after an answer the call is active iff it was accepted, and rejected iff it was not; rejected calls stay |
| ServerSpec.AnswerCanFlip | cloud_voip_server.py:515-521 | an answer is taken from anyone and can reverse an earlier one |
| ServerSpec.SecondHangupIsNoop | cloud_voip_server.py:549-572 | a second hangup of the same call changes nothing and notifies nobody |
| ServerSpec.CallerHangupNotifiesCallee | cloud_voip_server.py:554-566 | a caller's hangup removes the call and tells the callee |
| ServerSpec.SameSecondRequestsCollide | cloud_voip_server.py:480-489 | two requests between the same pair in the same second share a call id, and the second resets even an active call |
| ServerSpec.CallIdAmbiguous | cloud_voip_server.py:480 | ids containing underscores can produce the same call id for different caller and callee pairs |
| ServerSpec.MarkerIndex | cloud_voip_server.py:480 | the position of the first underscore lies within the text |
| ServerSpec.MarkerIndexAfter | cloud_voip_server.py:480 | in x + "_" + y with x underscore-free, the first underscore is at position len(x) |
| ServerSpec.SplitAtMarker | cloud_voip_server.py:480 | splitting at the first underscore is unique for an underscore-free prefix |
| ServerSpec.CallIdInjective | cloud_voip_server.py:480 | for underscore-free ids, the call id determines caller, callee and second |
| ServerSpec.Join | cloud_voip_server.py:574-588 | an empty room id does nothing. Otherwise the room, created empty if needed, keeps its members and gains the new one at the end unless already there. Other rooms and tables stay, and the invariant is kept |
| ServerSpec.RemoveFirst | cloud_voip_server.py:599 | `list.remove` drops one element, and in a duplicate-free list exactly the given member |
| ServerSpec.Leave | cloud_voip_server.py:590-603 | a missing room or member does nothing. Otherwise the room loses one element and is deleted exactly when it becomes empty. In a well-formed state the member is gone and every other member stays. Other rooms and tables stay, and the invariant is kept |
| ServerSpec.JoinIdempotent | cloud_voip_server.py:585-586 | joining twice is joining once |
| ServerSpec.LeaveAfterJoin | cloud_voip_server.py:574-603 | leaving after joining removes the member, and a room created by the join is gone |
| ServerSpec.Process | cloud_voip_server.py:369-395 | dispatching any message keeps the server invariant |
| ServerSpec.Refresh | cloud_voip_server.py:311-319 | no refresh without a truthy id; a truthy id gets the whole-entry replacement `Touch` states; the invariant is kept |
| ServerSpec.Handle | cloud_voip_server.py:306-322 | refreshing and then dispatching keeps the invariant |
| ServerSpec.Serve | cloud_voip_server.py:279-345 | the messages of a connection, in order, keep the invariant |
| Server.RelayServer.constructor | cloud_voip_server.py:76-80 | the server starts with empty tables, which satisfy the invariant |
| Server.RelayServer.ForwardAudio | cloud_voip_server.py:646-683 | the relay output is exactly what `Forward` gives: learned address first, then an online entry's control IP with its truthy audio port |
| Server.RelayServer.ReceiveDatagram | cloud_voip_server.py:246-277 | one datagram takes the tables where `Relay` says, keeping the invariant |
| Server.RelayServer.RefreshEntry | cloud_voip_server.py:311-319 | the tables after the refresh are those `Refresh` gives, invariant kept |
| Server.RelayServer.HandleRegister | cloud_voip_server.py:397-425 | the tables after registration are those `RegisterClient` gives, invariant kept |
| Server.RelayServer.HandleBroadcast | cloud_voip_server.py:427-448 | the walk visits each broadcast target once, in the order it reports, and sends one note to each, as `BroadcastAll` gives |
| Server.RelayServer.HandlePrivate | cloud_voip_server.py:450-470 | the state after a private message is what `PrivateTo` gives |
| Server.RelayServer.HandleCallRequest | cloud_voip_server.py:472-505 | the state after a call request is what `RequestCall` gives |
| Server.RelayServer.HandleCallAnswer | cloud_voip_server.py:507-539 | the state after a call answer is what `AnswerCall` gives |
| Server.RelayServer.HandleCallHangup | cloud_voip_server.py:541-572 | the state after a hangup is what `HangupCall` gives |
| Server.RelayServer.HandleJoinRoom | cloud_voip_server.py:574-588 | the state after a join is what `Join` gives |
| Server.RelayServer.HandleLeaveRoom | cloud_voip_server.py:590-603 | the state after a leave is what `Leave` gives |
| Server.RelayServer.HandleGetClients | cloud_voip_server.py:605-631 | the walk visits every registry key once, and the reply lists their entries in that order, as `ListClients` gives |
| Server.RelayServer.ProcessMessage | cloud_voip_server.py:369-395 | each message type reaches its handler, and any walk fits the registry it sees, as `Process` gives |
| Server.RelayServer.HandleMessage | cloud_voip_server.py:306-322 | the connection's id becomes the message's client_id if it has one; the refresh happens, then the dispatch, as `Handle` gives |
| Server.RelayServer.Cleanup | cloud_voip_server.py:329-339 | the tables after the connection ends are those `Disconnect` gives |
| Server.RelayServer.ServeConnection | cloud_voip_server.py:279-345 | a whole connection handles, in order, the messages its stream decodes to, then removes the id it ended with: `Disconnect` of `Serve` |
| Server.RelayServer.ServeBodies | cloud_voip_server.py:305-325 | the handling loop folds `Handle` over exactly the decoded messages |
| Server.RelayServer.ServeAt | cloud_voip_server.py:305-325 | one body either is skipped or extends the fold by its message |
| Server.RelayServer.ServeNext | cloud_voip_server.py:306-322 | one handled message extends the fold of the connection |
| Server.BroadcastNext | cloud_voip_server.py:441-446 | visiting one key keeps the broadcast loop invariant: targets are listed and sent to, others skipped |
| Server.ServeStep | cloud_voip_server.py:306-322 | the fold of a connection extended by one message is `Handle` applied to the state so far |
| ClientSpec.IdShapeFits | cloud_voip_client.py:60 | an 8-hex-digit id is non-empty, fits the audio header and cannot make a call id ambiguous |
| ClientSpec.Bodies | cloud_voip_client.py:178 | one encoded body per message sent, in order |
| ClientSpec.FreshInv | cloud_voip_client.py:47-99 | a fresh client satisfies the session invariant |
| ClientSpec.Stamp | cloud_voip_client.py:175-176 | a message without client_id gets the client's own; one with a client_id is unchanged |
| ClientSpec.Send | cloud_voip_client.py:168-185 | without a socket or with a body too long to pack nothing changes; otherwise the stamped message is recorded, and its length prefix and body are appended to the wire; the invariant is kept |
| ClientSpec.SendKeepsInv | cloud_voip_client.py:178-180 | a successful send keeps the wire equal to the framed messages sent |
| ClientSpec.SendWrites | cloud_voip_client.py:178-180 | a successful send appends the packed length and the body |
| ClientSpec.WireCarriesSent | cloud_voip_client.py:168-224 | everything the client writes is read back by a read loop as exactly the messages it sent, in order |
| ClientSpec.DecodedOfBodies | cloud_voip_client.py:178 | decoding the encoded bodies gives back the messages |
| ClientSpec.ServerSeesOwnId | cloud_voip_server.py:308 | the server files each message the client sends under the client's own id |
| ClientSpec.MakeCall | cloud_voip_client.py:398-413 | refused during a call; otherwise succeeds iff the request is sent, and the call state is untouched |
| ClientSpec.AcceptCall | cloud_voip_client.py:415-447 | an unknown id is refused; a sent acceptance makes the call current with the caller as peer and removes the offer; a failed send changes nothing |
| ClientSpec.RejectCall | cloud_voip_client.py:449-474 | an unknown id is refused; a sent refusal removes the offer; the current call is never touched |
| ClientSpec.HangupCall | cloud_voip_client.py:476-495 | with no call nothing happens; otherwise the call is cleared and its hangup sent, even if the send fails |
| ClientSpec.RequestClientList | cloud_voip_client.py:370-377 | succeeds iff a get_clients message is sent |
| ClientSpec.SendBroadcast | cloud_voip_client.py:379-386 | succeeds iff the broadcast with that content is sent |
| ClientSpec.SendPrivate | cloud_voip_client.py:388-396 | succeeds iff the private message to that target is sent |
| ClientSpec.Connect | cloud_voip_client.py:101-145 | the session is open and connected, and a register naming the client's id, name and audio port is sent. The call state, offers, peer cache and audio are left alone |
| ClientSpec.PeersFrom | cloud_voip_client.py:353-368 | the peer cache never holds the client itself, and each entry is keyed by its own id |
| ClientSpec.PeersFromListed | cloud_voip_client.py:357-362 | the cache holds exactly the listed ids other than the client's own |
| ClientSpec.PeersFromLast | cloud_voip_client.py:359-362 | each cached peer is the last entry listed under its id |
| ClientSpec.OnCallOffer | cloud_voip_client.py:280-297 | an offer records its caller under the call id and keeps the other offers |
| ClientSpec.OnCallAnswered | cloud_voip_client.py:299-317 | an acceptance makes the call current with the answerer as peer; a refusal changes nothing |
| ClientSpec.OnServerMessage | cloud_voip_client.py:226-248 | a registration acknowledgement asks for the client list; an offer is recorded; an acceptance makes the call current; a hangup clears any current call; a client list replaces the cache; chat only prints. The invariant is kept |
| ClientSpec.Receive | cloud_voip_client.py:187-224 | handling a connection's messages in order keeps the invariant |
| ClientSpec.SendAudio | cloud_voip_client.py:554-582 | a chunk is sent, behind the client's and the peer's padded ids, only with audio working, a current call and a truthy peer |
| ClientSpec.ReceiveAudio | cloud_voip_client.py:584-617 | a datagram is played iff audio works, a call is current and it is longer than the header; what is played is the payload cut to 4064 bytes by `recvfrom(4096)`, which is non-empty |
| ClientSpec.SingleCallGuard | cloud_voip_client.py:400-402 | once a call is accepted, no second call can be placed |
| ClientSpec.OfferThenAccept | cloud_voip_client.py:280-447 | accepting an offer makes it current with the offering caller as peer, and a second accept is refused |
| ClientSpec.RemoteHangupEndsAnyCall | cloud_voip_client.py:319-330 | a hangup from the server ends the current call even when its call id differs |
| ClientSpec.HangupTwice | cloud_voip_client.py:476-495 | a second hangup finds no call and sends nothing |
| ClientSpec.ClientPacketParses | cloud_voip_client.py:567-569 | a chunk the client sends parses as its id, its peer and the chunk; through the relay's receive buffer, as its id, its peer and the chunk's first 4064 bytes |
| ClientSpec.AudioEndToEnd | cloud_voip_client.py:554-617 | a chunk sent in a call and forwarded by the relay is played at the other end cut to 4064 bytes, so exactly as sent when it is no longer (the client's own chunks are 2048 bytes, cloud_voip_client.py:88-91) |
| Client.VoipClient.constructor | cloud_voip_client.py:47-99 | a new client has a fresh session satisfying the invariant |
| Client.VoipClient.SendMessage | cloud_voip_client.py:168-185 | the result says whether the send went through; the session afterwards is what `Send` gives |
| Client.VoipClient.Append | cloud_voip_client.py:180 | records the message and appends its frame, leaving everything else alone |
| Client.VoipClient.Connect | cloud_voip_client.py:101-145 | the session after connecting is what `ClientSpec.Connect` gives |
| Client.VoipClient.MakeCall | cloud_voip_client.py:398-413 | result and session are those `ClientSpec.MakeCall` gives |
| Client.VoipClient.AcceptCall | cloud_voip_client.py:415-447 | result and session are those `ClientSpec.AcceptCall` gives |
| Client.VoipClient.RejectCall | cloud_voip_client.py:449-474 | result and session are those `ClientSpec.RejectCall` gives |
| Client.VoipClient.SetCallState | cloud_voip_client.py:435-445 | replaces only the current call and the pending offers, keeping the invariant |
| Client.VoipClient.HangupCall | cloud_voip_client.py:476-495 | result and session are those `ClientSpec.HangupCall` gives |
| Client.VoipClient.RequestClientList | cloud_voip_client.py:370-377 | result and session are those `ClientSpec.RequestClientList` gives |
| Client.VoipClient.SendBroadcast | cloud_voip_client.py:379-386 | result and session are those `ClientSpec.SendBroadcast` gives |
| Client.VoipClient.SendPrivate | cloud_voip_client.py:388-396 | result and session are those `ClientSpec.SendPrivate` gives |
| Client.VoipClient.HandleClientList | cloud_voip_client.py:353-368 | the cache is emptied and rebuilt from the list, to exactly `PeersFrom`; nothing else changes |
| Client.VoipClient.HandleServerMessage | cloud_voip_client.py:226-248 | the session after one server message is what `OnServerMessage` gives |
| Client.VoipClient.AutoAccept | cloud_voip_client.py:332-351 | the automatic answer accepts the offer if it is still pending, as `AcceptCall` would |
| Client.VoipClient.ReceiveLoop | cloud_voip_client.py:187-224 | the receive thread handles, in order, the messages the stream decodes to, then marks the session disconnected |
| Client.VoipClient.HandleFrames | cloud_voip_client.py:211-221 | the handling loop folds `OnServerMessage` over exactly the decoded messages |
| Client.VoipClient.HandleNext | cloud_voip_client.py:214 | one handled message extends the fold of the connection |
| Client.VoipClient.SendAudioChunk | cloud_voip_client.py:556-575 | the session after one chunk is what `SendAudio` gives |
| Client.VoipClient.ReceiveAudioDatagram | cloud_voip_client.py:590-603 | the session after one datagram is what `ReceiveAudio` gives |
| Client.CallFieldsFree | cloud_voip_client.py:435-445 | the current call and the offers play no part in the session invariant |
| Client.ConnectedFree | cloud_voip_client.py:223 | neither does the connection flag |
| Client.ReceiveStep | cloud_voip_client.py:214 | the fold of a connection extended by one message is `OnServerMessage` applied to the session so far |

## Left out

- Sockets, threads and locks. The model treats each handler as one atomic step. The source is not that strict:
  - The audio relay writes `client_audio_addrs` without a lock (cloud_voip_server.py:263), and `forward_audio` reads it without one (cloud_voip_server.py:656-657).
  - A call request holds `calls_lock` and `clients_lock` in two separate sections (cloud_voip_server.py:483, cloud_voip_server.py:499).
  - Interleaving between connections, and between the relay and the control service, is not modelled.
- JSON. The codec is a parameter: `decode` maps a body to a message, a skipped malformed body, or a failure that ends the loop, and the client's `encode` is part of its `Config`.
  - Timestamps and `server_time` fields in messages are not modelled.
  - A JSON `null` field is treated as a missing one.
  - Ids are assumed to be strings.
  - A registered audio port is assumed to be an integer in 0..65535. Any other truthy value makes `sendto` raise in `forward_audio` (cloud_voip_server.py:666-675), so nothing is sent, while the model records a relayed packet to that address.
- Dictionary order. Iteration order is any enumeration of the keys, not Python's insertion order.
- Short reads. `recv` is modelled as returning `min(n, remaining)` bytes, so a short 4-byte prefix happens only at the end of the stream.
- Byte order. The length prefix of `struct.pack('I')` uses host order, and is modelled little-endian.
- Time. The clock is a parameter. The two clock readings of a call request, the call id and `start_time`, are merged into one. The client's `pending_calls` timestamp is left out.
- `uuid.uuid4()` is left out. Its effect is the precondition `IdShape` on the client's id.
- A send that raises on an open socket. Only a missing socket and a body too long to pack make a send fail.
- Partial writes. Both sides write a frame with a single `socket.send`, not `sendall` (cloud_voip_client.py:180, cloud_voip_server.py:692), and that call may write only part of the frame. The model always writes the whole frame, and `ClientSpec.Inv` and `ClientSpec.WireCarriesSent` rely on this.
- Oversized datagrams on Windows. `InBuffer` cuts a datagram longer than 4096 bytes, as `recvfrom` does on Linux. On Windows that `recvfrom` raises instead, and the relay and the client drop the datagram.
- PyAudio. Streams, `start_audio_streams`/`stop_audio_streams` and capture are left out. An audio chunk and a received datagram are parameters.
- `init_audio` is left out. Whether audio works is the `audio` flag of `Config`.
- Server-side catch-all handlers: the relay's `except` branch and the `except` around each send. These only log.
- `handle_control_client`, `process_control_message`, `get_server_status`, the launchers, the demo, the interactive menu, the tools and the tests are not part of this model.
- `client_list_event` and `show_clients` only synchronise the console.
- Client.VoipClient.AutoAccept: the thread that `show_call_options` starts is modelled as a step the caller takes at any later time, not as a concurrent thread.
- ClientSpec.OnServerMessage: `handle_register_response` is modelled only for status "success", which is the only status the server sends. Messages of unknown type, including `heartbeat`, are not part of the `Outgoing` datatype.
- ClientSpec.Connect: states the register message only for a body short enough to pack. Opening the socket and a failing `connect` are left out.
- ClientSpec.Connect: the audio port is a free parameter, not tied to the `audio` flag, although the source registers a port only when `init_audio` succeeded (cloud_voip_client.py:119-122).
- ClientSpec.Connect: calling it again continues the same byte stream on `wire`, while the source opens a fresh socket on every `connect` (cloud_voip_client.py:107).
- ServerSpec.Process: its own contract states only that the invariant is preserved. What it does to the tables is stated by the handler functions it dispatches to, and by the class method tied to it.
- ServerSpec.Handle: its own contract states only that the invariant is preserved. What it does to the tables is stated by the handler functions it dispatches to, and by the class method tied to it.
- ServerSpec.Serve: its own contract states only that the invariant is preserved. What it does to the tables is stated by the handler functions it dispatches to, and by the class method tied to it.
