/**
 * Length-prefixed framing of control messages, used identically by the
 * server's per-connection read loop and the client's receive thread:
 * a 4-byte unsigned length (`struct.pack('I', n)`, host order, modelled
 * little-endian) followed by that many bytes of JSON.
 *
 * The stream a connection delivers is a value; `recv(n)` hands back the
 * next `min(n, remaining)` bytes, and the empty result means the peer
 * closed the connection.
 */
module Framing {
  import opened Common

  /** Frames announcing more than 1 MiB end the connection. */
  const MAX_MESSAGE: nat := 1024 * 1024
  /** The most the body loop asks `recv` for at once. */
  const RECV_CHUNK: nat := 4096
  const TWO_32: nat := 0x1_0000_0000

  /** The `k` low-order bytes of `n`, least significant first. */
  function LeBytes(n: nat, k: nat): (r: seq<byte>)
    ensures |r| == k
  {
    if k == 0 then [] else [(n % 256) as byte] + LeBytes(n / 256, k - 1)
  }

  /** `struct.pack('I', n)`. */
  function Le32(n: nat): (r: seq<byte>)
    requires n < TWO_32
    ensures |r| == 4
  {
    LeBytes(n, 4)
  }

  /** `struct.unpack('I', b)[0]`. */
  function ReadLe32(b: seq<byte>): (n: nat)
    requires |b| == 4
    ensures n < TWO_32
  {
    b[0] as nat + 256 * (b[1] as nat + 256 * (b[2] as nat + 256 * b[3] as nat))
  }

  /** The four bytes of `Le32(n)`, one by one. */
  lemma Le32Bytes(n: nat)
    requires n < TWO_32
    ensures var n1 := n / 256; var n2 := n1 / 256; var n3 := n2 / 256;
            Le32(n) == [(n % 256) as byte, (n1 % 256) as byte, (n2 % 256) as byte, (n3 % 256) as byte]
  {
    var n1 := n / 256;
    var n2 := n1 / 256;
    var n3 := n2 / 256;
    assert LeBytes(n3, 1) == [(n3 % 256) as byte];
    assert LeBytes(n2, 2) == [(n2 % 256) as byte] + LeBytes(n3, 1);
    assert LeBytes(n1, 3) == [(n1 % 256) as byte] + LeBytes(n2, 2);
    assert LeBytes(n, 4) == [(n % 256) as byte] + LeBytes(n1, 3);
  }

  lemma Le32RoundTrip(n: nat)
    requires n < TWO_32
    ensures ReadLe32(Le32(n)) == n
  {
    Le32Bytes(n);
    var n1 := n / 256;
    var n2 := n1 / 256;
    var n3 := n2 / 256;
    Split256(n);
    Split256(n1);
    Split256(n2);
    assert n3 % 256 == n3;
  }

  lemma Split256(x: nat)
    ensures x == x % 256 + 256 * (x / 256) && x % 256 < 256
  {
  }

  lemma ReadLe32Injective(b: seq<byte>)
    requires |b| == 4
    ensures Le32(ReadLe32(b)) == b
  {
    var x2 := b[2] as nat + 256 * b[3] as nat;
    var x1 := b[1] as nat + 256 * x2;
    var n := b[0] as nat + 256 * x1;
    DivMod256(b[0] as nat, x1);
    DivMod256(b[1] as nat, x2);
    DivMod256(b[2] as nat, b[3] as nat);
    Le32Bytes(n);
  }

  lemma DivMod256(lo: nat, hi: nat)
    requires lo < 256
    ensures (lo + 256 * hi) % 256 == lo && (lo + 256 * hi) / 256 == hi
  {
  }

  /** `struct.pack('I', len(body)) + body`; a body of 2^32 bytes or more
      makes `struct.pack` raise, so it has no frame. */
  function EncodeFrame(body: seq<byte>): (r: seq<byte>)
    requires |body| < TWO_32
    ensures |r| == 4 + |body|
    ensures ReadLe32(r[..4]) == |body| && r[4..] == body
  {
    Le32RoundTrip(|body|);
    assert (Le32(|body|) + body)[..4] == Le32(|body|);
    Le32(|body|) + body
  }

  /** A 4-byte prefix announcing the body's length is its frame header. */
  lemma FrameOfPrefix(prefix: seq<byte>, body: seq<byte>)
    requires |prefix| == 4 && ReadLe32(prefix) == |body|
    ensures EncodeFrame(body) == prefix + body
  {
    ReadLe32Injective(prefix);
  }

  /** Bodies a sender can frame. */
  predicate Encodable(bodies: seq<seq<byte>>)
  {
    forall i :: 0 <= i < |bodies| ==> |bodies[i]| < TWO_32
  }

  /** Bodies a receiver accepts. */
  predicate Framable(bodies: seq<seq<byte>>)
  {
    forall i :: 0 <= i < |bodies| ==> |bodies[i]| <= MAX_MESSAGE
  }

  /** The bytes a sender writes for a sequence of messages. */
  function EncodeAll(bodies: seq<seq<byte>>): (r: seq<byte>)
    requires Encodable(bodies)
    decreases |bodies|
  {
    if bodies == [] then []
    else EncodeFrame(bodies[0]) + EncodeAll(bodies[1..])
  }

  /** Sending one more message appends its frame to the stream. */
  lemma {:induction false} EncodeAllAppend(bodies: seq<seq<byte>>, b: seq<byte>)
    requires Encodable(bodies) && |b| < TWO_32
    ensures Encodable(bodies + [b])
    ensures EncodeAll(bodies + [b]) == EncodeAll(bodies) + EncodeFrame(b)
    decreases |bodies|
  {
    if bodies == [] {
      assert bodies + [b] == [b];
    } else {
      assert (bodies + [b])[1..] == bodies[1..] + [b];
      EncodeAllAppend(bodies[1..], b);
    }
  }

  /** Why a read loop stopped. */
  datatype Stop =
    | Closed       // the peer closed between two frames
    | ShortPrefix  // fewer than 4 length bytes before the close (`struct.unpack` raises)
    | Oversize     // a length above MAX_MESSAGE
    | ShortBody    // the peer closed inside a body

  /** What a read loop finds at one offset: a reason to stop, or a
      complete frame whose body has `n` bytes. */
  datatype Head = Stopped(stop: Stop) | Complete(n: nat)

  function HeadAt(stream: seq<byte>, pos: nat): (h: Head)
    requires pos <= |stream|
    ensures h == Stopped(Closed) <==> pos == |stream|
    ensures h.Complete? ==> && pos + 4 <= |stream| && h.n == ReadLe32(stream[pos..pos + 4])
                            && h.n <= MAX_MESSAGE && pos + 4 + h.n <= |stream|
  {
    if pos == |stream| then Stopped(Closed)
    else if |stream| < pos + 4 then Stopped(ShortPrefix)
    else
      var n := ReadLe32(stream[pos..pos + 4]);
      if n > MAX_MESSAGE then Stopped(Oversize)
      else if |stream| < pos + 4 + n then Stopped(ShortBody)
      else Complete(n)
  }

  datatype Reading = Reading(bodies: seq<seq<byte>>, stop: Stop)

  /** What a read loop extracts from everything a connection delivers:
      the complete bodies, in order, and why it stopped. */
  function Frames(stream: seq<byte>): (r: Reading)
    decreases |stream|
  {
    match HeadAt(stream, 0)
    case Stopped(stop) => Reading([], stop)
    case Complete(n) =>
      var rest := Frames(stream[4 + n..]);
      Reading([stream[4..4 + n]] + rest.bodies, rest.stop)
  }

  /** No body the read loop hands on exceeds 1 MiB. */
  lemma {:induction false} FramesFramable(stream: seq<byte>)
    ensures Framable(Frames(stream).bodies)
    decreases |stream|
  {
    match HeadAt(stream, 0)
    case Stopped(_) =>
    case Complete(n) =>
      var rest := Frames(stream[4 + n..]);
      FramesFramable(stream[4 + n..]);
      var bodies := [stream[4..4 + n]] + rest.bodies;
      assert forall i :: 1 <= i < |bodies| ==> bodies[i] == rest.bodies[i - 1];
  }

  /** What the loop finds at offset `pos` is what it finds at the start
      of the bytes from `pos` on. */
  lemma HeadSuffix(stream: seq<byte>, pos: nat)
    requires pos <= |stream|
    ensures var t := stream[pos..];
            && HeadAt(t, 0) == HeadAt(stream, pos)
            && (HeadAt(t, 0).Complete? ==>
                  var n := HeadAt(t, 0).n;
                  t[4..4 + n] == stream[pos + 4..pos + 4 + n] && t[4 + n..] == stream[pos + 4 + n..])
  {
    var t := stream[pos..];
    if pos + 4 <= |stream| {
      assert t[0..4] == stream[pos..pos + 4];
    }
  }

  function Min(a: nat, b: nat): nat
  {
    if a < b then a else b
  }

  /** The body loop: ask for the missing bytes, at most RECV_CHUNK at a
      time, until `n` bytes have arrived or `recv` returns nothing. */
  method ReadBody(stream: seq<byte>, pos: nat, n: nat) returns (data: seq<byte>)
    requires pos <= |stream|
    ensures data == stream[pos..Min(pos + n, |stream|)]
  {
    data := [];
    while |data| < n
      invariant pos + |data| <= |stream|
      invariant |data| <= n
      invariant data == stream[pos..pos + |data|]
      decreases n - |data|
    {
      var want := Min(n - |data|, RECV_CHUNK);
      var chunk := stream[pos + |data|..Min(pos + |data| + want, |stream|)];
      if chunk == [] {
        break;
      }
      data := data + chunk;
    }
  }

  /** One pass of the read loop at offset `pos`: read a 4-byte length,
      stop on a close, a short prefix or an oversize length, then read the
      body and stop if the peer closed inside it. */
  method ReadFrame(stream: seq<byte>, pos: nat) returns (data: seq<byte>, stopped: Option<Stop>)
    requires pos <= |stream|
    ensures stopped.Some? ==> HeadAt(stream, pos) == Stopped(stopped.value)
    ensures stopped.None? ==> HeadAt(stream, pos) == Complete(|data|)
                              && data == stream[pos + 4..pos + 4 + |data|]
  {
    var prefix := stream[pos..Min(pos + 4, |stream|)];
    if |prefix| < 4 {
      return [], Some(if prefix == [] then Closed else ShortPrefix);
    }
    var n := ReadLe32(prefix);
    if n > MAX_MESSAGE {
      return [], Some(Oversize);
    }
    data := ReadBody(stream, pos + 4, n);
    if |data| != n {
      return [], Some(ShortBody);
    }
    stopped := None;
  }

  /** The read loop of `handle_message_client` and
      `message_receive_thread`: frames are read one after another until
      one of them stops the loop. */
  method ReadFrames(stream: seq<byte>) returns (bodies: seq<seq<byte>>, stop: Stop)
    ensures Reading(bodies, stop) == Frames(stream)
  {
    var pos := 0;
    bodies := [];
    assert stream[0..] == stream;
    while true
      invariant pos <= |stream|
      invariant ReadSoFar(stream, pos, bodies)
      decreases |stream| - pos
    {
      var data, stopped := ReadNext(stream, pos, bodies);
      if stopped.Some? {
        return bodies, stopped.value;
      }
      bodies, pos := bodies + [data], pos + 4 + |data|;
    }
  }

  /** One pass of the read loop, as a step of the whole reading. */
  method ReadNext(stream: seq<byte>, pos: nat, ghost bodies: seq<seq<byte>>) returns (data: seq<byte>, stopped: Option<Stop>)
    requires pos <= |stream| && ReadSoFar(stream, pos, bodies)
    ensures stopped.Some? ==> Frames(stream) == Reading(bodies, stopped.value)
    ensures stopped.None? ==> pos + 4 + |data| <= |stream| && ReadSoFar(stream, pos + 4 + |data|, bodies + [data])
  {
    data, stopped := ReadFrame(stream, pos);
    ReadStep(stream, pos, bodies, data, stopped);
  }

  /** The bodies read before offset `pos`, followed by whatever the loop
      makes of the rest, are what it makes of the whole stream. */
  ghost predicate ReadSoFar(stream: seq<byte>, pos: nat, bodies: seq<seq<byte>>)
    requires pos <= |stream|
  {
    var rest := Frames(stream[pos..]);
    Frames(stream) == Reading(bodies + rest.bodies, rest.stop)
  }

  /** What one pass of the loop contributes: the final answer when it
      stops, the next body otherwise. */
  lemma ReadStep(stream: seq<byte>, pos: nat, bodies: seq<seq<byte>>, data: seq<byte>, stopped: Option<Stop>)
    requires pos <= |stream| && ReadSoFar(stream, pos, bodies)
    requires stopped.Some? ==> HeadAt(stream, pos) == Stopped(stopped.value)
    requires stopped.None? ==> HeadAt(stream, pos) == Complete(|data|)
                               && data == stream[pos + 4..pos + 4 + |data|]
    ensures stopped.Some? ==> Frames(stream) == Reading(bodies, stopped.value)
    ensures stopped.None? ==> ReadSoFar(stream, pos + 4 + |data|, bodies + [data])
  {
    HeadSuffix(stream, pos);
    if stopped.Some? {
      assert bodies + [] == bodies;
    } else {
      var next := Frames(stream[pos + 4 + |data|..]);
      assert Frames(stream[pos..]) == Reading([data] + next.bodies, next.stop);
      assert bodies + ([data] + next.bodies) == (bodies + [data]) + next.bodies;
    }
  }

  /** A frame a sender writes is read back whole, followed by whatever
      the read loop makes of the bytes after it. */
  lemma FramesCons(b: seq<byte>, rest: seq<byte>)
    requires |b| <= MAX_MESSAGE
    ensures Frames(EncodeFrame(b) + rest) == Reading([b] + Frames(rest).bodies, Frames(rest).stop)
  {
    var frame := EncodeFrame(b);
    var s := frame + rest;
    assert s[0..4] == frame[..4];
    assert s[4..4 + |b|] == frame[4..];
    assert s[4 + |b|..] == rest;
  }

  /** The first frame of a stream a sender writes comes first. */
  lemma EncodeAllCons(bodies: seq<seq<byte>>, t: seq<byte>)
    requires Encodable(bodies) && bodies != []
    ensures EncodeAll(bodies) + t == EncodeFrame(bodies[0]) + (EncodeAll(bodies[1..]) + t)
  {
  }

  /** One more frame in front of a stream whose reading is known. */
  lemma FramesStep(bodies: seq<seq<byte>>, t: seq<byte>, mid: seq<seq<byte>>, rest: Reading)
    requires Framable(bodies) && bodies != []
    requires Frames(EncodeAll(bodies[1..]) + t) == Reading(mid + rest.bodies, rest.stop)
    ensures Frames(EncodeAll(bodies) + t) == Reading(([bodies[0]] + mid) + rest.bodies, rest.stop)
  {
    var b := bodies[0];
    var later := EncodeAll(bodies[1..]) + t;
    EncodeAllCons(bodies, t);
    FramesCons(b, later);
    assert [b] + (mid + rest.bodies) == ([b] + mid) + rest.bodies;
  }

  /** The frames a sender writes are read back in order, followed by
      whatever the read loop makes of the bytes after them. */
  lemma {:induction false} FramesAfterEncoded(bodies: seq<seq<byte>>, t: seq<byte>)
    requires Framable(bodies)
    ensures Frames(EncodeAll(bodies) + t) == Reading(bodies + Frames(t).bodies, Frames(t).stop)
    decreases |bodies|
  {
    if bodies == [] {
      assert EncodeAll(bodies) + t == t;
      assert bodies + Frames(t).bodies == Frames(t).bodies;
    } else {
      FramesAfterEncoded(bodies[1..], t);
      FramesStep(bodies, t, bodies[1..], Frames(t));
      assert [bodies[0]] + bodies[1..] == bodies;
    }
  }

  /** Framing round trip: whatever a sender writes, the read loop
      recovers message by message and then sees a clean close. */
  lemma FramesOfEncodeAll(bodies: seq<seq<byte>>)
    requires Framable(bodies)
    ensures Frames(EncodeAll(bodies)) == Reading(bodies, Closed)
  {
    FramesAfterEncoded(bodies, []);
    assert EncodeAll(bodies) + [] == EncodeAll(bodies);
    assert bodies + [] == bodies;
  }

  /** The converse: a stream the read loop consumes completely up to a
      clean close is exactly the encoding of the bodies it produced. */
  lemma {:induction false} EncodeAllOfFrames(stream: seq<byte>)
    requires Frames(stream).stop == Closed
    ensures Framable(Frames(stream).bodies) && EncodeAll(Frames(stream).bodies) == stream
    decreases |stream|
  {
    FramesFramable(stream);
    match HeadAt(stream, 0)
    case Stopped(_) =>
    case Complete(n) =>
      var later := stream[4 + n..];
      EncodeAllOfFrames(later);
      EncodeAllPrepend(stream[4..4 + n], Frames(later).bodies);
      FrameSplit(stream, n);
  }

  /** A complete frame at the start of a stream is a sender's frame. */
  lemma FrameSplit(stream: seq<byte>, n: nat)
    requires HeadAt(stream, 0) == Complete(n)
    ensures stream == EncodeFrame(stream[4..4 + n]) + stream[4 + n..]
  {
    FrameOfPrefix(stream[..4], stream[4..4 + n]);
    assert stream == stream[..4] + stream[4..4 + n] + stream[4 + n..];
  }

  lemma EncodeAllPrepend(b: seq<byte>, rest: seq<seq<byte>>)
    requires |b| < TWO_32 && Encodable(rest)
    ensures Encodable([b] + rest) && EncodeAll([b] + rest) == EncodeFrame(b) + EncodeAll(rest)
  {
    assert ([b] + rest)[1..] == rest;
  }

  /** A length above 1 MiB ends the loop at once: nothing after it is
      read, whatever follows. */
  lemma OversizeStops(prefix: seq<byte>, rest: seq<byte>)
    requires |prefix| == 4 && ReadLe32(prefix) > MAX_MESSAGE
    ensures Frames(prefix + rest) == Reading([], Oversize)
  {
    assert (prefix + rest)[0..4] == prefix;
  }

  /** Messages after a close that cuts a frame short are lost: the bodies
      read are exactly the complete frames before it. */
  lemma TruncatedStream(bodies: seq<seq<byte>>, partial: seq<byte>)
    requires Framable(bodies)
    requires partial != [] && Frames(partial).bodies == []
    ensures Frames(EncodeAll(bodies) + partial) == Reading(bodies, Frames(partial).stop)
  {
    FramesAfterEncoded(bodies, partial);
    assert bodies + [] == bodies;
  }

  /** What `json.loads(data.decode('utf-8'))` makes of one body, as seen
      by a read loop: a message; a JSONDecodeError, which the loop swallows
      before reading the next frame; or any other exception (a body that
      is not UTF-8, a JSON value that is not an object), which escapes to
      the outer handler and ends the loop as a close does. */
  datatype Decoding<M> = Good(msg: M) | Skip | Fail

  predicate NoFail<M>(bodies: seq<seq<byte>>, decode: seq<byte> -> Decoding<M>)
  {
    forall i :: 0 <= i < |bodies| ==> !decode(bodies[i]).Fail?
  }

  /** The messages a loop hands on: every body in order that decodes,
      skipping malformed ones, up to the first body whose decoding fails. */
  function Decoded<M>(bodies: seq<seq<byte>>, decode: seq<byte> -> Decoding<M>): (ms: seq<M>)
    ensures |ms| <= |bodies|
    ensures (forall i :: 0 <= i < |bodies| ==> decode(bodies[i]).Good?) ==> |ms| == |bodies|
    decreases |bodies|
  {
    if bodies == [] then []
    else
      match decode(bodies[0])
      case Skip => Decoded(bodies[1..], decode)
      case Fail => []
      case Good(m) => [m] + Decoded(bodies[1..], decode)
  }

  /** Decoding one more frame appends its message, if it has one. */
  lemma {:induction false} DecodedAppend<M>(bodies: seq<seq<byte>>, b: seq<byte>, decode: seq<byte> -> Decoding<M>)
    requires NoFail(bodies, decode) && !decode(b).Fail?
    ensures Decoded(bodies + [b], decode) ==
              Decoded(bodies, decode) + (if decode(b).Good? then [decode(b).msg] else [])
    decreases |bodies|
  {
    if bodies == [] {
      assert bodies + [b] == [b];
    } else {
      assert (bodies + [b])[1..] == bodies[1..] + [b];
      assert NoFail(bodies[1..], decode) by {
        forall i | 0 <= i < |bodies[1..]| ensures !decode(bodies[1..][i]).Fail? {
          assert bodies[1..][i] == bodies[i + 1];
        }
      }
      DecodedAppend(bodies[1..], b, decode);
    }
  }

  /** A read loop that has handled the first `i` bodies handles one more. */
  lemma DecodeStep<M>(bodies: seq<seq<byte>>, i: nat, decode: seq<byte> -> Decoding<M>)
    requires i < |bodies| && NoFail(bodies[..i], decode) && !decode(bodies[i]).Fail?
    ensures NoFail(bodies[..i + 1], decode)
    ensures Decoded(bodies[..i + 1], decode) == Decoded(bodies[..i], decode) +
              (if decode(bodies[i]).Good? then [decode(bodies[i]).msg] else [])
  {
    assert bodies[..i + 1] == bodies[..i] + [bodies[i]];
    DecodedAppend(bodies[..i], bodies[i], decode);
  }

  /** A read loop stops at its first failing body: nothing after it is
      handled. */
  lemma {:induction false} DecodeFailStep<M>(bodies: seq<seq<byte>>, i: nat, decode: seq<byte> -> Decoding<M>)
    requires i < |bodies| && NoFail(bodies[..i], decode) && decode(bodies[i]).Fail?
    ensures Decoded(bodies, decode) == Decoded(bodies[..i], decode)
    decreases i
  {
    if i > 0 {
      var tail := bodies[1..];
      assert !decode(bodies[..i][0]).Fail?;
      var pre := tail[..i - 1];
      assert NoFail(pre, decode) by {
        forall j | 0 <= j < |pre| ensures !decode(pre[j]).Fail? {
          assert pre[j] == bodies[..i][j + 1];
        }
      }
      DecodeFailStep(tail, i - 1, decode);
      assert bodies[..i][1..] == tail[..i - 1];
    }
  }

  /** The first `i` bodies hold no failure and decode to `msgs`. */
  ghost predicate DecodedSoFar<M>(bodies: seq<seq<byte>>, i: nat, decode: seq<byte> -> Decoding<M>, msgs: seq<M>)
  {
    i <= |bodies| && NoFail(bodies[..i], decode) && msgs == Decoded(bodies[..i], decode)
  }

  /** A body that does not fail extends the decoded messages by its own,
      if any. */
  lemma DecodeNext<M>(bodies: seq<seq<byte>>, i: nat, decode: seq<byte> -> Decoding<M>, msgs: seq<M>)
    requires i < |bodies| && DecodedSoFar(bodies, i, decode, msgs) && !decode(bodies[i]).Fail?
    ensures DecodedSoFar(bodies, i + 1, decode,
                         if decode(bodies[i]).Good? then msgs + [decode(bodies[i]).msg] else msgs)
  {
    DecodeStep(bodies, i, decode);
  }

  /** At the end of the bodies, or at a failing one, the decoded
      messages are all there are. */
  lemma DecodeDone<M>(bodies: seq<seq<byte>>, i: nat, decode: seq<byte> -> Decoding<M>, msgs: seq<M>)
    requires DecodedSoFar(bodies, i, decode, msgs) && (i == |bodies| || decode(bodies[i]).Fail?)
    ensures Decoded(bodies, decode) == msgs
  {
    if i == |bodies| {
      assert bodies[..i] == bodies;
    } else {
      DecodeFailStep(bodies, i, decode);
    }
  }
}
