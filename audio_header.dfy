/**
 * The audio datagram: 16 bytes of source id and 16 bytes of target id,
 * each NUL-padded with `bytes.ljust(16, b'\x00')`, then the payload.
 * Built by the client's send loop and by the relay when it forwards;
 * parsed by the relay (`data[:16].rstrip(b'\x00').decode('utf-8')`).
 */
module AudioHeader {
  import opened Common

  const ID_FIELD: nat := 16
  const HEADER_SIZE: nat := 32

  function Nuls(n: nat): (r: seq<byte>)
    ensures |r| == n && forall i :: 0 <= i < n ==> r[i] == NUL
  {
    seq(n, i => NUL)
  }

  /** `id.ljust(16, b'\x00')`: pads a short id and leaves a long one as it
      is; it never truncates. */
  function Pad16(id: Text): (r: seq<byte>)
    ensures |r| == if |id| < ID_FIELD then ID_FIELD else |id|
    ensures r[..|id|] == id
    ensures forall i :: |id| <= i < |r| ==> r[i] == NUL
  {
    if |id| >= ID_FIELD then id else id + Nuls(ID_FIELD - |id|)
  }

  /** `field.rstrip(b'\x00')`. */
  function RStripNul(s: seq<byte>): (r: seq<byte>)
    ensures |r| <= |s| && s[..|r|] == r
    ensures r == [] || r[|r| - 1] != NUL
    ensures forall i :: |r| <= i < |s| ==> s[i] == NUL
    decreases |s|
  {
    if s != [] && s[|s| - 1] == NUL then RStripNul(s[..|s| - 1]) else s
  }

  /** An id the header carries intact: it fits in its field, decodes,
      and does not end in NUL (the parser would strip that). */
  predicate FitsField(id: Text)
  {
    |id| <= ID_FIELD && Utf8Valid(id) && (id == [] || id[|id| - 1] != NUL)
  }

  function BuildPacket(source: Text, target: Text, payload: seq<byte>): seq<byte>
  {
    Pad16(source) + Pad16(target) + payload
  }

  /** What the relay makes of a datagram. */
  datatype Parsed =
    | TooShort                                            // at most 32 bytes: logged and ignored
    | BadText                                             // an id field fails to decode: the exception drops it
    | Frame(source: Text, target: Text, payload: seq<byte>)

  function Parse(data: seq<byte>): (p: Parsed)
    ensures p.TooShort? <==> |data| <= HEADER_SIZE
    ensures p.Frame? ==> FitsField(p.source) && FitsField(p.target)
    ensures p.Frame? ==> p.payload == data[HEADER_SIZE..] && p.payload != []
  {
    if |data| <= HEADER_SIZE then TooShort
    else
      var source := RStripNul(data[..ID_FIELD]);
      var target := RStripNul(data[ID_FIELD..HEADER_SIZE]);
      if Utf8Valid(source) && Utf8Valid(target) then Frame(source, target, data[HEADER_SIZE..])
      else BadText
  }

  /** The buffer the relay and the client both hand to `recvfrom`. */
  const DATAGRAM_BUFFER: nat := 4096
  /** The most payload that passes through that buffer behind a header. */
  const MAX_PAYLOAD: nat := DATAGRAM_BUFFER - HEADER_SIZE

  /** The first `n` bytes of `d`, or all of `d` when it is shorter. */
  function Truncate(d: seq<byte>, n: nat): (r: seq<byte>)
    ensures |r| == if |d| <= n then |d| else n
    ensures r == d[..|r|]
  {
    if |d| <= n then d else d[..n]
  }

  /** What `recvfrom(4096)` hands over of a datagram: a longer one is cut to
      the buffer's size and the rest is discarded. */
  function InBuffer(d: seq<byte>): (r: seq<byte>)
    ensures |r| <= DATAGRAM_BUFFER && |r| <= |d| && r == d[..|r|]
    ensures |d| <= DATAGRAM_BUFFER ==> r == d
  {
    Truncate(d, DATAGRAM_BUFFER)
  }

  /** Cutting a datagram to the buffer keeps its header: it parses the same
      way, with the payload cut to MAX_PAYLOAD bytes. */
  lemma ParseInBuffer(data: seq<byte>)
    ensures Parse(data).Frame? ==>
              Parse(InBuffer(data)) == Parse(data).(payload := Truncate(Parse(data).payload, MAX_PAYLOAD))
    ensures !Parse(data).Frame? ==> Parse(InBuffer(data)) == Parse(data)
  {
    if |data| > DATAGRAM_BUFFER {
      var r := InBuffer(data);
      assert r[..ID_FIELD] == data[..ID_FIELD];
      assert r[ID_FIELD..HEADER_SIZE] == data[ID_FIELD..HEADER_SIZE];
      assert r[HEADER_SIZE..] == data[HEADER_SIZE..][..MAX_PAYLOAD];
    }
  }

  /** A packet built with ids that fit their fields arrives with its
      payload cut to MAX_PAYLOAD bytes and its header intact. */
  lemma PacketInBuffer(source: Text, target: Text, payload: seq<byte>)
    requires |source| <= ID_FIELD && |target| <= ID_FIELD
    ensures InBuffer(BuildPacket(source, target, payload)) == BuildPacket(source, target, Truncate(payload, MAX_PAYLOAD))
  {
    var d := BuildPacket(source, target, payload);
    var h := Pad16(source) + Pad16(target);
    assert |h| == HEADER_SIZE;
    if |payload| > MAX_PAYLOAD {
      assert d[..DATAGRAM_BUFFER] == h + payload[..MAX_PAYLOAD];
    }
  }

  lemma StripPadded(id: Text)
    requires FitsField(id)
    ensures RStripNul(Pad16(id)) == id
  {
    var p := Pad16(id);
    var r := RStripNul(p);
    assert r == p[..|r|];
  }

  /** Header round trip: ids that fit their fields and a non-empty payload
      come back exactly as they were sent. */
  lemma HeaderRoundTrip(source: Text, target: Text, payload: seq<byte>)
    requires FitsField(source) && FitsField(target) && payload != []
    ensures Parse(BuildPacket(source, target, payload)) == Frame(source, target, payload)
  {
    var d := BuildPacket(source, target, payload);
    assert d[..ID_FIELD] == Pad16(source);
    assert d[ID_FIELD..HEADER_SIZE] == Pad16(target);
    assert d[HEADER_SIZE..] == payload;
    StripPadded(source);
    StripPadded(target);
  }

  /** A packet with an empty payload is exactly a header, which the relay
      and the client both ignore. */
  lemma EmptyPayloadIgnored(source: Text, target: Text)
    requires |source| <= ID_FIELD && |target| <= ID_FIELD
    ensures Parse(BuildPacket(source, target, [])) == TooShort
  {
  }

  /** Rebuilding the header from what was parsed gives back the datagram
      byte for byte, so the relay forwards exactly what it received. */
  lemma RebuildIsIdentity(data: seq<byte>)
    requires Parse(data).Frame?
    ensures BuildPacket(Parse(data).source, Parse(data).target, Parse(data).payload) == data
  {
    var f1 := data[..ID_FIELD];
    var f2 := data[ID_FIELD..HEADER_SIZE];
    PadStripped(f1);
    PadStripped(f2);
    assert data == f1 + f2 + data[HEADER_SIZE..] by {
      assert data == data[..HEADER_SIZE] + data[HEADER_SIZE..];
      assert data[..HEADER_SIZE] == f1 + f2;
    }
  }

  /** Padding a stripped field gives the field back. */
  lemma PadStripped(f: seq<byte>)
    requires |f| == ID_FIELD
    ensures Pad16(RStripNul(f)) == f
  {
    var r := RStripNul(f);
    var p := Pad16(r);
    assert |p| == |f|;
    forall i | 0 <= i < |f|
      ensures p[i] == f[i]
    {
      if i < |r| {
        assert p[i] == p[..|r|][i];
      }
    }
  }

  /** `ljust` does not truncate: a source id longer than 16 bytes never
      survives a round trip. */
  lemma LongIdMisparsed(source: Text, target: Text, payload: seq<byte>)
    requires |source| > ID_FIELD
    ensures Parse(BuildPacket(source, target, payload)) != Frame(source, target, payload)
  {
  }

  /** A concrete instance: a 17-byte source "aaaaaaaaaaaaaaaaa", target "b"
      and payload [1] parse as source "aaaaaaaaaaaaaaaa", target "ab" and
      payload [0, 1]. */
  lemma LongIdExample()
    ensures var a: byte := 97;
            var b: byte := 98;
            Parse(BuildPacket(seq(17, i => a), [b], [1])) == Frame(seq(16, i => a), [a, b], [0, 1])
  {
    var a: byte := 97;
    var b: byte := 98;
    var d := BuildPacket(seq(17, i => a), [b], [1]);
    assert d[..ID_FIELD] == seq(16, i => a);
    assert d[ID_FIELD..HEADER_SIZE] == [a, b] + Nuls(14);
    assert Utf8Valid([a, b]) by { AsciiIsUtf8([a, b]); }
    assert RStripNul([a, b] + Nuls(14)) == [a, b] by {
      assert Pad16([a, b]) == [a, b] + Nuls(14);
      StripPadded([a, b]);
    }
    assert d[HEADER_SIZE..] == [0, 1];
    assert Utf8Valid(seq(16, i => a)) by { AsciiIsUtf8(seq(16, i => a)); }
  }
}
