/**
 The tracing header put in front of NATS requests (common/rpc.go): a magic number, the length
 of the carrier, the carrier, and then the payload.

 JSON decoding of the carrier is a parameter: it fails, yields null, or yields a header.
 */
module Framing {
  import opened Arith
  import opened Text

  type Byte = b: int | 0 <= b < 256

  const MAGIC := 0xF0F0_F0F0
  const MAX_SPAN := 1024

  datatype Decoded<H> = Bad | Null | Header(header: H)

  function Uint32ToBytes(n: nat): (s: seq<Byte>)
    requires n < 0x1_0000_0000
    ensures |s| == 4
  {
    [n / 0x100_0000, n / 0x1_0000 % 0x100, n / 0x100 % 0x100, n % 0x100]
  }

  function BytesToUint32(s: seq<Byte>): (n: nat)
    requires |s| == 4
    ensures n < 0x1_0000_0000
  {
    var a: int, b: int, c: int, d: int := s[0], s[1], s[2], s[3];
    ((a * 0x100 + b) * 0x100 + c) * 0x100 + d
  }

  lemma Uint32RoundTrip(n: nat)
    requires n < 0x1_0000_0000
    ensures BytesToUint32(Uint32ToBytes(n)) == n
    ensures var b := Uint32ToBytes(n);
            n == 16777216 * b[0] as int + 65536 * b[1] as int + 256 * b[2] as int + b[3] as int
  {
    DivByParts(n);
  }

  lemma DivByParts(n: nat)
    ensures n / 0x1_0000 == n / 0x100 / 0x100 && n / 0x100_0000 == n / 0x100 / 0x100 / 0x100
  {
  }

  lemma BytesRoundTrip(s: seq<Byte>)
    requires |s| == 4
    ensures Uint32ToBytes(BytesToUint32(s)) == s
  {
    var n := BytesToUint32(s);
    DivByParts(n);
    var a: int, b: int, c: int, d: int := s[0], s[1], s[2], s[3];
    DivModUnique(n, 0x100, (a * 0x100 + b) * 0x100 + c, d);
    DivModUnique((a * 0x100 + b) * 0x100 + c, 0x100, a * 0x100 + b, c);
    DivModUnique(a * 0x100 + b, 0x100, a, b);
  }

  // ------------------------------------------------------------------
  // Sending
  // ------------------------------------------------------------------

  function Frame(carrier: seq<Byte>, payload: seq<Byte>): seq<Byte>
    requires |carrier| <= MAX_SPAN
  {
    Uint32ToBytes(MAGIC) + Uint32ToBytes(|carrier|) + carrier + payload
  }

  /** RequestWithContext: without a carrier, or with one that is too long, the payload goes out bare. */
  method Send(carrier: Option<seq<Byte>>, payload: seq<Byte>) returns (wire: seq<Byte>)
    ensures wire == if carrier.Some? && |carrier.value| <= 1024 then Frame(carrier.value, payload) else payload
  {
    if carrier.None? || |carrier.value| > MAX_SPAN {
      return payload;
    }
    var buffer := Uint32ToBytes(MAGIC);
    buffer := buffer + Uint32ToBytes(|carrier.value|);
    buffer := buffer + carrier.value;
    buffer := buffer + payload;
    return buffer;
  }

  // ------------------------------------------------------------------
  // Receiving
  // ------------------------------------------------------------------

  /** bytes.Buffer, as far as Read goes. */
  class Buffer {
    var unread: seq<Byte>

    constructor (data: seq<Byte>)
      ensures unread == data
    {
      unread := data;
    }

    /** At most n bytes; at the end of the data an error, unless none were asked for. */
    method Read(n: nat) returns (bytes: seq<Byte>, err: bool)
      modifies this
      ensures err <==> n > 0 && old(unread) == []
      ensures bytes == old(unread)[..if n <= |old(unread)| then n else |old(unread)|]
      ensures unread == old(unread)[|bytes|..]
    {
      var k := if n <= |unread| then n else |unread|;
      bytes, err := unread[..k], n > 0 && unread == [];
      unread := unread[k..];
    }
  }

  /** The data is a frame with this carrier length: what the parser looks for, said without a parser. */
  predicate IsFrame(data: seq<Byte>, carrier: seq<Byte>, payload: seq<Byte>) {
    1 <= |carrier| <= MAX_SPAN && data == Frame(carrier, payload)
  }

  ghost predicate Opens<H(!new)>(data: seq<Byte>, decode: seq<Byte> -> Decoded<H>) {
    exists carrier, payload :: IsFrame(data, carrier, payload) && !decode(carrier).Bad?
  }

  /**
   ParseNatsData: on any input whatever, it either recognises a frame whose carrier decodes, and
   returns its payload, or returns the data as it came. It never reads out of range.
   */
  method ParseNatsData<H(!new)>(data: seq<Byte>, decode: seq<Byte> -> Decoded<H>) returns (rest: seq<Byte>, header: Option<H>)
    ensures forall carrier, payload :: IsFrame(data, carrier, payload) && !decode(carrier).Bad? ==>
              && rest == payload
              && header == (if decode(carrier).Header? then Some(decode(carrier).header) else None)
    ensures !Opens(data, decode) ==> rest == data && header == None
  {
    var buffer := new Buffer(data);
    var magicNumBytes, err := buffer.Read(4);
    if err || |magicNumBytes| != 4 || BytesToUint32(magicNumBytes) != MAGIC {
      NotMagic(data);
      return data, None;
    }
    BytesRoundTrip(magicNumBytes);
    var headerLenBytes;
    headerLenBytes, err := buffer.Read(4);
    if err || |headerLenBytes| != 4 {
      return data, None;
    }
    var headerLen := BytesToUint32(headerLenBytes);
    BytesRoundTrip(headerLenBytes);
    LengthField(data, headerLenBytes);
    if headerLen <= 0 || headerLen > MAX_SPAN {
      return data, None;
    }
    var headerBytes;
    headerBytes, err := buffer.Read(headerLen);
    if err || |headerBytes| != headerLen {
      return data, None;
    }
    assert data == Frame(headerBytes, buffer.unread);
    FrameUnique(data, headerBytes, buffer.unread);
    var header' := decode(headerBytes);
    if header'.Bad? {
      return data, None;
    }
    assert IsFrame(data, headerBytes, buffer.unread);
    assert data[8 + headerLen..] == buffer.unread;
    return data[8 + headerLen..], if header'.Header? then Some(header'.header) else None;
  }

  lemma FrameFields(carrier: seq<Byte>, payload: seq<Byte>)
    requires |carrier| <= MAX_SPAN
    ensures var f := Frame(carrier, payload);
            && |f| == 8 + |carrier| + |payload|
            && f[..4] == Uint32ToBytes(MAGIC) == [0xF0, 0xF0, 0xF0, 0xF0] && f[4..8] == Uint32ToBytes(|carrier|)
            && f[8..8 + |carrier|] == carrier && f[8 + |carrier|..] == payload
            && BytesToUint32(f[..4]) == MAGIC && BytesToUint32(f[4..8]) == |carrier|
  {
    Uint32RoundTrip(MAGIC);
    Uint32RoundTrip(|carrier|);
  }

  lemma NotMagic(data: seq<Byte>)
    requires |data| < 4 || BytesToUint32(data[..4]) != MAGIC
    ensures forall carrier, payload :: !IsFrame(data, carrier, payload)
  {
    forall carrier, payload | IsFrame(data, carrier, payload)
      ensures false
    {
      FrameFields(carrier, payload);
    }
  }

  lemma LengthField(data: seq<Byte>, bytes: seq<Byte>)
    requires |data| >= 8 && bytes == data[4..8]
    ensures forall carrier, payload :: IsFrame(data, carrier, payload) ==> |carrier| == BytesToUint32(bytes)
  {
    forall carrier, payload | IsFrame(data, carrier, payload)
      ensures |carrier| == BytesToUint32(bytes)
    {
      FrameFields(carrier, payload);
    }
  }

  /** A frame has one reading. */
  lemma FrameUnique(data: seq<Byte>, carrier: seq<Byte>, payload: seq<Byte>)
    requires IsFrame(data, carrier, payload)
    ensures forall c, p :: IsFrame(data, c, p) ==> c == carrier && p == payload
  {
    FrameFields(carrier, payload);
    forall c, p | IsFrame(data, c, p)
      ensures c == carrier && p == payload
    {
      FrameFields(c, p);
    }
  }

  /** The data is a frame whose carrier is a header proper. */
  ghost predicate Traced<H(!new)>(data: seq<Byte>, decode: seq<Byte> -> Decoded<H>) {
    exists carrier, payload :: IsFrame(data, carrier, payload) && decode(carrier).Header?
  }

  /** What the handler finds in the message, as a function of what arrived. */
  ghost function Received<H(!new)>(data: seq<Byte>, decode: seq<Byte> -> Decoded<H>): seq<Byte> {
    if Traced(data, decode) then
      var carrier, payload :| IsFrame(data, carrier, payload) && decode(carrier).Header?;
      payload
    else data
  }

  class Msg {
    var data: seq<Byte>

    constructor (data: seq<Byte>)
      ensures this.data == data
    {
      this.data := data;
    }
  }

  /** NatsWrapHandler, up to the call of the handler. */
  method Unwrap<H(!new)>(msg: Msg, decode: seq<Byte> -> Decoded<H>)
    modifies msg
    ensures msg.data == Received(old(msg.data), decode)
  {
    var data, header := ParseNatsData(msg.data, decode);
    if Traced(msg.data, decode) {
      var carrier, payload :| IsFrame(msg.data, carrier, payload) && decode(carrier).Header?;
      FrameUnique(msg.data, carrier, payload);
    }
    if header.Some? {
      msg.data := data;
    }
  }

  /**
   The round trip of a framed request: the handler gets exactly the payload that was sent if and
   only if the carrier is not empty and decodes to a header that is not null. Otherwise it gets
   the whole frame.
   */
  lemma FramedRoundTripIff<H(!new)>(carrier: seq<Byte>, payload: seq<Byte>, decode: seq<Byte> -> Decoded<H>)
    requires |carrier| <= MAX_SPAN
    ensures var wire := Frame(carrier, payload);
            && (Received(wire, decode) == payload <==> carrier != [] && decode(carrier).Header?)
            && (Received(wire, decode) != payload ==> Received(wire, decode) == wire)
  {
    var wire := Frame(carrier, payload);
    FrameFields(carrier, payload);
    if carrier != [] {
      FrameUnique(wire, carrier, payload);
      assert IsFrame(wire, carrier, payload);
    } else {
      LengthField(wire, wire[4..8]);
    }
  }

  /** A bare payload arrives unchanged if and only if it does not look like a traced frame itself. */
  lemma BareRoundTripIff<H(!new)>(payload: seq<Byte>, decode: seq<Byte> -> Decoded<H>)
    ensures Received(payload, decode) == payload <==> !Traced(payload, decode)
  {
    if Traced(payload, decode) {
      var c, p :| IsFrame(payload, c, p) && decode(c).Header? && p == Received(payload, decode);
      FrameFields(c, p);
    }
  }

  /** In particular when it does not start with the magic number. */
  lemma NoMagicPassesThrough<H(!new)>(payload: seq<Byte>, decode: seq<Byte> -> Decoded<H>)
    requires |payload| < 4 || BytesToUint32(payload[..4]) != MAGIC
    ensures Received(payload, decode) == payload
  {
    NotMagic(payload);
  }
}
