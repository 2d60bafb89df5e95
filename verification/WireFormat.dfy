/** The 11-byte big-endian frame header: constants, flag bits, codec and validation. */
module WireFormat {
  import opened Results
  import opened Octets

  type u16 = x: int | 0 <= x < 0x1_0000
  type u32 = x: int | 0 <= x < 0x1_0000_0000

  const HEADER_SIZE := 11
  const ABSOLUTE_MAX_PAYLOAD_SIZE: u32 := 2_147_483_647
  const ABORT_METHOD_ID: u16 := 0xFFFF
  const AUTH_METHOD_ID: u16 := 0xFFFE
  const RESERVED_METHOD_ID: u16 := 0

  const DIRECTION_TO_PARENT: bits := 0x01
  const IS_RESPONSE: bits := 0x02
  const IS_ERROR: bits := 0x04
  const IS_STREAM: bits := 0x08
  const STREAM_END: bits := 0x10
  const IS_ACK: bits := 0x20
  const RESERVED_MASK: bits := 0xC0

  const RESPONSE := DIRECTION_TO_PARENT | IS_RESPONSE
  const ERROR_RESPONSE := DIRECTION_TO_PARENT | IS_RESPONSE | IS_ERROR
  const STREAM_ERROR_RESPONSE := DIRECTION_TO_PARENT | IS_RESPONSE | IS_ERROR | IS_STREAM
  const STREAM_CHUNK := DIRECTION_TO_PARENT | IS_RESPONSE | IS_STREAM
  const STREAM_END_RESPONSE := DIRECTION_TO_PARENT | IS_RESPONSE | IS_STREAM | STREAM_END
  const ACK_RESPONSE := DIRECTION_TO_PARENT | IS_RESPONSE | IS_ACK

  predicate HasFlag(flags: bits, flag: bits) {
    flags & flag != 0
  }

  datatype Header = Header(methodId: u16, flags: bits, requestId: u32, payloadLength: u32)

  datatype ProtocolError = ReservedMethodId | PayloadExceedsMaximum | PayloadExceedsAbsolute | ReservedFlagBits

  /** The first rule of the wire contract that `h` breaks, if any. */
  function Violation(h: Header, maxPayload: u32): Option<ProtocolError> {
    if h.methodId == RESERVED_METHOD_ID then Some(ReservedMethodId)
    else if h.payloadLength > maxPayload then Some(PayloadExceedsMaximum)
    else if h.payloadLength > ABSOLUTE_MAX_PAYLOAD_SIZE then Some(PayloadExceedsAbsolute)
    else if h.flags & RESERVED_MASK != 0 then Some(ReservedFlagBits)
    else None
  }

  /** The largest payload a peer configured with `maxPayload` accepts. */
  function PayloadLimit(maxPayload: u32): u32 {
    if maxPayload < ABSOLUTE_MAX_PAYLOAD_SIZE then maxPayload else ABSOLUTE_MAX_PAYLOAD_SIZE
  }

  // Big-endian integers

  function Be16(x: u16): (s: seq<byte>)
    ensures |s| == 2
  {
    [x / 0x100, x % 0x100]
  }

  function FromBe16(hi: byte, lo: byte): u16 {
    hi * 0x100 + lo
  }

  function Be32(x: u32): (s: seq<byte>)
    ensures |s| == 4
  {
    [x / 0x100 / 0x100 / 0x100, x / 0x100 / 0x100 % 0x100, x / 0x100 % 0x100, x % 0x100]
  }

  function FromBe32(a: byte, b: byte, c: byte, d: byte): u32 {
    ((a * 0x100 + b) * 0x100 + c) * 0x100 + d
  }

  lemma Be16RoundTrip(x: u16)
    ensures FromBe16(Be16(x)[0], Be16(x)[1]) == x
  {
  }

  lemma FromBe16RoundTrip(hi: byte, lo: byte)
    ensures Be16(FromBe16(hi, lo)) == [hi, lo]
  {
  }

  lemma Be32RoundTrip(x: u32)
    ensures FromBe32(Be32(x)[0], Be32(x)[1], Be32(x)[2], Be32(x)[3]) == x
  {
  }

  lemma FromBe32RoundTrip(a: byte, b: byte, c: byte, d: byte)
    ensures Be32(FromBe32(a, b, c, d)) == [a, b, c, d]
  {
    var ab := a * 0x100 + b;
    var abc := ab * 0x100 + c;
    assert (abc * 0x100 + d) / 0x100 == abc && (ab * 0x100 + c) / 0x100 == ab;
  }

  // Header codec

  function Encode(h: Header): (s: seq<byte>)
    ensures |s| == HEADER_SIZE
  {
    Be16(h.methodId) + [FlagsOctet(h.flags)] + Be32(h.requestId) + Be32(h.payloadLength)
  }

  function Decode(s: seq<byte>): (h: Option<Header>)
    ensures h.Some? <==> |s| >= HEADER_SIZE
  {
    if |s| < HEADER_SIZE then None
    else Some(Header(FromBe16(s[0], s[1]), OctetFlags(s[2]),
                     FromBe32(s[3], s[4], s[5], s[6]), FromBe32(s[7], s[8], s[9], s[10])))
  }

  /** Decoding reads back exactly the header that was encoded, whatever follows it. */
  lemma DecodeEncode(h: Header, tail: seq<byte>)
    ensures Decode(Encode(h) + tail) == Some(h)
  {
    FlagsRoundTrip(h.flags);
    Be16RoundTrip(h.methodId);
    Be32RoundTrip(h.requestId);
    Be32RoundTrip(h.payloadLength);
    var m, r, n := Be16(h.methodId), Be32(h.requestId), Be32(h.payloadLength);
    var s := Encode(h) + tail;
    assert s[0] == m[0] && s[1] == m[1] && s[2] == FlagsOctet(h.flags);
    assert s[3] == r[0] && s[4] == r[1] && s[5] == r[2] && s[6] == r[3];
    assert s[7] == n[0] && s[8] == n[1] && s[9] == n[2] && s[10] == n[3];
  }

  /** Encoding a decoded header reproduces the eleven bytes it was read from. */
  lemma EncodeDecode(s: seq<byte>)
    requires |s| >= HEADER_SIZE
    ensures Encode(Decode(s).value) == s[..HEADER_SIZE]
  {
    OctetRoundTrip(s[2]);
    FromBe16RoundTrip(s[0], s[1]);
    FromBe32RoundTrip(s[3], s[4], s[5], s[6]);
    FromBe32RoundTrip(s[7], s[8], s[9], s[10]);
  }

  /** The number a byte string spells, most significant byte first. */
  function BigEndian(s: seq<byte>): nat {
    if s == [] then 0 else BigEndian(s[..|s| - 1]) * 0x100 + s[|s| - 1]
  }

  /** The fields sit at offsets 0, 2, 3 and 7, each most significant byte first. */
  lemma FieldLayout(h: Header)
    ensures BigEndian(Encode(h)[0..2]) == h.methodId
    ensures OctetFlags(Encode(h)[2]) == h.flags
    ensures BigEndian(Encode(h)[3..7]) == h.requestId
    ensures BigEndian(Encode(h)[7..11]) == h.payloadLength
  {
    hide FlagsOctet, OctetFlags;
    FlagsRoundTrip(h.flags);
    assert Encode(h)[0..2] == Be16(h.methodId);
    assert Encode(h)[3..7] == Be32(h.requestId);
    assert Encode(h)[7..11] == Be32(h.payloadLength);
    Be16Spells(h.methodId);
    Be32Spells(h.requestId);
    Be32Spells(h.payloadLength);
  }

  lemma Be16Spells(x: u16)
    ensures BigEndian(Be16(x)) == x
  {
    var s := Be16(x);
    assert s[..1] == [s[0]] && s[..1][..0] == [];
    assert BigEndian([s[0]]) == s[0];
  }

  lemma Be32Spells(x: u32)
    ensures BigEndian(Be32(x)) == x
  {
    var s := Be32(x);
    assert s[..3][..2] == s[..2] && s[..2][..1] == s[..1] && s[..1][..0] == [];
    assert BigEndian(s[..1]) == s[0];
    assert BigEndian(s[..2]) == x / 0x100 / 0x100;
    assert BigEndian(s[..3]) == x / 0x100;
  }

  /** Validation accepts exactly the headers of the wire contract. */
  lemma ValidHeaders(h: Header, maxPayload: u32)
    ensures Violation(h, maxPayload).None?
      <==> 1 <= h.methodId && h.payloadLength <= PayloadLimit(maxPayload) && h.flags < 0x40
  {
    assert h.flags & 0xC0 == 0 <==> h.flags < 0x40;
  }

  /** Which rule is reported: the first one broken, in this order. */
  lemma FirstBrokenRule(h: Header, maxPayload: u32)
    ensures Violation(h, maxPayload) == Some(ReservedMethodId) <==> h.methodId == 0
    ensures Violation(h, maxPayload) == Some(PayloadExceedsMaximum)
      <==> h.methodId != 0 && h.payloadLength > maxPayload
    ensures Violation(h, maxPayload) == Some(PayloadExceedsAbsolute)
      <==> h.methodId != 0 && 0x7FFF_FFFF < h.payloadLength <= maxPayload
    ensures Violation(h, maxPayload) == Some(ReservedFlagBits)
      <==> h.methodId != 0 && h.payloadLength <= maxPayload && h.payloadLength <= 0x7FFF_FFFF && h.flags >= 0x40
  {
    assert h.flags & 0xC0 == 0 <==> h.flags < 0x40;
  }

  /** Writes the header over the first eleven bytes of `buf` and leaves the rest alone. */
  method EncodeInto(h: Header, buf: array<byte>)
    requires buf.Length >= HEADER_SIZE
    modifies buf
    ensures buf[..] == Encode(h) + old(buf[HEADER_SIZE..])
  {
    CopyInto(buf, 0, Be16(h.methodId));
    buf[2] := FlagsOctet(h.flags);
    CopyInto(buf, 3, Be32(h.requestId));
    CopyInto(buf, 7, Be32(h.payloadLength));
  }

  method CopyInto(buf: array<byte>, at: nat, src: seq<byte>)
    requires at + |src| <= buf.Length
    modifies buf
    ensures buf[at..at + |src|] == src
    ensures forall j :: 0 <= j < at || at + |src| <= j < buf.Length ==> buf[j] == old(buf[j])
  {
    for i := 0 to |src|
      invariant buf[at..at + i] == src[..i]
      invariant forall j :: 0 <= j < at || at + i <= j < buf.Length ==> buf[j] == old(buf[j])
    {
      buf[at + i] := src[i];
    }
  }
}
