/** IPv4 datagrams as bytes (section 3.1 of RFC 791), and TCP segments inside them. */
module Ipv4Wire {
  import opened FixedWidth
  import opened TcpSegments
  import opened NetParsers
  import opened Checksums
  import TcpWire

  const HEADER_LENGTH: nat := 20

  datatype IPv4Header = IPv4Header(
    ver: byte, hlen: byte, tos: byte, len: u16, id: u16, df: bool, mf: bool, offset: u16,
    ttl: byte, proto: byte, cksum: u16, src: u32, dst: u32)

  datatype IPv4Datagram = IPv4Datagram(header: IPv4Header, payload: seq<byte>)

  function FirstByte(h: IPv4Header): byte { h.ver * 16 % 256 + h.hlen % 16 }

  function FragmentWord(h: IPv4Header): u16 {
    (if h.df then 0x4000 else 0) + (if h.mf then 0x2000 else 0) + h.offset % 0x2000
  }

  /** The fields before the checksum, and those after it with the padding. */
  function HeadBytes(h: IPv4Header): seq<byte> {
    ToBytes(FirstByte(h), 1) + ToBytes(h.tos, 1) + ToBytes(h.len, 2) + ToBytes(h.id, 2) +
    ToBytes(FragmentWord(h), 2) + ToBytes(h.ttl, 1) + ToBytes(h.proto, 1)
  }

  function TailBytes(h: IPv4Header): seq<byte>
    requires h.hlen >= 5
  {
    ToBytes(h.src, 4) + ToBytes(h.dst, 4) + TcpWire.Zeros(4 * h.hlen - HEADER_LENGTH)
  }

  /** Only version 4 and headers of at least the minimum length can be written. */
  function SerializeHeader(h: IPv4Header): Option<seq<byte>> {
    if h.ver != 4 || 4 * h.hlen < HEADER_LENGTH then None
    else Some(HeadBytes(h) + ToBytes(h.cksum, 2) + TailBytes(h))
  }

  /** The fields in their order. */
  function ReadFields(p: Parser): (IPv4Header, Parser) {
    var (first, p1) := ReadU8(p);
    var (tos, p2) := ReadU8(p1);
    var (len, p3) := ReadU16(p2);
    var (id, p4) := ReadU16(p3);
    var (word, p5) := ReadU16(p4);
    var (ttl, p6) := ReadU8(p5);
    var (proto, p7) := ReadU8(p6);
    var (cksum, p8) := ReadU16(p7);
    var (src, p9) := ReadU32(p8);
    var (dst, p10) := ReadU32(p9);
    (IPv4Header(first / 16, first % 16, tos, len, id, word / 0x4000 % 2 == 1, word / 0x2000 % 2 == 1, word % 0x2000,
                ttl, proto, cksum, src, dst), p10)
  }

  /** The verdict, the fields and the parser after the header; a buffer too short for any
      header leaves the fields as they were. */
  function ParseHeader(h0: IPv4Header, p: Parser): (ParseResult, IPv4Header, Parser) {
    var size := |p.buffer|;
    if size < HEADER_LENGTH then (PacketTooShort, h0, p)
    else
      var (h, p1) := ReadFields(p);
      if size < 4 * h.hlen then (PacketTooShort, h, p1)
      else if h.ver != 4 then (WrongIPVersion, h, p1)
      else if h.hlen < 5 then (HeaderTooShort, h, p1)
      else if size != h.len then (TruncatedPacket, h, p1)
      else
        var p2 := SkipBytes(p1, h.hlen * 4 - HEADER_LENGTH);
        if p2.error != NoError then (p2.error, h, p2)
        else if Value(AddBytes(Checksum(0, false), p.buffer[..4 * h.hlen])) != 0 then (BadChecksum, h, p2)
        else (NoError, h, p2)
  }

  function PayloadLength(h: IPv4Header): u16 { (h.len - 4 * h.hlen) % TWO_16 }

  /** The sum over the pseudo-header that a TCP checksum starts from. */
  function PseudoChecksum(h: IPv4Header): u32 {
    h.src / TWO_16 + h.src % TWO_16 + h.dst / TWO_16 + h.dst % TWO_16 + h.proto + PayloadLength(h)
  }

  function SerializeDatagram(d: IPv4Datagram): Option<seq<byte>> {
    var zeroed := SerializeHeader(d.header.(cksum := 0));
    if |d.payload| != PayloadLength(d.header) || zeroed.None? then None
    else
      var cksum := Value(AddBytes(Checksum(0, false), zeroed.value));
      Some(SerializeHeader(d.header.(cksum := cksum)).value + d.payload)
  }

  /** The header's own verdict is dropped. */
  function ParseDatagram(h0: IPv4Header, buffer: seq<byte>): (ParseResult, IPv4Datagram) {
    var (_, h, p) := ParseHeader(h0, Parser(buffer, NoError));
    (if |p.buffer| != PayloadLength(h) then PacketTooShort else p.error, IPv4Datagram(h, p.buffer))
  }

  // ---------- Round trip ----------

  predicate WellFormed(h: IPv4Header) { h.ver == 4 && 5 <= h.hlen < 16 && h.offset < 0x2000 }

  lemma HeadUnfolds(h: IPv4Header, rest: seq<byte>)
    ensures HeadBytes(h) + rest ==
            ToBytes(FirstByte(h), 1) + (ToBytes(h.tos, 1) + (ToBytes(h.len, 2) + (ToBytes(h.id, 2) +
              (ToBytes(FragmentWord(h), 2) + (ToBytes(h.ttl, 1) + (ToBytes(h.proto, 1) + rest))))))
  {
    hide ToBytes, FirstByte, FragmentWord;
    var a, b, c, d := ToBytes(FirstByte(h), 1), ToBytes(h.tos, 1), ToBytes(h.len, 2), ToBytes(h.id, 2);
    var e, f, g := ToBytes(FragmentWord(h), 2), ToBytes(h.ttl, 1), ToBytes(h.proto, 1);
    TcpWire.Assoc(a + b + c + d + e + f, g, rest);
    TcpWire.Assoc(a + b + c + d + e, f, g + rest);
    TcpWire.Assoc(a + b + c + d, e, f + (g + rest));
    TcpWire.Assoc(a + b + c, d, e + (f + (g + rest)));
    TcpWire.Assoc(a + b, c, d + (e + (f + (g + rest))));
    TcpWire.Assoc(a, b, c + (d + (e + (f + (g + rest)))));
  }

  lemma TailUnfolds(h: IPv4Header, rest: seq<byte>)
    requires h.hlen >= 5
    ensures TailBytes(h) + rest
            == ToBytes(h.src, 4) + (ToBytes(h.dst, 4) + (TcpWire.Zeros(4 * h.hlen - HEADER_LENGTH) + rest))
  {
    hide ToBytes;
    var a, b, z := ToBytes(h.src, 4), ToBytes(h.dst, 4), TcpWire.Zeros(4 * h.hlen - HEADER_LENGTH);
    TcpWire.Assoc(a + b, z, rest);
    TcpWire.Assoc(a, b, z + rest);
  }

  lemma PackedFields(h: IPv4Header)
    requires WellFormed(h)
    ensures FirstByte(h) / 16 == h.ver && FirstByte(h) % 16 == h.hlen
    ensures FragmentWord(h) / 0x4000 % 2 == (if h.df then 1 else 0)
    ensures FragmentWord(h) / 0x2000 % 2 == (if h.mf then 1 else 0)
    ensures FragmentWord(h) % 0x2000 == h.offset
  {
    hide FragmentWord;
    FragmentFields(h);
  }

  lemma FragmentFields(h: IPv4Header)
    requires h.offset < 0x2000
    ensures FragmentWord(h) / 0x4000 % 2 == (if h.df then 1 else 0)
    ensures FragmentWord(h) / 0x2000 % 2 == (if h.mf then 1 else 0)
    ensures FragmentWord(h) % 0x2000 == h.offset
  {
  }

  lemma FieldsRoundTrip(h: IPv4Header, payload: seq<byte>)
    requires WellFormed(h)
    ensures ReadFields(Parser(SerializeHeader(h).value + payload, NoError))
            == (h, Parser(TcpWire.Zeros(4 * h.hlen - HEADER_LENGTH) + payload, NoError))
  {
    hide ToBytes, ReadInt, HeadBytes, TailBytes, FirstByte, FragmentWord, ReadU8, ReadU16, ReadU32;
    var pad := TcpWire.Zeros(4 * h.hlen - HEADER_LENGTH) + payload;
    var r10 := ToBytes(h.dst, 4) + pad;
    var r9 := ToBytes(h.src, 4) + r10;
    var r8 := ToBytes(h.cksum, 2) + r9;
    var r7 := ToBytes(h.proto, 1) + r8;
    var r6 := ToBytes(h.ttl, 1) + r7;
    var r5 := ToBytes(FragmentWord(h), 2) + r6;
    var r4 := ToBytes(h.id, 2) + r5;
    var r3 := ToBytes(h.len, 2) + r4;
    var r2 := ToBytes(h.tos, 1) + r3;
    TcpWire.Assoc(HeadBytes(h) + ToBytes(h.cksum, 2), TailBytes(h), payload);
    TcpWire.Assoc(HeadBytes(h), ToBytes(h.cksum, 2), TailBytes(h) + payload);
    TailUnfolds(h, payload);
    HeadUnfolds(h, r8);
    ReadBack8(FirstByte(h), r2);
    ReadBack8(h.tos, r3);
    ReadBack16(h.len, r4);
    ReadBack16(h.id, r5);
    ReadBack16(FragmentWord(h), r6);
    ReadBack8(h.ttl, r7);
    ReadBack8(h.proto, r8);
    ReadBack16(h.cksum, r9);
    ReadBack32(h.src, r10);
    ReadBack32(h.dst, pad);
    PackedFields(h);
  }

  lemma SameAround(h: IPv4Header, h': IPv4Header)
    requires h.hlen >= 5 && h' == h.(cksum := h'.cksum)
    ensures HeadBytes(h') == HeadBytes(h) && TailBytes(h') == TailBytes(h)
    ensures |HeadBytes(h)| == 10 && |TailBytes(h)| == 4 * h.hlen - 12
  {
  }

  /** The header with its checksum filled in. */
  function Stamped(h: IPv4Header): IPv4Header
    requires SerializeHeader(h.(cksum := 0)).Some?
  {
    h.(cksum := Value(AddBytes(Checksum(0, false), SerializeHeader(h.(cksum := 0)).value)))
  }

  lemma StampedVerifies(h: IPv4Header)
    requires WellFormed(h)
    ensures |SerializeHeader(Stamped(h)).value| == 4 * h.hlen
    ensures Value(AddBytes(Checksum(0, false), SerializeHeader(Stamped(h)).value)) == 0
  {
    hide AddBytes, ToBytes, HeadBytes, TailBytes, Value;
    SameAround(h, h.(cksum := 0));
    SameAround(h, Stamped(h));
    TcpWire.WordBytes(0);
    TcpWire.WordBytes(Stamped(h).cksum);
    InsertedChecksumVerifies(0, HeadBytes(h), TailBytes(h));
  }

  /** Writing a datagram and reading it back succeeds, in the header's own verdict too, and
      restores every field and the payload; the checksum field holds the computed checksum. */
  lemma DatagramRoundTrip(d: IPv4Datagram, h0: IPv4Header)
    requires WellFormed(d.header) && d.header.len == 4 * d.header.hlen + |d.payload|
    ensures SerializeDatagram(d).Some?
    ensures var buffer := SerializeDatagram(d).value;
            && ParseHeader(h0, Parser(buffer, NoError)) == (NoError, Stamped(d.header), Parser(d.payload, NoError))
            && ParseDatagram(h0, buffer) == (NoError, d.(header := Stamped(d.header)))
  {
    WrittenStamped(d);
    StampedHeaderRoundTrip(d.header, d.payload, h0);
    ExactPayload(Stamped(d.header));
    hide SerializeDatagram, SerializeHeader, Stamped, ParseHeader, PayloadLength;
  }

  lemma ExactPayload(h: IPv4Header)
    requires h.len >= 4 * h.hlen
    ensures PayloadLength(h) == h.len - 4 * h.hlen
  {
  }

  lemma WrittenStamped(d: IPv4Datagram)
    requires WellFormed(d.header) && d.header.len == 4 * d.header.hlen + |d.payload|
    ensures SerializeDatagram(d).Some? && SerializeHeader(Stamped(d.header)).Some?
    ensures SerializeDatagram(d).value == SerializeHeader(Stamped(d.header)).value + d.payload
    ensures Stamped(d.header) == d.header.(cksum := Stamped(d.header).cksum)
  {
    ExactPayload(d.header);
    hide PayloadLength, AddBytes, Value, HeadBytes, TailBytes;
  }

  lemma StampedHeaderRoundTrip(header: IPv4Header, payload: seq<byte>, h0: IPv4Header)
    requires WellFormed(header) && header.len == 4 * header.hlen + |payload|
    ensures SerializeHeader(Stamped(header)).Some?
    ensures ParseHeader(h0, Parser(SerializeHeader(Stamped(header)).value + payload, NoError))
            == (NoError, Stamped(header), Parser(payload, NoError))
  {
    hide AddBytes, ToBytes, HeadBytes, TailBytes, ReadFields, Value;
    var h := Stamped(header);
    StampedVerifies(header);
    FieldsRoundTrip(h, payload);
    var bytes := SerializeHeader(h).value;
    assert (bytes + payload)[..4 * h.hlen] == bytes;
    var pad := TcpWire.Zeros(4 * h.hlen - HEADER_LENGTH);
    assert (pad + payload)[4 * h.hlen - HEADER_LENGTH..] == payload;
  }

  /** A TCP segment wrapped in an IPv4 datagram comes back through both layers. */
  lemma TcpInIpRoundTrip(seg: Segment, h: IPv4Header, h0: IPv4Header)
    requires WellFormed(h) && 5 <= seg.header.doff < 16
    requires h.len == 4 * h.hlen + 4 * seg.header.doff + |seg.payload|
    ensures TcpWire.SerializeSegment(seg, PseudoChecksum(h)).Some?
    ensures var d := IPv4Datagram(h, TcpWire.SerializeSegment(seg, PseudoChecksum(h)).value);
            && SerializeDatagram(d).Some?
            && (var (result, d') := ParseDatagram(h0, SerializeDatagram(d).value);
                && result == NoError
                && TcpWire.ParseSegment(d'.payload, PseudoChecksum(d'.header))
                   == (NoError, Some(TcpWire.Stamped(seg, PseudoChecksum(h)))))
  {
    hide TcpWire.ParseSegment, ParseDatagram, SerializeDatagram, PseudoChecksum;
    PseudoBound(h);
    TcpWire.SegmentRoundTrip(seg, PseudoChecksum(h));
    TcpWire.SerializedLength(seg, PseudoChecksum(h));
    var d := IPv4Datagram(h, TcpWire.SerializeSegment(seg, PseudoChecksum(h)).value);
    DatagramRoundTrip(d, h0);
    SamePseudo(h, Stamped(h));
  }

  lemma PseudoBound(h: IPv4Header)
    ensures PseudoChecksum(h) < 0x100_0000
  {
  }

  /** The pseudo-header does not include the header checksum. */
  lemma SamePseudo(h: IPv4Header, h': IPv4Header)
    requires h' == h.(cksum := h'.cksum)
    ensures PseudoChecksum(h') == PseudoChecksum(h)
  {
  }

  // ---------- Which buffers are accepted ----------

  function Word(high: int, low: int): int { high * 256 + low }

  /** The fields that the verdict depends on, and where they are. */
  lemma FieldsRead(buffer: seq<byte>)
    requires |buffer| >= HEADER_LENGTH
    ensures var (h, p) := ReadFields(Parser(buffer, NoError));
            && p == Parser(buffer[HEADER_LENGTH..], NoError)
            && h.ver == buffer[0] / 16 && h.hlen == buffer[0] % 16
            && h.len == Word(buffer[2], buffer[3])
  {
    hide ReadInt;
    var p := Parser(buffer, NoError);
    var p1 := ReadInt(p, 1).1;
    var p2 := ReadInt(p1, 1).1;
    var p3 := ReadInt(p2, 2).1;
    var p4 := ReadInt(p3, 2).1;
    var p5 := ReadInt(p4, 2).1;
    var p6 := ReadInt(p5, 1).1;
    var p7 := ReadInt(p6, 1).1;
    var p8 := ReadInt(p7, 2).1;
    var p9 := ReadInt(p8, 4).1;
    TcpWire.ReadIntSpec(p, 1);
    TcpWire.ReadIntSpec(p1, 1);
    TcpWire.ReadIntSpec(p2, 2);
    TcpWire.ReadIntSpec(p3, 2);
    TcpWire.ReadIntSpec(p4, 2);
    TcpWire.ReadIntSpec(p5, 1);
    TcpWire.ReadIntSpec(p6, 1);
    TcpWire.ReadIntSpec(p7, 2);
    TcpWire.ReadIntSpec(p8, 4);
    TcpWire.ReadIntSpec(p9, 4);
    TcpWire.OneByte(p);
    assert p2.buffer == buffer[2..];
    TwoBytes(p2);
  }

  lemma TwoBytes(p: Parser)
    requires p.error == NoError && |p.buffer| >= 2
    ensures ReadInt(p, 2).0 == Word(p.buffer[0], p.buffer[1])
  {
    assert p.buffer[..2][..1] == [p.buffer[0]];
    assert FromBytes([p.buffer[0]]) == p.buffer[0] by { assert [p.buffer[0]][..0] == []; }
  }

  /** The header is accepted exactly when all the checks that the parser promises hold. */
  lemma HeaderAccepted(h0: IPv4Header, buffer: seq<byte>)
    ensures ParseHeader(h0, Parser(buffer, NoError)).0 == NoError <==>
              && |buffer| >= HEADER_LENGTH
              && buffer[0] / 16 == 4 && 5 <= buffer[0] % 16
              && 4 * (buffer[0] % 16) <= |buffer| == Word(buffer[2], buffer[3])
              && Value(AddBytes(Checksum(0, false), buffer[..4 * (buffer[0] % 16)])) == 0
  {
    hide AddBytes, Value, ReadFields;
    if |buffer| >= HEADER_LENGTH { FieldsRead(buffer); }
  }

  /** The header is right, whatever its checksum. */
  predicate RightLengths(buffer: seq<byte>)
    requires |buffer| >= HEADER_LENGTH
  {
    buffer[0] / 16 == 4 && 5 <= buffer[0] % 16 && 4 * (buffer[0] % 16) <= |buffer| == Word(buffer[2], buffer[3])
  }

  /** The payload length that the lengths in the header call for. */
  function Announced(buffer: seq<byte>): u16
    requires |buffer| >= HEADER_LENGTH
  {
    (Word(buffer[2], buffer[3]) - 4 * (buffer[0] % 16)) % TWO_16
  }

  /** The datagram parser drops the verdict. It accepts every datagram whose header is right
      but for the checksum, and of the others exactly those in which what is left after the
      fields that were read has the length that the lengths in the header call for. */
  lemma DatagramAccepted(h0: IPv4Header, buffer: seq<byte>)
    ensures ParseDatagram(h0, buffer).0 == NoError <==>
              if |buffer| < HEADER_LENGTH then |buffer| == PayloadLength(h0)
              else RightLengths(buffer)
                   || |buffer| - HEADER_LENGTH == Announced(buffer)
  {
    hide ParseDatagram, RightLengths, Announced;
    if |buffer| < HEADER_LENGTH {
      ShortAccepted(h0, buffer);
    } else {
      LongAccepted(h0, buffer);
      if RightLengths(buffer) { PayloadFits(buffer); }
    }
  }

  lemma ShortAccepted(h0: IPv4Header, buffer: seq<byte>)
    requires |buffer| < HEADER_LENGTH
    ensures ParseDatagram(h0, buffer).0 == NoError <==> |buffer| == PayloadLength(h0)
  {
    assert ParseHeader(h0, Parser(buffer, NoError)) == (PacketTooShort, h0, Parser(buffer, NoError));
    hide ParseHeader, PayloadLength;
  }

  lemma LongAccepted(h0: IPv4Header, buffer: seq<byte>)
    requires |buffer| >= HEADER_LENGTH
    ensures ParseDatagram(h0, buffer).0 == NoError <==>
              |buffer| - (if RightLengths(buffer) then 4 * (buffer[0] % 16) else HEADER_LENGTH)
              == Announced(buffer)
  {
    HeaderLeaves(h0, buffer);
    var h := ParseHeader(h0, Parser(buffer, NoError)).1;
    SameAnnounced(h, buffer);
    hide ParseHeader, RightLengths, Word, PayloadLength, Announced;
  }

  lemma SameAnnounced(h: IPv4Header, buffer: seq<byte>)
    requires |buffer| >= HEADER_LENGTH && h.hlen == buffer[0] % 16 && h.len == Word(buffer[2], buffer[3])
    ensures PayloadLength(h) == Announced(buffer)
  {
  }

  lemma PayloadFits(buffer: seq<byte>)
    requires |buffer| >= HEADER_LENGTH && RightLengths(buffer)
    ensures |buffer| - 4 * (buffer[0] % 16) == Announced(buffer)
  {
  }

  /** What the header parser leaves to the datagram parser. */
  lemma HeaderLeaves(h0: IPv4Header, buffer: seq<byte>)
    requires |buffer| >= HEADER_LENGTH
    ensures var (_, h, p) := ParseHeader(h0, Parser(buffer, NoError));
            && h.hlen == buffer[0] % 16 && h.len == Word(buffer[2], buffer[3]) && p.error == NoError
            && |p.buffer| == |buffer| - if RightLengths(buffer) then 4 * h.hlen else HEADER_LENGTH
  {
    hide AddBytes, Value, ReadFields, Word;
    FieldsRead(buffer);
  }

  /** So it is not the header parser's verdict: a bad checksum never matters. */
  lemma DatagramIgnoresChecksum(h0: IPv4Header, buffer: seq<byte>)
    requires ParseHeader(h0, Parser(buffer, NoError)).0 == BadChecksum
    ensures ParseDatagram(h0, buffer).0 == NoError
  {
    hide AddBytes, Value, ReadFields;
    FieldsRead(buffer);
  }

  lemma ExampleSum()
    ensures AddBytes(Checksum(0, false), [0x45, 0, 0, 20] + TcpWire.Zeros(16)).sum == 0x4500 + 20
  {
    var version: seq<byte>, length: seq<byte> := [0x45, 0], [0, 20];
    assert Total(version, false) == 0x4500;
    assert Total(length, false) == 20;
    TotalConcat(version, length, false);
    assert version + length == [0x45, 0, 0, 20];
    TotalConcat(version + length, TcpWire.Zeros(16), false);
    TcpWire.ZerosTotal(16, false);
    SumIsTotal(Checksum(0, false), version + length + TcpWire.Zeros(16));
  }

  /** And such a datagram exists: twenty bytes, version four, with a zero for a checksum. */
  lemma BadChecksumExample(h0: IPv4Header)
    ensures var buffer: seq<byte> := [0x45, 0, 0, 20] + TcpWire.Zeros(16);
            && ParseHeader(h0, Parser(buffer, NoError)).0 == BadChecksum
            && ParseDatagram(h0, buffer).0 == NoError
  {
    var buffer: seq<byte> := [0x45, 0, 0, 20] + TcpWire.Zeros(16);
    ExampleSum();
    ZeroValue(AddBytes(Checksum(0, false), buffer));
    assert buffer[..20] == buffer;
    hide AddBytes, Value, ParseHeader, ParseDatagram;
    BadSum(h0, buffer);
    DatagramIgnoresChecksum(h0, buffer);
  }

  /** The verdict on a header that is right but for its checksum. */
  lemma BadSum(h0: IPv4Header, buffer: seq<byte>)
    requires |buffer| >= HEADER_LENGTH && RightLengths(buffer)
    requires Value(AddBytes(Checksum(0, false), buffer[..4 * (buffer[0] % 16)])) != 0
    ensures ParseHeader(h0, Parser(buffer, NoError)).0 == BadChecksum
  {
    hide AddBytes, Value, ReadFields;
    FieldsRead(buffer);
  }

  // ---------- The program ----------

  method ReadIpFields(p: NetParser) returns (h: IPv4Header)
    modifies p
    ensures (h, p.View()) == ReadFields(old(p.View()))
  {
    hide ReadU8, ReadU16, ReadU32;
    var first := p.U8();
    var tos := p.U8();
    var len := p.U16();
    var id := p.U16();
    var word := p.U16();
    var ttl := p.U8();
    var proto := p.U8();
    var cksum := p.U16();
    var src := p.U32();
    var dst := p.U32();
    h := IPv4Header(first / 16, first % 16, tos, len, id, word / 0x4000 % 2 == 1, word / 0x2000 % 2 == 1, word % 0x2000,
                    ttl, proto, cksum, src, dst);
  }

  method ParseIpHeader(h0: IPv4Header, p: NetParser) returns (result: ParseResult, h: IPv4Header)
    modifies p
    ensures (result, h, p.View()) == ParseHeader(h0, old(p.View()))
  {
    hide ReadFields, AddBytes, Value, SkipBytes;
    h := h0;
    var original := p.buffer;
    var size := |p.buffer|;
    if size < HEADER_LENGTH {
      return PacketTooShort, h;
    }
    h := ReadIpFields(p);
    if size < 4 * h.hlen {
      return PacketTooShort, h;
    }
    if h.ver != 4 {
      return WrongIPVersion, h;
    }
    if h.hlen < 5 {
      return HeaderTooShort, h;
    }
    if size != h.len {
      return TruncatedPacket, h;
    }
    p.RemovePrefix(h.hlen * 4 - HEADER_LENGTH);
    if p.error != NoError {
      return p.error, h;
    }
    var check := new InternetChecksum(0);
    check.Add(original[..4 * h.hlen]);
    var value := check.GetValue();
    if value != 0 {
      return BadChecksum, h;
    }
    result := NoError;
  }

  method SerializeIpHeader(h: IPv4Header) returns (r: Option<seq<byte>>)
    ensures r == SerializeHeader(h)
  {
    hide ToBytes, FirstByte, FragmentWord;
    if h.ver != 4 || 4 * h.hlen < HEADER_LENGTH {
      return None;
    }
    var ret := UnparseInt([], FirstByte(h), 1);
    ret := UnparseInt(ret, h.tos, 1);
    ret := UnparseInt(ret, h.len, 2);
    ret := UnparseInt(ret, h.id, 2);
    ret := UnparseInt(ret, FragmentWord(h), 2);
    ret := UnparseInt(ret, h.ttl, 1);
    ret := UnparseInt(ret, h.proto, 1);
    assert ret == HeadBytes(h) by { assert [] + ToBytes(FirstByte(h), 1) == ToBytes(FirstByte(h), 1); }
    ret := UnparseInt(ret, h.cksum, 2);
    ghost var z := TcpWire.Zeros(4 * h.hlen - HEADER_LENGTH);
    TcpWire.Assoc(ret, ToBytes(h.src, 4), ToBytes(h.dst, 4));
    TcpWire.Assoc(ret, ToBytes(h.src, 4) + ToBytes(h.dst, 4), z);
    ret := UnparseInt(ret, h.src, 4);
    ret := UnparseInt(ret, h.dst, 4);
    ret := ret + TcpWire.Zeros(4 * h.hlen - |ret|);
    return Some(ret);
  }

  method ParseIpDatagram(h0: IPv4Header, buffer: seq<byte>) returns (result: ParseResult, d: IPv4Datagram)
    ensures (result, d) == ParseDatagram(h0, buffer)
  {
    hide ParseHeader;
    var p := new NetParser(buffer);
    var _, h := ParseIpHeader(h0, p);
    d := IPv4Datagram(h, p.buffer);
    if |p.buffer| != PayloadLength(h) {
      return PacketTooShort, d;
    }
    result := p.error;
  }

  method SerializeIpDatagram(d: IPv4Datagram) returns (r: Option<seq<byte>>)
    ensures r == SerializeDatagram(d)
  {
    hide AddBytes, Value, HeadBytes, TailBytes;
    if |d.payload| != PayloadLength(d.header) {
      return None;
    }
    var zeroed := SerializeIpHeader(d.header.(cksum := 0));
    if zeroed.None? {
      return None;
    }
    var check := new InternetChecksum(0);
    check.Add(zeroed.value);
    var cksum := check.GetValue();
    var header := SerializeIpHeader(d.header.(cksum := cksum));
    return Some(header.value + d.payload);
  }
}
