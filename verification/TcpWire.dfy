/** TCP segments as bytes (section 3.1 of RFC 793). */
module TcpWire {
  import opened FixedWidth
  import opened TcpSegments
  import opened NetParsers
  import opened Checksums

  const HEADER_LENGTH: nat := 20

  function FlagByte(h: TCPHeader): byte {
    (if h.urg then 32 else 0) + (if h.ack then 16 else 0) + (if h.psh then 8 else 0) +
    (if h.rst then 4 else 0) + (if h.syn then 2 else 0) + (if h.fin then 1 else 0)
  }

  predicate BitSet(b: byte, weight: nat)
    requires weight > 0
  {
    b / weight % 2 == 1
  }

  function WithFlags(h: TCPHeader, flags: byte): TCPHeader {
    h.(urg := BitSet(flags, 32), ack := BitSet(flags, 16), psh := BitSet(flags, 8),
       rst := BitSet(flags, 4), syn := BitSet(flags, 2), fin := BitSet(flags, 1))
  }

  lemma FlagBits(h: TCPHeader)
    ensures BitSet(FlagByte(h), 32) == h.urg && BitSet(FlagByte(h), 16) == h.ack && BitSet(FlagByte(h), 8) == h.psh
    ensures BitSet(FlagByte(h), 4) == h.rst && BitSet(FlagByte(h), 2) == h.syn && BitSet(FlagByte(h), 1) == h.fin
  {
  }

  function Zeros(n: nat): seq<byte> { seq(n, _ => 0) }

  /** The fields before the checksum, and those after it with the padding. */
  function HeadBytes(h: TCPHeader): seq<byte> {
    ToBytes(h.sport, 2) + ToBytes(h.dport, 2) + ToBytes(h.seqno, 4) + ToBytes(h.ackno, 4) +
    ToBytes(h.doff * 16 % 256, 1) + ToBytes(FlagByte(h), 1) + ToBytes(h.win, 2)
  }

  function TailBytes(h: TCPHeader): seq<byte>
    requires h.doff >= 5
  {
    ToBytes(h.uptr, 2) + Zeros(4 * h.doff - HEADER_LENGTH)
  }

  /** A header shorter than the minimum cannot be written. */
  function SerializeHeader(h: TCPHeader): Option<seq<byte>> {
    if h.doff < 5 then None else Some(HeadBytes(h) + ToBytes(h.cksum, 2) + TailBytes(h))
  }

  /** The header's own verdict, its fields, and the parser after it. */
  function ParseHeader(p: Parser): (ParseResult, TCPHeader, Parser) {
    var (sport, p1) := ReadU16(p);
    var (dport, p2) := ReadU16(p1);
    var (seqno, p3) := ReadU32(p2);
    var (ackno, p4) := ReadU32(p3);
    var (offset, p5) := ReadU8(p4);
    var (flags, p6) := ReadU8(p5);
    var (win, p7) := ReadU16(p6);
    var (cksum, p8) := ReadU16(p7);
    var (uptr, p9) := ReadU16(p8);
    var h := WithFlags(TCPHeader(sport, dport, seqno, ackno, offset / 16, false, false, false, false, false, false,
                                 win, cksum, uptr), flags);
    if h.doff < 5 then (HeaderTooShort, h, p9)
    else
      var p10 := SkipBytes(p9, h.doff * 4 - HEADER_LENGTH);
      (p10.error, h, p10)
  }

  /** The segment with the checksum that is sent: computed over the pseudo-header, the
      header with a zero in that field, and the payload. */
  function Stamped(seg: Segment, pseudo: u32): Segment
    requires SerializeHeader(seg.header.(cksum := 0)).Some?
  {
    var zeroed := SerializeHeader(seg.header.(cksum := 0)).value;
    seg.(header := seg.header.(cksum := Value(AddBytes(AddBytes(Checksum(pseudo, false), zeroed), seg.payload))))
  }

  function SerializeSegment(seg: Segment, pseudo: u32): Option<seq<byte>> {
    if SerializeHeader(seg.header.(cksum := 0)).None? then None
    else Some(SerializeHeader(Stamped(seg, pseudo).header).value + seg.payload)
  }

  /** The header's own verdict is dropped; only the parser's error counts. */
  function ParseSegment(buffer: seq<byte>, pseudo: u32): (ParseResult, Option<Segment>) {
    if Value(AddBytes(Checksum(pseudo, false), buffer)) != 0 then (BadChecksum, None)
    else
      var (_, h, p) := ParseHeader(Parser(buffer, NoError));
      (p.error, Some(Segment(h, p.buffer)))
  }

  // ---------- Round trip ----------

  lemma Assoc(a: seq<byte>, b: seq<byte>, c: seq<byte>)
    ensures a + b + c == a + (b + c)
  {
  }

  /** The fields one after the other, nested as the parser meets them. */
  lemma HeadUnfolds(h: TCPHeader, rest: seq<byte>)
    ensures HeadBytes(h) + rest ==
            ToBytes(h.sport, 2) + (ToBytes(h.dport, 2) + (ToBytes(h.seqno, 4) + (ToBytes(h.ackno, 4) +
              (ToBytes(h.doff * 16 % 256, 1) + (ToBytes(FlagByte(h), 1) + (ToBytes(h.win, 2) + rest))))))
  {
    hide ToBytes, FlagByte;
    var a, b, c, d := ToBytes(h.sport, 2), ToBytes(h.dport, 2), ToBytes(h.seqno, 4), ToBytes(h.ackno, 4);
    var e, f, g := ToBytes(h.doff * 16 % 256, 1), ToBytes(FlagByte(h), 1), ToBytes(h.win, 2);
    Assoc(a + b + c + d + e + f, g, rest);
    Assoc(a + b + c + d + e, f, g + rest);
    Assoc(a + b + c + d, e, f + (g + rest));
    Assoc(a + b + c, d, e + (f + (g + rest)));
    Assoc(a + b, c, d + (e + (f + (g + rest))));
    Assoc(a, b, c + (d + (e + (f + (g + rest)))));
  }

  /** A header that can be written and whose offset fits its four bits is read back whole. */
  lemma HeaderRoundTrip(h: TCPHeader, payload: seq<byte>)
    requires 5 <= h.doff < 16
    ensures ParseHeader(Parser(SerializeHeader(h).value + payload, NoError)) == (NoError, h, Parser(payload, NoError))
  {
    hide ToBytes, ReadInt, FlagByte, BitSet, HeadBytes, ReadU8, ReadU16, ReadU32;
    var pad := Zeros(4 * h.doff - HEADER_LENGTH) + payload;
    var r9 := ToBytes(h.uptr, 2) + pad;
    var r8 := ToBytes(h.cksum, 2) + r9;
    var r7 := ToBytes(h.win, 2) + r8;
    var r6 := ToBytes(FlagByte(h), 1) + r7;
    var r5 := ToBytes(h.doff * 16 % 256, 1) + r6;
    var r4 := ToBytes(h.ackno, 4) + r5;
    var r3 := ToBytes(h.seqno, 4) + r4;
    var r2 := ToBytes(h.dport, 2) + r3;
    SplitHeader(h, payload);
    HeadUnfolds(h, r8);
    ReadBack16(h.sport, r2);
    ReadBack16(h.dport, r3);
    ReadBack32(h.seqno, r4);
    ReadBack32(h.ackno, r5);
    ReadBack8(h.doff * 16 % 256, r6);
    ReadBack8(FlagByte(h), r7);
    ReadBack16(h.win, r8);
    ReadBack16(h.cksum, r9);
    ReadBack16(h.uptr, pad);
    FlagBits(h);
    OffsetNibble(h.doff);
    assert pad[4 * h.doff - HEADER_LENGTH..] == payload;
  }

  lemma OffsetNibble(doff: byte)
    requires doff < 16
    ensures doff * 16 % 256 / 16 == doff
  {
    var x: int := doff * 16;
    assert x % 256 == x;
  }

  lemma SplitHeader(h: TCPHeader, payload: seq<byte>)
    requires h.doff >= 5
    ensures SerializeHeader(h).value + payload
            == HeadBytes(h) +
               (ToBytes(h.cksum, 2) + (ToBytes(h.uptr, 2) + (Zeros(4 * h.doff - HEADER_LENGTH) + payload)))
  {
    hide ToBytes, HeadBytes;
    Assoc(HeadBytes(h) + ToBytes(h.cksum, 2), TailBytes(h), payload);
    Assoc(HeadBytes(h), ToBytes(h.cksum, 2), TailBytes(h) + payload);
    Assoc(ToBytes(h.uptr, 2), Zeros(4 * h.doff - HEADER_LENGTH), payload);
  }

  lemma WordBytes(x: u16)
    ensures ToBytes(x, 2) == BigEndian16(x)
  {
    assert ToBytes(x / 256, 1) == ToBytes(x / 256 / 256, 0) + [x / 256 % 256];
  }

  /** Writing a segment and reading it with the same pseudo-header sum succeeds and restores
      the payload and every field; the checksum field holds the computed checksum. */
  lemma SegmentRoundTrip(seg: Segment, pseudo: u32)
    requires 5 <= seg.header.doff < 16
    requires 4 * seg.header.doff + |seg.payload| <= 65535 && pseudo < 0x100_0000
    ensures SerializeSegment(seg, pseudo).Some?
    ensures ParseSegment(SerializeSegment(seg, pseudo).value, pseudo) == (NoError, Some(Stamped(seg, pseudo)))
  {
    hide ToBytes, ParseHeader, FlagByte, AddBytes, HeadBytes, TailBytes;
    var h, c := seg.header, Checksum(pseudo, false);
    var zeroed := h.(cksum := 0);
    var cksum := Value(AddBytes(AddBytes(c, SerializeHeader(zeroed).value), seg.payload));
    var full := h.(cksum := cksum);
    AddInPieces(c, SerializeHeader(zeroed).value, seg.payload);
    SameAround(h, zeroed);
    SameAround(h, full);
    WordBytes(0);
    WordBytes(cksum);
    Assoc(HeadBytes(h) + ToBytes(0, 2), TailBytes(h), seg.payload);
    Assoc(HeadBytes(h) + ToBytes(cksum, 2), TailBytes(h), seg.payload);
    InsertedChecksumVerifies(pseudo, HeadBytes(h), TailBytes(h) + seg.payload);
    HeaderRoundTrip(full, seg.payload);
  }

  lemma SameAround(h: TCPHeader, h': TCPHeader)
    requires h.doff >= 5 && h' == h.(cksum := h'.cksum)
    ensures HeadBytes(h') == HeadBytes(h) && TailBytes(h') == TailBytes(h)
    ensures |HeadBytes(h)| == 16 && |TailBytes(h)| == 4 * h.doff - 18
  {
  }

  lemma SerializedLength(seg: Segment, pseudo: u32)
    requires seg.header.doff >= 5
    ensures SerializeSegment(seg, pseudo).Some?
    ensures |SerializeSegment(seg, pseudo).value| == 4 * seg.header.doff + |seg.payload|
  {
  }

  // ---------- Which buffers are accepted ----------

  lemma ReadIntSpec(p: Parser, len: nat)
    ensures var p' := ReadInt(p, len).1;
            && (p'.error == NoError <==> p.error == NoError && len <= |p.buffer|)
            && (p'.error == NoError ==> p'.buffer == p.buffer[len..])
  {
  }

  /** Nine fields of twenty bytes. */
  lemma FieldsRead(buffer: seq<byte>)
    ensures var p9 := AfterFields(Parser(buffer, NoError));
            && (p9.error == NoError <==> HEADER_LENGTH <= |buffer|)
            && (p9.error == NoError ==> p9.buffer == buffer[HEADER_LENGTH..]
                                        && ParseHeader(Parser(buffer, NoError)).1.doff == buffer[12] / 16)
  {
    hide ReadInt;
    var p := Parser(buffer, NoError);
    var p1 := ReadInt(p, 2).1;
    var p2 := ReadInt(p1, 2).1;
    var p3 := ReadInt(p2, 4).1;
    var p4 := ReadInt(p3, 4).1;
    var p5 := ReadInt(p4, 1).1;
    var p6 := ReadInt(p5, 1).1;
    var p7 := ReadInt(p6, 2).1;
    var p8 := ReadInt(p7, 2).1;
    ReadIntSpec(p, 2);
    ReadIntSpec(p1, 2);
    ReadIntSpec(p2, 4);
    ReadIntSpec(p3, 4);
    ReadIntSpec(p4, 1);
    ReadIntSpec(p5, 1);
    ReadIntSpec(p6, 2);
    ReadIntSpec(p7, 2);
    ReadIntSpec(p8, 2);
    if HEADER_LENGTH <= |buffer| {
      assert p4.buffer == buffer[12..];
      OneByte(p4);
    }
  }

  lemma OneByte(p: Parser)
    requires p.error == NoError && p.buffer != []
    ensures ReadInt(p, 1).0 == p.buffer[0]
  {
    assert p.buffer[..1][..0] == [];
    assert FromBytes(p.buffer[..1]) == p.buffer[0];
  }

  function AfterFields(p: Parser): Parser {
    var p4 := ReadInt(ReadInt(ReadInt(ReadInt(p, 2).1, 2).1, 4).1, 4).1;
    ReadInt(ReadInt(ReadInt(ReadInt(ReadInt(p4, 1).1, 1).1, 2).1, 2).1, 2).1
  }

  /** A segment is accepted exactly when its checksum is right and its header, as long as the
      offset says, is there; since the header's own verdict is dropped, an offset below the
      minimum of five is accepted too, as if it were five. */
  lemma SegmentAccepted(buffer: seq<byte>, pseudo: u32)
    ensures ParseSegment(buffer, pseudo).0 == NoError <==>
              && Value(AddBytes(Checksum(pseudo, false), buffer)) == 0
              && HEADER_LENGTH <= |buffer|
              && (buffer[12] / 16 < 5 || 4 * (buffer[12] / 16) <= |buffer|)
  {
    hide AddBytes, Value, ReadInt;
    FieldsRead(buffer);
  }

  lemma {:induction false} ZerosTotal(n: nat, odd: bool)
    ensures Total(Zeros(n), odd) == 0
    decreases n
  {
    if n > 0 {
      assert Zeros(n)[1..] == Zeros(n - 1);
      ZerosTotal(n - 1, !odd);
    }
  }

  /** A header of zero length is accepted all the same. */
  lemma ShortOffsetExample()
    ensures var buffer: seq<byte> := [255, 255] + Zeros(18);
            && buffer[12] / 16 < 5
            && ParseHeader(Parser(buffer, NoError)).0 == HeaderTooShort
            && ParseSegment(buffer, 0).0 == NoError
  {
    var first: seq<byte> := [255, 255];
    var buffer := first + Zeros(18);
    var c := Checksum(0, false);
    assert AddBytes(c, buffer).sum == 65535 by {
      assert Total(first, false) == 65535;
      TotalConcat(first, Zeros(18), false);
      ZerosTotal(18, false);
      SumIsTotal(c, buffer);
    }
    ZeroValue(AddBytes(c, buffer));
    SegmentAccepted(buffer, 0);
    FieldsRead(buffer);
  }

  // ---------- The program ----------

  method ParseTcpHeader(p: NetParser) returns (result: ParseResult, h: TCPHeader)
    modifies p
    ensures (result, h, p.View()) == ParseHeader(old(p.View()))
  {
    hide ReadU8, ReadU16, ReadU32, SkipBytes;
    h := DEFAULT_HEADER;
    var sport := p.U16();
    var dport := p.U16();
    var seqno := p.U32();
    var ackno := p.U32();
    var offset := p.U8();
    var flags := p.U8();
    var win := p.U16();
    var cksum := p.U16();
    var uptr := p.U16();
    h := WithFlags(TCPHeader(sport, dport, seqno, ackno, offset / 16, false, false, false, false, false, false,
                             win, cksum, uptr), flags);
    if h.doff < 5 {
      return HeaderTooShort, h;
    }
    p.RemovePrefix(h.doff * 4 - HEADER_LENGTH);
    result := p.error;
  }

  method SerializeTcpHeader(h: TCPHeader) returns (r: Option<seq<byte>>)
    ensures r == SerializeHeader(h)
  {
    hide ToBytes;
    if h.doff < 5 {
      return None;
    }
    var ret := UnparseInt([], h.sport, 2);
    ret := UnparseInt(ret, h.dport, 2);
    ret := UnparseInt(ret, h.seqno, 4);
    ret := UnparseInt(ret, h.ackno, 4);
    ret := UnparseInt(ret, h.doff * 16 % 256, 1);
    ret := UnparseInt(ret, FlagByte(h), 1);
    ret := UnparseInt(ret, h.win, 2);
    assert ret == HeadBytes(h) by { assert [] + ToBytes(h.sport, 2) == ToBytes(h.sport, 2); }
    ret := UnparseInt(ret, h.cksum, 2);
    Assoc(ret, ToBytes(h.uptr, 2), Zeros(4 * h.doff - HEADER_LENGTH));
    ret := UnparseInt(ret, h.uptr, 2);
    ret := ret + Zeros(4 * h.doff - |ret|);
    return Some(ret);
  }

  method ParseTcpSegment(buffer: seq<byte>, pseudo: u32) returns (result: ParseResult, seg: Option<Segment>)
    ensures (result, seg) == ParseSegment(buffer, pseudo)
  {
    hide AddBytes, Value, ParseHeader;
    var check := new InternetChecksum(pseudo);
    check.Add(buffer);
    var value := check.GetValue();
    if value != 0 {
      return BadChecksum, None;
    }
    var p := new NetParser(buffer);
    var _, header := ParseTcpHeader(p);
    return p.error, Some(Segment(header, p.buffer));
  }

  method SerializeTcpSegment(seg: Segment, pseudo: u32) returns (r: Option<seq<byte>>)
    ensures r == SerializeSegment(seg, pseudo)
  {
    hide AddBytes, Value, SerializeHeader;
    var zeroed := SerializeTcpHeader(seg.header.(cksum := 0));
    if zeroed.None? {
      return None;
    }
    var check := new InternetChecksum(pseudo);
    check.Add(zeroed.value);
    check.Add(seg.payload);
    var cksum := check.GetValue();
    SerializableAnyway(seg.header, cksum);
    var header := SerializeTcpHeader(seg.header.(cksum := cksum));
    return Some(header.value + seg.payload);
  }

  lemma SerializableAnyway(h: TCPHeader, cksum: u16)
    ensures SerializeHeader(h.(cksum := cksum)).Some? <==> SerializeHeader(h.(cksum := 0)).Some?
  {
  }
}
