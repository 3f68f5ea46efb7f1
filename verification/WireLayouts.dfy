/** Where every field is on the wire (section 3.1 of RFC 793, section 3.1 of RFC 791), and
    what a TCP checksum covers. */
module WireLayouts {
  import opened FixedWidth
  import opened TcpSegments
  import opened NetParsers
  import opened Checksums
  import TcpWire
  import Ipv4Wire

  // ---------- Numbers in a buffer ----------

  function At2(b: seq<byte>, i: nat): nat
    requires i + 2 <= |b|
  {
    Ipv4Wire.Word(b[i], b[i + 1])
  }

  function At4(b: seq<byte>, i: nat): nat
    requires i + 4 <= |b|
  {
    At2(b, i) * 0x1_0000 + At2(b, i + 2)
  }

  /** The parser at place `i` of the buffer. */
  function From(b: seq<byte>, i: nat): Parser
    requires i <= |b|
  {
    Parser(b[i..], NoError)
  }

  lemma {:induction false} FromBytesSplits(a: seq<byte>, x: byte)
    ensures FromBytes(a + [x]) == FromBytes(a) * 256 + x
  {
    assert (a + [x])[..|a|] == a;
  }

  lemma ReadAt1(b: seq<byte>, i: nat)
    requires i + 1 <= |b|
    ensures ReadU8(From(b, i)) == (b[i], From(b, i + 1))
  {
    assert b[i..][..1] == [] + [b[i]];
    FromBytesSplits([], b[i]);
    Ranges();
  }

  lemma ReadAt2(b: seq<byte>, i: nat)
    requires i + 2 <= |b|
    ensures ReadU16(From(b, i)) == (At2(b, i), From(b, i + 2))
  {
    assert b[i..][..2] == [] + [b[i]] + [b[i + 1]];
    FromBytesSplits([], b[i]);
    FromBytesSplits([b[i]], b[i + 1]);
    assert [] + [b[i]] == [b[i]];
    Ranges();
  }

  lemma ReadAt4(b: seq<byte>, i: nat)
    requires i + 4 <= |b|
    ensures ReadU32(From(b, i)) == (At4(b, i), From(b, i + 4))
  {
    assert b[i..][..4] == [] + [b[i]] + [b[i + 1]] + [b[i + 2]] + [b[i + 3]];
    FromBytesSplits([], b[i]);
    FromBytesSplits([] + [b[i]], b[i + 1]);
    FromBytesSplits([] + [b[i]] + [b[i + 1]], b[i + 2]);
    FromBytesSplits([] + [b[i]] + [b[i + 1]] + [b[i + 2]], b[i + 3]);
    Ranges();
  }

  predicate Bit(b: byte, weight: nat)
    requires weight > 0
  {
    b / weight % 2 == 1
  }

  // ---------- TCP ----------

  /** The fields of header `h` are at their places in `b`. */
  predicate TcpLayout(h: TCPHeader, b: seq<byte>)
    requires |b| >= 20
  {
    && h.sport == At2(b, 0) && h.dport == At2(b, 2) && h.seqno == At4(b, 4) && h.ackno == At4(b, 8)
    && h.doff == b[12] / 16
    && h.urg == Bit(b[13], 32) && h.ack == Bit(b[13], 16) && h.psh == Bit(b[13], 8)
    && h.rst == Bit(b[13], 4) && h.syn == Bit(b[13], 2) && h.fin == Bit(b[13], 1)
    && h.win == At2(b, 14) && h.cksum == At2(b, 16) && h.uptr == At2(b, 18)
  }

  /** Whatever the bytes, the parser takes every field from its place, and the payload
      starts where the data offset says, or after twenty bytes if it says less. */
  lemma TcpFieldsRead(b: seq<byte>)
    requires |b| >= 20
    ensures var (_, h, p) := TcpWire.ParseHeader(Parser(b, NoError));
            && TcpLayout(h, b)
            && (4 * h.doff <= |b| ==> p == From(b, 4 * Max(h.doff, 5)))
  {
    hide ReadU8, ReadU16, ReadU32, At2, At4;
    assert b[0..] == b;
    ReadAt2(b, 0);
    ReadAt2(b, 2);
    ReadAt4(b, 4);
    ReadAt4(b, 8);
    ReadAt1(b, 12);
    ReadAt1(b, 13);
    ReadAt2(b, 14);
    ReadAt2(b, 16);
    ReadAt2(b, 18);
    var doff := b[12] / 16;
    if 5 <= doff && 4 * doff <= |b| {
      assert b[20..][4 * doff - 20..] == b[4 * doff..];
    }
  }

  /** What is written has the same layout, with zeros where there is no field. */
  lemma TcpFieldsWritten(h: TCPHeader)
    requires 5 <= h.doff < 16
    ensures var b := TcpWire.SerializeHeader(h).value;
            && |b| == 4 * h.doff && TcpLayout(h, b)
            && b[12] % 16 == 0 && b[13] < 64
            && forall i :: 20 <= i < |b| ==> b[i] == 0
  {
    var b := TcpWire.SerializeHeader(h).value;
    TcpRest(h);
    hide TcpWire.SerializeHeader, TcpWire.ParseHeader, TcpLayout;
    TcpWire.HeaderRoundTrip(h, []);
    assert b + [] == b;
    TcpFieldsRead(b);
  }

  lemma TcpRest(h: TCPHeader)
    requires 5 <= h.doff < 16
    ensures var b := TcpWire.SerializeHeader(h).value;
            && |b| == 4 * h.doff && b[12] % 16 == 0 && b[13] < 64
            && forall i :: 20 <= i < |b| ==> b[i] == 0
  {
    var offset, flags := h.doff * 16 % 256, TcpWire.FlagByte(h);
    assert offset % 16 == 0 && flags < 64;
    hide TcpWire.FlagByte;
    LastByte(offset);
    LastByte(flags);
    hide ToBytes;
  }

  lemma LastByte(x: byte)
    ensures ToBytes(x, 1) == [x]
  {
  }

  // ---------- IPv4 ----------

  predicate IpLayout(h: Ipv4Wire.IPv4Header, b: seq<byte>)
    requires |b| >= 20
  {
    && h.ver == b[0] / 16 && h.hlen == b[0] % 16 && h.tos == b[1] && h.len == At2(b, 2) && h.id == At2(b, 4)
    && h.df == Bit(b[6], 64) && h.mf == Bit(b[6], 32) && h.offset == At2(b, 6) % 0x2000
    && h.ttl == b[8] && h.proto == b[9] && h.cksum == At2(b, 10)
    && h.src == At4(b, 12) && h.dst == At4(b, 16)
  }

  lemma IpFieldsRead(b: seq<byte>)
    requires |b| >= 20
    ensures IpLayout(Ipv4Wire.ReadFields(Parser(b, NoError)).0, b)
  {
    hide ReadU8, ReadU16, ReadU32, At4;
    assert b[0..] == b;
    ReadAt1(b, 0);
    ReadAt1(b, 1);
    ReadAt2(b, 2);
    ReadAt2(b, 4);
    ReadAt2(b, 6);
    ReadAt1(b, 8);
    ReadAt1(b, 9);
    ReadAt2(b, 10);
    ReadAt4(b, 12);
    ReadAt4(b, 16);
    FlagsInWord(b[6], b[7]);
  }

  lemma FlagsInWord(high: byte, low: byte)
    ensures (high * 256 + low) / 0x4000 % 2 == high / 64 % 2
    ensures (high * 256 + low) / 0x2000 % 2 == high / 32 % 2
  {
  }

  lemma IpFieldsWritten(h: Ipv4Wire.IPv4Header)
    requires Ipv4Wire.WellFormed(h)
    ensures var b := Ipv4Wire.SerializeHeader(h).value;
            && |b| == 4 * h.hlen && IpLayout(h, b) && b[6] < 128
            && forall i :: 20 <= i < |b| ==> b[i] == 0
  {
    var b := Ipv4Wire.SerializeHeader(h).value;
    Ipv4Wire.FieldsRoundTrip(h, []);
    assert b + [] == b;
    IpRest(h);
    IpFieldsRead(b);
  }

  lemma IpRest(h: Ipv4Wire.IPv4Header)
    requires Ipv4Wire.WellFormed(h)
    ensures var b := Ipv4Wire.SerializeHeader(h).value;
            && |b| == 4 * h.hlen && b[6] < 128
            && forall i :: 20 <= i < |b| ==> b[i] == 0
  {
    hide Ipv4Wire.FirstByte, Ipv4Wire.FragmentWord;
    var word := Ipv4Wire.FragmentWord(h);
    TcpWire.WordBytes(word);
    assert word < 0x8000 by { WordBound(h); }
    hide ToBytes;
    var b := Ipv4Wire.SerializeHeader(h).value;
    assert b[6..8] == ToBytes(word, 2);
    assert b[6] == b[6..8][0];
  }

  lemma WordBound(h: Ipv4Wire.IPv4Header)
    ensures Ipv4Wire.FragmentWord(h) < 0x8000
  {
  }

  // ---------- The pseudo-header ----------

  /** Section 3.1 of RFC 793: both addresses, a zero, the protocol, and the payload length. */
  function PseudoHeader(h: Ipv4Wire.IPv4Header): seq<byte> {
    ToBytes(h.src, 4) + ToBytes(h.dst, 4) + [0, h.proto] + ToBytes((h.len - 4 * h.hlen) % TWO_16, 2)
  }

  lemma AddressTotal(x: u32)
    ensures Total(ToBytes(x, 4), false) == x / TWO_16 + x % TWO_16
  {
    var high, low := x / TWO_16, x % TWO_16;
    assert ToBytes(x, 4) == BigEndian16(high) + BigEndian16(low) by { FourBytes(x); }
    TotalConcat(BigEndian16(high), BigEndian16(low), false);
    TotalOfWord(high);
    TotalOfWord(low);
  }

  lemma FourBytes(x: u32)
    ensures ToBytes(x, 4) == BigEndian16(x / TWO_16) + BigEndian16(x % TWO_16)
  {
    var y := x / 256;
    assert ToBytes(x, 4) == ToBytes(y, 3) + [x % 256];
    assert ToBytes(y, 3) == ToBytes(y / 256, 2) + [y % 256];
    TcpWire.WordBytes(y / 256);
    hide ToBytes;
    assert y / 256 == x / TWO_16;
    assert x % TWO_16 / 256 == y % 256 && x % TWO_16 % 256 == x % 256;
  }

  /** The number that the checksum starts from is the sum over the pseudo-header's words. */
  lemma PseudoIsTotal(h: Ipv4Wire.IPv4Header)
    ensures |PseudoHeader(h)| == 12
    ensures Total(PseudoHeader(h), false) == Ipv4Wire.PseudoChecksum(h) < TWO_32
  {
    hide Total, ToBytes;
    var src, dst, proto := ToBytes(h.src, 4), ToBytes(h.dst, 4), [0, h.proto];
    var length := (h.len - 4 * h.hlen) % TWO_16;
    AddressTotal(h.src);
    AddressTotal(h.dst);
    TcpWire.WordBytes(length);
    TotalOfWord(length);
    TotalOfWord(h.proto);
    assert BigEndian16(h.proto) == proto;
    TotalConcat(src, dst, false);
    TotalConcat(src + dst, proto, false);
    TotalConcat(src + dst + proto, ToBytes(length, 2), false);
    Ipv4Wire.PseudoBound(h);
  }

  lemma {:induction false} Parity(c: Checksum, data: seq<byte>)
    ensures AddBytes(c, data).odd == (if |data| % 2 == 0 then c.odd else !c.odd)
    decreases |data|
  {
    if data != [] { Parity(AddByte(c, data[0]), data[1..]); }
  }

  /** So the checksum of a segment is the Internet checksum of the pseudo-header and the
      segment as one. */
  lemma ChecksumCoversPseudoHeader(h: Ipv4Wire.IPv4Header, buffer: seq<byte>)
    ensures AddBytes(Checksum(Ipv4Wire.PseudoChecksum(h), false), buffer)
            == AddBytes(Checksum(0, false), PseudoHeader(h) + buffer)
  {
    hide PseudoHeader, Total, AddBytes, Ipv4Wire.PseudoChecksum;
    var start := Checksum(0, false);
    PseudoIsTotal(h);
    SumIsTotal(start, PseudoHeader(h));
    Parity(start, PseudoHeader(h));
    AddInPieces(start, PseudoHeader(h), buffer);
  }

  /** A segment from a datagram with header `h`, and of any length that a datagram can hold,
      is accepted exactly if the words of pseudo-header and segment sum up to a multiple of
      65535 other than zero and the segment is as long as its header says. */
  lemma SegmentAcceptedIff(h: Ipv4Wire.IPv4Header, buffer: seq<byte>)
    requires |buffer| <= 65515
    ensures TcpWire.ParseSegment(buffer, Ipv4Wire.PseudoChecksum(h)).0 == NoError <==>
              && Total(PseudoHeader(h) + buffer, false) > 0
              && Total(PseudoHeader(h) + buffer, false) % 65535 == 0
              && 20 <= |buffer|
              && (buffer[12] / 16 < 5 || 4 * (buffer[12] / 16) <= |buffer|)
  {
    hide PseudoHeader, Total, AddBytes, Ipv4Wire.PseudoChecksum, TcpWire.ParseSegment, Value;
    PseudoIsTotal(h);
    ChecksumCoversPseudoHeader(h, buffer);
    TcpWire.SegmentAccepted(buffer, Ipv4Wire.PseudoChecksum(h));
    NoOverflow(0, PseudoHeader(h) + buffer);
    ZeroValue(AddBytes(Checksum(0, false), PseudoHeader(h) + buffer));
  }
}
