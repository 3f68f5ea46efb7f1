/** TCP headers and segments (section 3.1 of RFC 793). */
module TcpSegments {
  import opened FixedWidth

  datatype TCPHeader = TCPHeader(
    sport: u16, dport: u16, seqno: u32, ackno: u32, doff: byte,
    urg: bool, ack: bool, psh: bool, rst: bool, syn: bool, fin: bool,
    win: u16, cksum: u16, uptr: u16)

  datatype Segment = Segment(header: TCPHeader, payload: seq<byte>)

  /** The largest payload a sender puts into one segment. */
  const MAX_PAYLOAD_SIZE: nat := 1000

  const DEFAULT_HEADER := TCPHeader(0, 0, 0, 0, 5, false, false, false, false, false, false, 0, 0, 0)

  /** A segment with nothing but a sequence number. */
  function EmptySegment(seqno: u32): Segment {
    Segment(DEFAULT_HEADER.(seqno := seqno), [])
  }

  /** The sequence numbers a segment occupies: SYN and FIN count for one each. */
  function Length(seg: Segment): nat {
    |seg.payload| + (if seg.header.syn then 1 else 0) + (if seg.header.fin then 1 else 0)
  }
}
