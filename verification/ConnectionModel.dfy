/** One endpoint of a TCP connection: a receiver, a sender and the few flags that tie
    them together (section 3.5 of RFC 793 for closing). */
module ConnectionModel {
  import opened FixedWidth
  import opened WrappingIntegers
  import opened ByteStreams
  import opened Reassembly
  import opened TcpSegments
  import opened Receivers
  import opened SenderModel
  import opened SenderInvariants

  const MAX_RETX_ATTEMPTS: nat := 8

  // ---------- Summaries ----------

  datatype ReceiverSummary = ReceiverError | Listen | SynReceived | FinReceived

  datatype SenderSummary = SenderError | Closed | SynSent | SynAcked | FinSent | FinAcked

  function SummarizeReceiver(r: Receiver): ReceiverSummary {
    if r.Out().error then ReceiverError
    else if Ackno(r).None? then Listen
    else if r.Out().ended then FinReceived
    else SynReceived
  }

  function SummarizeSender(s: Sender): SenderSummary {
    if s.stream.error then SenderError
    else if s.next == 0 then Closed
    else if s.next == s.inFlight then SynSent
    else if !Eof(s.stream) then SynAcked
    else if s.next < |s.stream.all| + 2 then SynAcked
    else if s.inFlight != 0 then FinSent
    else FinAcked
  }

  /** Everything, the FIN included, has been sent and acknowledged. */
  predicate AllAcked(s: Sender) { s.finSent && s.inFlight == 0 }

  /** The summary means what its name says. */
  lemma SummaryMeaning(s: Sender)
    requires SeqInv(s) && !s.stream.error
    ensures SummarizeSender(s) == Closed <==> !s.synSent
    ensures SummarizeSender(s) == SynSent <==> s.synSent && s.next - s.inFlight == 0
    ensures SummarizeSender(s) == SynAcked <==> s.next - s.inFlight > 0 && !s.finSent
    ensures SummarizeSender(s) == FinSent <==> s.next - s.inFlight > 0 && s.finSent && s.inFlight > 0
    ensures SummarizeSender(s) == FinAcked <==> AllAcked(s)
  {
  }

  // ---------- State ----------

  /** A segment on its way, with the absolute numbers that its 32-bit fields stand for. */
  datatype Packet = Packet(abs: nat, absAck: nat, seg: Segment)

  datatype Conn = Conn(rx: Receiver, tx: Sender, linger: bool, active: bool, sinceLast: nat, out: seq<Packet>)

  function NewConn(recvCapacity: nat, sendCapacity: nat, rto: u16, isn: u32, congestionControl: bool): Conn {
    Conn(NewReceiver(recvCapacity), NewSender(sendCapacity, rto, isn, congestionControl), true, true, 0, [])
  }

  /** Adds the acknowledgment and the window of the moment. */
  function Stamp(rx: Receiver, t: Tagged): Packet {
    var header := t.seg.header.(win := AdvertisedWindow(rx));
    if rx.isn.None? then Packet(t.abs, 0, t.seg.(header := header))
    else
      var ack := AbsoluteAck(rx);
      Packet(t.abs, ack, t.seg.(header := header.(ack := true, ackno := Wrap(ack, rx.isn.value))))
  }

  function StampAll(rx: Receiver, q: seq<Tagged>): seq<Packet> {
    if q == [] then [] else [Stamp(rx, q[0])] + StampAll(rx, q[1..])
  }

  function Flush(c: Conn): Conn {
    c.(out := c.out + StampAll(c.rx, c.tx.out), tx := c.tx.(out := []))
  }

  function ResetPacket(tx: Sender): Packet {
    Packet(tx.next, 0, Segment(DEFAULT_HEADER.(seqno := Wrap(tx.next, tx.isn), rst := true), []))
  }

  function FailReceiver(r: Receiver): Receiver {
    r.(reassembler := r.reassembler.(out := SetError(r.reassembler.out)))
  }

  function SetReset(c: Conn, sendReset: bool): Conn {
    c.(out := if sendReset then c.out + [ResetPacket(c.tx)] else c.out,
       tx := FailStream(c.tx),
       rx := FailReceiver(c.rx),
       linger := false, active := false)
  }

  // ---------- Operations ----------

  function Connect(c: Conn): Conn { Flush(c.(tx := Fill(c.tx))) }

  function WriteData(c: Conn, data: seq<byte>): Conn { Flush(c.(tx := Fill(WriteStream(c.tx, data)))) }

  function EndInputStream(c: Conn): Conn { Flush(c.(tx := Fill(EndStream(c.tx)))) }

  function ReadData(c: Conn, n: nat): Conn {
    c.(rx := c.rx.(reassembler := ReadOut(c.rx.reassembler, n)))
  }

  predicate BothDone(c: Conn) {
    SummarizeReceiver(c.rx) == FinReceived && SummarizeSender(c.tx) == FinAcked
  }

  function TickConn(c: Conn, ms: nat): Conn {
    var c1 := c.(sinceLast := c.sinceLast + ms, tx := Tick(c.tx, ms));
    if c1.tx.retx > MAX_RETX_ATTEMPTS then SetReset(c1.(tx := c1.tx.(out := [])), true)
    else
      var c2 := Flush(c1);
      if c2.linger && BothDone(c2) && c2.sinceLast >= 10 * c2.tx.initialRto
      then c2.(active := false, linger := false) else c2
  }

  /** The acknowledgment part of an incoming segment. */
  function TakeAck(c: Conn, seg: Segment): Conn
    requires RenoInv(c.tx)
  {
    if seg.header.ack then c.(tx := ReceiveAck(c.tx, seg.header.ackno, seg.header.win)) else c
  }

  /** A segment that occupies sequence numbers is answered, and so is a keep-alive probe. The
      answer is left to packets already queued by the connection, if there are any. */
  predicate NeedsEmptyAck(c: Conn, seg: Segment) {
    || (Length(seg) > 0 && !(seg.header.ack && c.out != []))
    || (Length(seg) == 0 && Ackno(c.rx).Some? && seg.header.seqno == (Ackno(c.rx).value - 1) % TWO_32)
  }

  /** An endpoint that sees the end of the peer's stream before it has finished its own
      need not linger. */
  function NotePassiveClose(c: Conn): Conn {
    if SummarizeReceiver(c.rx) == FinReceived && SummarizeSender(c.tx) == SynAcked then c.(linger := false) else c
  }

  function CloseOrAnswer(c: Conn, seg: Segment): Conn {
    if !c.linger && BothDone(c) then c.(active := false)
    else Flush(if NeedsEmptyAck(c, seg) then c.(tx := SendEmpty(c.tx)) else c)
  }

  /** What follows once the receiver and the sender have seen the segment. */
  function Respond(c: Conn, seg: Segment): Conn {
    if SummarizeReceiver(c.rx) == SynReceived && SummarizeSender(c.tx) == Closed then Connect(c)
    else CloseOrAnswer(NotePassiveClose(c), seg)
  }

  /** A status other than `Ok` is an exception that leaves the rest undone. */
  function SegmentReceived(c: Conn, seg: Segment): (PushStatus, Conn)
    requires RenoInv(c.tx)
  {
    var c0 := c.(sinceLast := 0);
    if seg.header.rst then (Ok, SetReset(c0, false))
    else
      var (status, rx) := Receive(c0.rx, seg);
      var c1 := c0.(rx := rx);
      if status != Ok then (status, c1) else (Ok, Respond(TakeAck(c1, seg), seg))
  }
}
