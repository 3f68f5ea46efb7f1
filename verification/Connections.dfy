/** The connection's program. */
module Connections {
  import opened FixedWidth
  import opened WrappingIntegers
  import opened ByteStreams
  import opened Reassembly
  import opened TcpSegments
  import opened Receivers
  import opened SenderModel
  import opened SenderInvariants
  import opened SenderRuns
  import opened Senders
  import opened ConnectionModel

  class TCPConnection {
    const receiver: TCPReceiver
    const sender: TCPSender
    var segmentsOut: seq<Packet>  // each with the absolute numbers it was made from
    var linger: bool
    var sinceLast: nat
    var isActive: bool

    ghost predicate Shape()
      reads this, receiver, receiver.reassembler, receiver.reassembler.output, receiver.reassembler.ring,
            sender, sender.stream, sender.timer
    {
      receiver.Valid() && sender.Shape() && sender.stream != receiver.reassembler.output
    }

    ghost function View(): Conn
      reads this, receiver, receiver.reassembler, receiver.reassembler.output, receiver.reassembler.ring,
            sender, sender.stream, sender.timer
      requires Shape()
    {
      Conn(receiver.View(), sender.View(), linger, isActive, sinceLast, segmentsOut)
    }

    ghost predicate Valid()
      reads this, receiver, receiver.reassembler, receiver.reassembler.output, receiver.reassembler.ring,
            sender, sender.stream, sender.timer
    {
      Shape() && SenderInv(View().tx)
    }

    constructor (recvCapacity: nat, sendCapacity: nat, rto: u16, isn: u32, congestionControl: bool)
      requires recvCapacity > 0
      ensures Valid() && View() == NewConn(recvCapacity, sendCapacity, rto, isn, congestionControl)
      ensures fresh(receiver) && fresh(receiver.reassembler)
      ensures fresh(receiver.reassembler.output) && fresh(receiver.reassembler.ring)
      ensures fresh(sender) && fresh(sender.stream) && fresh(sender.timer)
    {
      receiver := new TCPReceiver(recvCapacity);
      sender := new TCPSender(sendCapacity, rto, isn, congestionControl);
      segmentsOut, linger, sinceLast, isActive := [], true, 0, true;
    }

    method ReceiverSummaryOf() returns (summary: ReceiverSummary)
      requires Shape()
      ensures summary == SummarizeReceiver(View().rx)
    {
      var ackno := receiver.GetAckno();
      if receiver.reassembler.output.errorFlag {
        return ReceiverError;
      } else if ackno.None? {
        return Listen;
      } else if receiver.reassembler.output.inputEnded {
        return FinReceived;
      } else {
        return SynReceived;
      }
    }

    method SenderSummaryOf() returns (summary: SenderSummary)
      requires Shape()
      ensures summary == SummarizeSender(View().tx)
    {
      if sender.stream.errorFlag {
        return SenderError;
      } else if sender.nextSeqno == 0 {
        return Closed;
      } else if sender.nextSeqno == sender.bytesInFlight {
        return SynSent;
      } else if !(sender.stream.inputEnded && sender.stream.BufferSize() == 0) {
        return SynAcked;
      } else if sender.nextSeqno < sender.stream.written + 2 {
        return SynAcked;
      } else if sender.bytesInFlight != 0 {
        return FinSent;
      } else {
        return FinAcked;
      }
    }

    /** Adds the acknowledgment and the window of the moment to one segment. */
    method StampOne(t: Tagged) returns (p: Packet)
      requires receiver.Valid()
      ensures p == Stamp(receiver.View(), t)
      ensures p.seg.header.win == Min(65535, receiver.capacity - receiver.reassembler.output.BufferSize())
    {
      var ackno := receiver.GetAckno();
      var window := receiver.GetWindowSize();
      var header := t.seg.header.(win := Min(TWO_16 - 1, window));
      if ackno.None? {
        return Packet(t.abs, 0, t.seg.(header := header));
      }
      var output := receiver.reassembler.output;
      return Packet(t.abs, output.written + 1 + (if output.inputEnded then 1 else 0),
                    t.seg.(header := header.(ack := true, ackno := ackno.value)));
    }

    /** Stamps the sender's segments and moves them to the connection's queue. */
    method AddAcknoAndWindowToSend()
      requires Shape()
      modifies this`segmentsOut, sender`segmentsOut
      ensures Shape() && View() == Flush(old(View()))
    {
      hide Stamp, StampAll;
      ghost var rx, queue := receiver.View(), segmentsOut + StampAll(receiver.View(), sender.segmentsOut);
      while sender.segmentsOut != []
        invariant segmentsOut + StampAll(rx, sender.segmentsOut) == queue
        decreases |sender.segmentsOut|
      {
        var t := sender.segmentsOut[0];
        StampStep(rx, segmentsOut, sender.segmentsOut);
        sender.segmentsOut := sender.segmentsOut[1..];
        var p := StampOne(t);
        segmentsOut := segmentsOut + [p];
      }
      NothingToStamp(rx, segmentsOut);
    }

    method SetRstState(sendRst: bool)
      requires Valid()
      modifies this, receiver.reassembler.output, sender.stream
      ensures Valid() && View() == SetReset(old(View()), sendRst)
    {
      hide SeqInv, TimerInv, RenoInv, Wrap;
      if sendRst {
        var header := DEFAULT_HEADER.(seqno := Wrap(sender.nextSeqno, sender.isn), rst := true);
        segmentsOut := segmentsOut + [Packet(sender.nextSeqno, 0, Segment(header, []))];
      }
      FailStreams();
      linger := false;
      isActive := false;
    }

    method FailStreams()
      requires Valid()
      modifies receiver.reassembler.output, sender.stream
      ensures Valid()
      ensures var c := old(View());
              View() == c.(tx := FailStream(c.tx), rx := FailReceiver(c.rx))
    {
      hide SeqInv, TimerInv, RenoInv;
      ErrorKeeps(sender.View());
      sender.stream.Fail();
      receiver.reassembler.output.Fail();
    }

    /** Sends what the window allows; needs nothing of the state but its shape. */
    method FillAndFlush()
      requires Shape()
      modifies this`segmentsOut, sender, sender.stream, sender.timer
      ensures Shape() && View() == Connect(old(View()))
    {
      hide Fill, Flush;
      sender.FillWindow();
      AddAcknoAndWindowToSend();
    }

    method ConnectNow()
      requires Valid()
      modifies this`segmentsOut, sender, sender.stream, sender.timer
      ensures Valid() && View() == Connect(old(View()))
    {
      hide SenderInv, Connect;
      ConnectKeeps(View());
      FillAndFlush();
    }

    /** The stream takes what fits, even after its end; the sender stays sound unless that is
        too late. */
    method Write(data: seq<byte>) returns (count: nat)
      requires Valid()
      modifies this`segmentsOut, sender, sender.stream, sender.timer
      ensures Shape() && View() == WriteData(old(View()), data)
      ensures !TooLate(old(View()).tx, data) ==> Valid()
      ensures count == |View().tx.stream.all| - |old(View()).tx.stream.all|
    {
      hide SenderInv, Connect;
      ghost var c := View();
      WriteUnfolds(c, data);
      count := sender.stream.WriteBytes(data);
      FillAndFlush();
    }

    method EndInputStreamNow()
      requires Valid()
      modifies this`segmentsOut, sender, sender.stream, sender.timer
      ensures Valid() && View() == EndInputStream(old(View()))
    {
      hide SenderInv, Connect;
      ghost var c := View();
      EndUnfolds(c);
      sender.stream.End();
      FillAndFlush();
    }

    /** Reads from the inbound stream. */
    method Read(n: nat) returns (data: seq<byte>)
      requires Valid()
      modifies receiver.reassembler.output
      ensures Valid() && View() == ReadData(old(View()), n)
      ensures data == Peek(old(View()).rx.Out(), n)
    {
      hide SenderInv;
      data := receiver.Read(n);
    }

    /** The owner takes the queued segments away. */
    method TakeSegments() returns (packets: seq<Packet>)
      requires Valid()
      modifies this`segmentsOut
      ensures Valid() && View() == old(View()).(out := []) && packets == old(View()).out
    {
      hide SenderInv;
      packets := segmentsOut;
      segmentsOut := [];
    }

    method Tick(ms: nat)
      requires Valid()
      modifies this, receiver.reassembler.output, sender, sender.stream, sender.timer
      ensures Valid() && View() == TickConn(old(View()), ms)
    {
      hide SenderInv, Flush, SetReset, BothDone, SenderModel.Tick;
      sinceLast := sinceLast + ms;
      sender.TickClock(ms);
      if sender.retransmissions > MAX_RETX_ATTEMPTS {
        GiveUp();
      } else {
        FlushKeeps(View());
        AddAcknoAndWindowToSend();
        StopLingering();
      }
    }

    /** Drops the pending retransmission and resets the connection. */
    method GiveUp()
      requires Valid()
      modifies this, receiver.reassembler.output, sender`segmentsOut, sender.stream
      ensures Valid()
      ensures var c := old(View()); View() == SetReset(c.(tx := c.tx.(out := [])), true)
    {
      hide SeqInv, TimerInv, RenoInv, SetReset;
      DropOutput(sender.View());
      sender.segmentsOut := [];
      SetRstState(true);
    }

    /** Ends an active close once both streams are done and the peer has been silent long enough. */
    method StopLingering()
      requires Valid()
      modifies this`isActive, this`linger
      ensures Valid()
      ensures var c := old(View());
              View() == if c.linger && BothDone(c) && c.sinceLast >= 10 * c.tx.initialRto
                        then c.(active := false, linger := false) else c
    {
      hide SeqInv, TimerInv, RenoInv, BothDone;
      var done := CheckBothDone();
      if linger && done && sinceLast >= 10 * sender.initialRto {
        isActive := false;
        linger := false;
      }
    }

    method CheckBothDone() returns (done: bool)
      requires Shape()
      ensures done == BothDone(View())
    {
      var rxSummary := ReceiverSummaryOf();
      var txSummary := SenderSummaryOf();
      done := rxSummary == FinReceived && txSummary == FinAcked;
    }

    method OnSegment(seg: Segment) returns (status: PushStatus)
      requires Valid()
      modifies this, receiver, receiver.reassembler, receiver.reassembler.output, receiver.reassembler.ring,
               sender, sender.stream, sender.timer
      ensures Valid() && (status, View()) == SegmentReceived(old(View()), seg)
      ensures seg.header.rst ==> status == Ok && !isActive && !linger && segmentsOut == old(segmentsOut)
      ensures seg.header.rst ==> sender.stream.errorFlag && receiver.reassembler.output.errorFlag
    {
      hide SeqInv, TimerInv, RenoInv, Receive, Respond, TakeAck;
      sinceLast := 0;
      if seg.header.rst {
        SetRstState(false);
        return Ok;
      }
      status := receiver.SegmentReceived(seg);
      if status.Ok? {
        TakeAckOf(seg);
        RespondTo(seg);
      }
    }

    method TakeAckOf(seg: Segment)
      requires Valid()
      modifies sender, sender.stream, sender.timer
      ensures Valid() && View() == TakeAck(old(View()), seg)
    {
      hide SeqInv, TimerInv, ReceiveAck;
      if seg.header.ack {
        sender.AckReceived(seg.header.ackno, seg.header.win);
      }
    }

    method RespondTo(seg: Segment)
      requires Valid()
      modifies this, sender, sender.stream, sender.timer
      ensures Valid() && View() == Respond(old(View()), seg)
    {
      hide SeqInv, TimerInv, RenoInv, Connect, SummarizeSender, SummarizeReceiver, CloseOrAnswer;
      var rxSummary := ReceiverSummaryOf();
      var txSummary := SenderSummaryOf();
      if rxSummary == SynReceived && txSummary == Closed {
        ConnectNow();
        return;
      }
      if rxSummary == FinReceived && txSummary == SynAcked {
        linger := false;
      }
      CloseOrAnswerTo(seg);
    }

    method CloseOrAnswerTo(seg: Segment)
      requires Valid()
      modifies this, sender`segmentsOut
      ensures Valid() && View() == CloseOrAnswer(old(View()), seg)
    {
      hide SeqInv, TimerInv, RenoInv, Flush, BothDone, NeedsEmptyAck;
      var done := CheckBothDone();
      if !linger && done {
        isActive := false;
        return;
      }
      var needEmptyAck := CheckEmptyAck(seg);
      Answer(needEmptyAck);
    }

    method CheckEmptyAck(seg: Segment) returns (needEmptyAck: bool)
      requires Shape()
      ensures needEmptyAck == NeedsEmptyAck(View(), seg)
    {
      needEmptyAck := Length(seg) > 0;
      if seg.header.ack && needEmptyAck && segmentsOut != [] {
        needEmptyAck := false;
      }
      var ackno := receiver.GetAckno();
      if ackno.Some? && Length(seg) == 0 && seg.header.seqno == (ackno.value - 1) % TWO_32 {
        needEmptyAck := true;
      }
    }

    method Answer(needEmptyAck: bool)
      requires Valid()
      modifies this`segmentsOut, sender`segmentsOut
      ensures Valid()
      ensures var c := old(View());
              View() == Flush(if needEmptyAck then c.(tx := SendEmpty(c.tx)) else c)
    {
      hide SenderInv, Flush;
      if needEmptyAck {
        sender.SendEmptySegment();
      }
      FlushKeeps(View());
      AddAcknoAndWindowToSend();
    }
  }

  lemma StampStep(rx: Receiver, out: seq<Packet>, q: seq<Tagged>)
    requires q != []
    ensures out + StampAll(rx, q) == out + [Stamp(rx, q[0])] + StampAll(rx, q[1..])
  {
  }

  lemma NothingToStamp(rx: Receiver, out: seq<Packet>)
    ensures out + StampAll(rx, []) == out
  {
  }

  lemma FlushKeeps(c: Conn)
    requires SenderInv(c.tx)
    ensures SenderInv(Flush(c).tx)
  {
    DropOutput(c.tx);
  }

  lemma ConnectKeeps(c: Conn)
    requires SenderInv(c.tx)
    ensures SenderInv(Connect(c).tx)
    ensures Connect(c).tx.stream.all == c.tx.stream.all
  {
    FillKeepsAll(c.tx);
    DropOutput(Fill(c.tx));
  }

  lemma WriteUnfolds(c: Conn, data: seq<byte>)
    requires SenderInv(c.tx)
    ensures WriteData(c, data) == Connect(c.(tx := WriteStream(c.tx, data)))
    ensures WriteData(c, data).tx.stream.all == Write(c.tx.stream, data).all
    ensures !TooLate(c.tx, data) ==> SenderInv(WriteData(c, data).tx)
  {
    hide SenderInv, Fill, StampAll, Connect;
    assert WriteData(c, data) == Connect(c.(tx := WriteStream(c.tx, data))) by { ConnectOfWrite(c, data); }
    FillSameStream(WriteStream(c.tx, data));
    if !TooLate(c.tx, data) {
      WriteKeeps(c.tx, data);
      ConnectKeeps(c.(tx := WriteStream(c.tx, data)));
    }
  }

  lemma ConnectOfWrite(c: Conn, data: seq<byte>)
    ensures WriteData(c, data) == Connect(c.(tx := WriteStream(c.tx, data)))
    ensures EndInputStream(c) == Connect(c.(tx := EndStream(c.tx)))
  {
  }

  lemma EndUnfolds(c: Conn)
    requires SenderInv(c.tx)
    ensures EndInputStream(c) == Connect(c.(tx := EndStream(c.tx)))
    ensures SenderInv(EndInputStream(c).tx)
  {
    hide SenderInv, Fill, Flush, Connect;
    ConnectOfWrite(c, []);
    EndKeeps(c.tx);
    ConnectKeeps(c.(tx := EndStream(c.tx)));
  }
}
