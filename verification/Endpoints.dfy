/** What every operation of one endpoint does to its sender, to the packets it queues and
    to its flags, whatever the peer is doing. */
module Endpoints {
  import opened FixedWidth
  import opened WrappingIntegers
  import opened TcpSegments
  import opened Receivers
  import opened SenderModel
  import opened SenderInvariants
  import opened SenderRuns
  import opened ConnectionModel
  import opened Links

  /** A packet queued just now: its acknowledgment is the newest, and its window is the room
      in the receive buffer, as far as 16 bits hold it. */
  ghost predicate NewPacket(c: Conn, p: Packet) {
    && PacketOk(c.tx, c.rx, p)
    && (c.rx.isn.Some? && !p.seg.header.rst ==> p.seg.header.ack && p.absAck == AbsoluteAck(c.rx))
    && (!p.seg.header.rst ==>
          var out := c.rx.Out();
          p.seg.header.win == Min(65535, out.capacity - (|out.all| - out.read)))
  }

  ghost predicate Queues(c: Conn, c': Conn) {
    forall p :: p in c'.out ==> p in c.out || NewPacket(c', p)
  }

  /** An operation that does not acknowledge: the sender may send more. */
  ghost predicate Evolves(c: Conn, c': Conn) {
    && SenderInv(c'.tx) && Grows(c.tx, c'.tx) && Unacked(c'.tx) == Unacked(c.tx)
    && c'.tx.window == c.tx.window
    && Queues(c, c')
  }

  predicate Failed(c: Conn) { c.tx.stream.error }

  /** The flags: an endpoint is inactive only after an error or with both streams done, and
      gives up after eight retransmissions in a row. */
  ghost predicate FlagsOk(c: Conn) {
    && (c.tx.stream.error <==> c.rx.Out().error)
    && (Failed(c) ==> !c.active && !c.linger)
    && (!c.active ==> Failed(c) || (c.rx.Out().ended && AllAcked(c.tx)))
    && (!Failed(c) ==> c.tx.retx <= MAX_RETX_ATTEMPTS)
  }

  /** How the flags may change: an endpoint stops lingering when it sees the end of the
      peer's stream before it has sent its own FIN, or together with becoming inactive. */
  ghost predicate FlagStep(c: Conn, c': Conn) {
    && FlagsOk(c')
    && (c'.active ==> c.active && (c'.linger == c.linger || (!c'.linger && c'.rx.Out().ended && !c'.tx.finSent)))
    && (Failed(c) ==> Failed(c'))
  }

  lemma {:induction false} StampAllMember(rx: Receiver, q: seq<Tagged>, p: Packet)
    requires p in StampAll(rx, q)
    ensures exists t :: t in q && p == Stamp(rx, t)
  {
    if p == Stamp(rx, q[0]) {
      assert q[0] in q;
    } else {
      StampAllMember(rx, q[1..], p);
      var t :| t in q[1..] && p == Stamp(rx, t);
      assert t in q;
    }
  }

  lemma StampIsNew(c: Conn, t: Tagged)
    requires Carries(c.tx, t)
    ensures NewPacket(c, Stamp(c.rx, t))
  {
    var p := Stamp(c.rx, t);
    assert Strip(p).seg.payload == t.seg.payload;
  }

  lemma FlushEvolves(c: Conn)
    requires SenderInv(c.tx)
    ensures Evolves(c, Flush(c))
  {
    var c' := Flush(c);
    AllCarried(c.tx, c'.tx, c.tx.outstanding);
    AllCarried(c.tx, c'.tx, c.tx.out);
    forall p | p in c'.out && p !in c.out ensures NewPacket(c', p) {
      StampAllMember(c.rx, c.tx.out, p);
      var t :| t in c.tx.out && p == Stamp(c.rx, t);
      StampIsNew(c', t);
    }
  }

  /** A sender operation followed by a flush. */
  lemma ThenFlush(c: Conn, tx: Sender)
    requires SenderInv(tx) && Grows(c.tx, tx) && Unacked(tx) == Unacked(c.tx) && tx.window == c.tx.window
    ensures Evolves(c, Flush(c.(tx := tx)))
  {
    FlushEvolves(c.(tx := tx));
  }

  lemma AllAckedStays(s: Sender, s': Sender)
    requires SeqInv(s) && SeqInv(s') && Grows(s, s') && Unacked(s) <= Unacked(s')
    requires AllAcked(s)
    ensures AllAcked(s') && s'.next == s.next
  {
  }

  // ---------- Operations of the application and the clock ----------

  lemma ConnectEvolves(c: Conn)
    requires SenderInv(c.tx) && FlagsOk(c)
    ensures Evolves(c, Connect(c)) && FlagStep(c, Connect(c)) && Connect(c).rx == c.rx
    ensures Connect(c).tx.stream.all == c.tx.stream.all
  {
    FillKeepsAll(c.tx);
    ThenFlush(c, Fill(c.tx));
    FillKeeps(c.tx, EffectiveWindow(c.tx));
    if AllAcked(c.tx) { AllAckedStays(c.tx, Fill(c.tx)); }
  }

  lemma WriteEvolves(c: Conn, data: seq<byte>)
    requires SenderInv(c.tx) && FlagsOk(c) && !TooLate(c.tx, data)
    ensures Evolves(c, WriteData(c, data)) && FlagStep(c, WriteData(c, data)) && WriteData(c, data).rx == c.rx
    ensures WriteData(c, data).tx.stream.all == WriteStream(c.tx, data).stream.all
  {
    hide SeqInv, TimerInv, RenoInv;
    var tx := WriteStream(c.tx, data);
    WriteKeeps(c.tx, data);
    FillKeepsAll(tx);
    GrowsTrans(c.tx, tx, Fill(tx));
    ThenFlush(c, Fill(tx));
    FillKeeps(tx, EffectiveWindow(tx));
    if AllAcked(c.tx) { AllAckedStays(c.tx, Fill(tx)); }
  }

  lemma GrowsTrans(s: Sender, s1: Sender, s2: Sender)
    requires Grows(s, s1) && Grows(s1, s2)
    ensures Grows(s, s2)
  {
  }

  lemma EndEvolves(c: Conn)
    requires SenderInv(c.tx) && FlagsOk(c)
    ensures Evolves(c, EndInputStream(c)) && FlagStep(c, EndInputStream(c)) && EndInputStream(c).rx == c.rx
    ensures EndInputStream(c).tx.stream.all == c.tx.stream.all
  {
    hide SeqInv, TimerInv, RenoInv;
    var tx := EndStream(c.tx);
    EndKeeps(c.tx);
    FillKeepsAll(tx);
    GrowsTrans(c.tx, tx, Fill(tx));
    ThenFlush(c, Fill(tx));
    FillKeeps(tx, EffectiveWindow(tx));
    if AllAcked(c.tx) { AllAckedStays(c.tx, Fill(tx)); }
  }

  lemma ResetEvolves(c: Conn, sendReset: bool)
    requires SenderInv(c.tx)
    ensures Evolves(c, SetReset(c, sendReset)) && FlagStep(c, SetReset(c, sendReset))
  {
    var c' := SetReset(c, sendReset);
    AllCarried(c.tx, c'.tx, c.tx.outstanding);
    AllCarried(c.tx, c'.tx, c.tx.out);
  }

  lemma TickEvolves(c: Conn, ms: nat)
    requires SenderInv(c.tx) && FlagsOk(c)
    ensures Evolves(c, TickConn(c, ms)) && FlagStep(c, TickConn(c, ms))
    ensures TickConn(c, ms).rx == c.rx || TickConn(c, ms).rx == FailReceiver(c.rx)
    ensures TickConn(c, ms).tx.stream.all == c.tx.stream.all
  {
    hide SenderInv, Tick, Flush, SetReset, Grows, BothDone;
    var tx := Tick(c.tx, ms);
    TickKeeps(c.tx, ms);
    TickSameStream(c.tx, ms);
    var c1 := c.(sinceLast := c.sinceLast + ms, tx := tx);
    if tx.retx > MAX_RETX_ATTEMPTS {
      GiveUpEvolves(c, c1);
    } else {
      FlushTickEvolves(c, c1);
    }
  }

  lemma GiveUpEvolves(c: Conn, c1: Conn)
    requires SenderInv(c1.tx) && Grows(c.tx, c1.tx) && c1.tx.stream == c.tx.stream
    requires c1 == c.(sinceLast := c1.sinceLast, tx := c1.tx)
    requires Unacked(c1.tx) == Unacked(c.tx) && c1.tx.window == c.tx.window
    ensures var c' := SetReset(c1.(tx := c1.tx.(out := [])), true);
            && Evolves(c, c') && FlagStep(c, c') && c'.rx == FailReceiver(c.rx)
            && c'.tx.stream.all == c.tx.stream.all
  {
    hide SeqInv, TimerInv, RenoInv;
    var c2 := c1.(tx := c1.tx.(out := []));
    DropOutput(c1.tx);
    ResetEvolves(c2, true);
    GrowsTrans(c.tx, c2.tx, SetReset(c2, true).tx);
  }

  lemma FlushTickEvolves(c: Conn, c1: Conn)
    requires SenderInv(c.tx) && FlagsOk(c)
    requires SenderInv(c1.tx) && Grows(c.tx, c1.tx) && c1.tx.stream == c.tx.stream
    requires c1 == c.(sinceLast := c1.sinceLast, tx := c1.tx)
    requires Unacked(c1.tx) == Unacked(c.tx) && c1.tx.window == c.tx.window && c1.tx.retx <= MAX_RETX_ATTEMPTS
    ensures var c2 := Flush(c1);
            && Evolves(c, c2) && FlagStep(c, c2) && c2.rx == c.rx && c2.tx.stream.all == c.tx.stream.all
            && (BothDone(c2) ==> Evolves(c, c2.(active := false, linger := false))
                                 && FlagStep(c, c2.(active := false, linger := false)))
  {
    hide SeqInv, TimerInv, RenoInv, StampAll;
    ThenFlush(c, c1.tx);
    if AllAcked(c.tx) { AllAckedStays(c.tx, c1.tx); }
    FlushedSummary(c1);
  }

  lemma TickSameStream(s: Sender, ms: nat)
    ensures Tick(s, ms).stream == s.stream && Unacked(Tick(s, ms)) == Unacked(s) && Tick(s, ms).window == s.window
  {
  }

  lemma FlushedSummary(c: Conn)
    requires SenderInv(c.tx)
    ensures SummarizeSender(Flush(c).tx) == SummarizeSender(c.tx)
    ensures BothDone(c) ==> AllAcked(c.tx) && c.rx.Out().ended
  {
    if !c.tx.stream.error { SummaryMeaning(c.tx); }
  }

  lemma SoundSummary(s: Sender)
    requires SenderInv(s) && !s.stream.error
    ensures SummarizeSender(s) == SynAcked <==> s.next - s.inFlight > 0 && !s.finSent
    ensures SummarizeSender(s) == FinAcked <==> AllAcked(s)
  {
    SummaryMeaning(s);
  }

  // ---------- Incoming segments ----------

  lemma SameEvolution(c: Conn, c': Conn, d: Conn, d': Conn)
    requires Evolves(c, c') && d.tx == c.tx && d.out == c.out && d'.tx == c'.tx && d'.rx == c'.rx && d'.out == c'.out
    ensures Evolves(d, d')
  {
    assert forall p :: NewPacket(c', p) ==> NewPacket(d', p);
  }

  lemma NothingEvolves(c: Conn, c': Conn)
    requires SenderInv(c.tx) && c'.tx == c.tx && c'.out == c.out
    ensures Evolves(c, c')
  {
  }

  lemma RespondEvolves(c: Conn, seg: Segment)
    requires SenderInv(c.tx) && FlagsOk(c)
    ensures Evolves(c, Respond(c, seg)) && FlagStep(c, Respond(c, seg)) && Respond(c, seg).rx == c.rx
    ensures Respond(c, seg).tx.stream.all == c.tx.stream.all
    ensures !Respond(c, seg).active && c.active ==> !c.linger && BothDone(c)
  {
    hide SenderInv, Evolves, FlagStep, Connect, CloseOrAnswer, SummarizeSender, SummarizeReceiver, BothDone;
    if SummarizeReceiver(c.rx) == SynReceived && SummarizeSender(c.tx) == Closed {
      ConnectEvolves(c);
      assert Connect(c).active == c.active by { ConnectSameFlags(c); }
    } else {
      AnswerEvolves(c, NotePassiveClose(c), seg);
      AnswerFlags(c, seg);
    }
  }

  lemma ConnectSameFlags(c: Conn)
    ensures Connect(c).active == c.active
  {
    hide StampAll, Fill;
  }

  lemma AnswerEvolves(c: Conn, noted: Conn, seg: Segment)
    requires SenderInv(c.tx) && noted == c.(linger := noted.linger)
    ensures var c' := CloseOrAnswer(noted, seg);
            Evolves(c, c') && c'.rx == c.rx && c'.tx == c.tx.(out := c'.tx.out)
  {
    hide SenderInv, Evolves, StampAll, BothDone, NeedsEmptyAck;
    var c' := CloseOrAnswer(noted, seg);
    SendEmptyKeeps(c.tx);
    ThenFlush(noted, SendEmpty(c.tx));
    FlushEvolves(noted);
    NothingEvolves(noted, noted.(active := false));
    SameEvolution(noted, c', c, c');
  }

  lemma AnswerFlags(c: Conn, seg: Segment)
    requires SenderInv(c.tx) && FlagsOk(c)
    ensures var c' := CloseOrAnswer(NotePassiveClose(c), seg);
            FlagStep(c, c') && (!c'.active && c.active ==> !c.linger && BothDone(c))
  {
    FlushedSummary(c);
    if !c.tx.stream.error { SoundSummary(c.tx); }
    hide SeqInv, TimerInv, RenoInv, StampAll, NeedsEmptyAck;
  }

  lemma TakeAckEvolves(c: Conn, seg: Segment)
    requires SenderInv(c.tx) && FlagsOk(c)
    ensures var c' := TakeAck(c, seg);
            && SenderInv(c'.tx) && Grows(c.tx, c'.tx) && Unacked(c.tx) <= Unacked(c'.tx)
            && (c'.tx.window == c.tx.window || c'.tx.window == seg.header.win)
            && FlagsOk(c') && c' == c.(tx := c'.tx) && c'.tx.stream == c.tx.stream.(read := c'.tx.stream.read)
  {
    if seg.header.ack {
      AckKeeps(c.tx, seg.header.ackno, seg.header.win);
      PopKeeps(c.tx, Unwrap(seg.header.ackno, c.tx.isn, c.tx.next));
      var tx := ReceiveAck(c.tx, seg.header.ackno, seg.header.win);
      if AllAcked(c.tx) { AllAckedStays(c.tx, tx); }
    }
  }
}
