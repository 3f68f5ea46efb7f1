/** Getting ahead: the oldest outstanding segment, once delivered and answered, is released. */
module Progress {
  import opened FixedWidth
  import opened WrappingIntegers
  import opened ByteStreams
  import opened Reassembly
  import opened TcpSegments
  import opened Receivers
  import opened SenderModel
  import opened SenderInvariants
  import opened SenderRuns
  import SenderHistory
  import opened ConnectionModel
  import opened Links
  import opened Endpoints
  import opened TwoEndpoints
  import opened Recency

  /** Packet `p` covers the oldest outstanding segment of `s`. */
  predicate CoversOldest(s: Sender, p: Packet) {
    && s.outstanding != [] && !p.seg.header.rst
    && p.abs <= s.outstanding[0].abs && s.outstanding[0].End() <= p.abs + Length(p.seg)
  }

  /** Its payload ends inside the receiver's window. */
  predicate Fits(r: Receiver, p: Packet) {
    Index(Strip(p)) + |p.seg.payload| <= Edge(r.reassembler)
  }

  /** The sequence numbers that are still to be acknowledged. */
  function Remaining(s: Sender): int { |s.stream.all| + 2 - Unacked(s) }

  predicate IsAck(q: Packet) { q.seg.header.ack && !q.seg.header.rst }

  // ---------- The receiving side answers ----------

  lemma FlushStamps(c: Conn)
    requires SeqInv(c.tx) && c.tx.out != [] && c.rx.isn.Some?
    ensures exists q :: q in Flush(c).out && IsAck(q) && q.absAck == AbsoluteAck(c.rx)
  {
    assert Carries(c.tx, c.tx.out[0]);
    assert StampAll(c.rx, c.tx.out)[0] == Stamp(c.rx, c.tx.out[0]);
    var q := StampAll(c.rx, c.tx.out)[0];
    assert Flush(c).out[|c.out|] == q;
  }

  /** A sender that has sent nothing sends a SYN when its window is filled. */
  lemma FirstFillSends(s: Sender)
    requires SenderInv(s) && !s.synSent
    ensures Fill(s).out != []
  {
    FillSendsNext(s, EffectiveWindow(s));
    FillUsesWindow(s, EffectiveWindow(s));
    FillKeeps(s, EffectiveWindow(s));
    assert Fill(s).outstanding != [];
    assert s.outstanding == [] by { ChainEmpty(s.outstanding, 0); }
  }

  lemma ChainEmpty(q: seq<Tagged>, lo: int)
    requires Chain(q, lo, lo)
    ensures q == []
  {
    ChainLength(q, lo, lo);
  }

  lemma ClosedMeansUnsent(s: Sender)
    requires SeqInv(s) && SummarizeSender(s) == Closed
    ensures !s.synSent
  {
  }

  /** With its queue drained, an endpoint that takes in a segment queues an acknowledgment
      of everything it has, unless it just stopped. */
  lemma RespondAcks(c: Conn, seg: Segment)
    requires SenderInv(c.tx) && c.out == [] && Length(seg) > 0 && c.rx.isn.Some? && c.active
    requires Respond(c, seg).active
    ensures exists q :: q in Respond(c, seg).out && IsAck(q) && q.absAck == AbsoluteAck(c.rx)
  {
    hide SeqInv, TimerInv, RenoInv, Flush, Fill, SummarizeSender, SummarizeReceiver, BothDone;
    if SummarizeReceiver(c.rx) == SynReceived && SummarizeSender(c.tx) == Closed {
      ClosedMeansUnsent(c.tx);
      FirstFillSends(c.tx);
      FillKeepsAll(c.tx);
      FlushStamps(c.(tx := Fill(c.tx)));
    } else {
      var c1 := NotePassiveClose(c);
      SendEmptyKeeps(c1.tx);
      FlushStamps(c1.(tx := SendEmpty(c1.tx)));
    }
  }

  /** Delivering the oldest outstanding segment makes the other side queue an
      acknowledgment that covers it. */
  lemma OldestIsAcknowledged(w: World, p: Packet)
    requires Inv(w) && w.a.active && w.a.out == []
    requires LegalAtA(w, OpDeliver(p)) && FreshSeq(w.a.rx, p) && CoversOldest(w.b.tx, p) && Fits(w.a.rx, p)
    ensures var w' := StepAtA(w, OpDeliver(p)).1;
            && w'.a.active && w'.b == w.b && w'.fromB == w.fromB && Inv(w')
            && exists q :: q in w'.a.out && IsAck(q) && q.absAck >= w.b.tx.outstanding[0].End()
  {
    hide LinkInv, PacketsOk, FlagsOk, Passive, StepAtA, Respond, TakeAck, Receive;
    DeliverKeepsInv(w, p);
    DeliverUnfolds(w, p);
    ClockOnly(w.a, w.a.(sinceLast := 0), w.b, w.fromA, w.fromB);
    OldestIsAcknowledgedHalf(w.a.(sinceLast := 0), w.b, w.fromA, w.fromB, p);
  }

  lemma OldestIsAcknowledgedHalf(x: Conn, y: Conn, netX: set<Packet>, netY: set<Packet>, p: Packet)
    requires Half(x, y, netX) && Half(y, x, netY) && x.active && x.out == []
    requires p in netY && Harmless(x, y, p) && FreshSeq(x.rx, p) && CoversOldest(y.tx, p) && Fits(x.rx, p)
    ensures var x' := Respond(TakeAck(x.(rx := Receive(x.rx, p.seg).1), p.seg), p.seg);
            x'.active && exists q :: q in x'.out && IsAck(q) && q.absAck >= y.tx.outstanding[0].End()
  {
    hide SeqInv, TimerInv, RenoInv, Agrees, Carries, Receive, Respond, TakeAck, Passive;
    HeadStartsAtUnacked(y.tx);
    LinkReceive(y.tx, x.rx, p);
    ReceiveCompletes(y.tx, x.rx, p);
    var x1 := x.(rx := Receive(x.rx, p.seg).1);
    var x2 := TakeAck(x1, p.seg);
    TakeAckEvolves(x1, p.seg);
    if !Respond(x2, p.seg).active {
      PassiveExit(x, y, netX, netY, p);
      assert false;
    }
    RespondAcks(x2, p.seg);
  }

  lemma HeadStartsAtUnacked(s: Sender)
    requires SeqInv(s) && s.outstanding != []
    ensures s.outstanding[0].abs == Unacked(s) && s.inFlight > 0 && Length(s.outstanding[0].seg) > 0
  {
    ChainLength(s.outstanding, Unacked(s), s.next);
  }

  // ---------- The sending side releases ----------

  lemma PopReleasesOldest(s: Sender, ack: nat)
    requires SeqInv(s) && s.outstanding != [] && s.outstanding[0].End() <= ack
    ensures Unacked(PopAcked(s, ack)) >= s.outstanding[0].End() > Unacked(s)
  {
    hide Carries, TotalLength;
    HeadStartsAtUnacked(s);
    var t := s.outstanding[0];
    var s1 := s.(outstanding := s.outstanding[1..], inFlight := s.inFlight - Length(t.seg));
    ChainLength(s.outstanding[1..], t.End(), s.next);
    AllCarried(s, s1, s.outstanding);
    AllCarried(s, s1, s.out);
    PopKeeps(s1, ack);
  }

  /** Delivering an acknowledgment of the oldest outstanding segment releases it. */
  lemma OldestIsReleased(w: World, q: Packet)
    requires Inv(w) && LegalAtA(w, OpDeliver(q)) && IsAck(q) && TwoEndpoints.Fresh(w.a, q)
    requires w.a.tx.outstanding != [] && w.a.tx.outstanding[0].End() <= q.absAck
    ensures var w' := StepAtA(w, OpDeliver(q)).1;
            && 0 <= Remaining(w'.a.tx) <= Remaining(w.a.tx) - Length(w.a.tx.outstanding[0].seg) < Remaining(w.a.tx)
            && w'.a.tx.retx == 0
  {
    hide LinkInv, FlagsOk, Passive, StepAtA, Respond, TakeAck, Receive;
    var x, y := w.a.(sinceLast := 0), w.b;
    SentIsOk(y, w.fromB, q);
    DeliverUnfolds(w, q);
    ClockOnly(w.a, x, y, w.fromA, w.fromB);
    OldestIsReleasedHalf(x, y, q);
  }

  lemma OldestIsReleasedHalf(x: Conn, y: Conn, q: Packet)
    requires LinkInv(x.tx, y.rx) && LinkInv(y.tx, x.rx) && FlagsOk(x) && PacketOk(y.tx, y.rx, q)
    requires TwoEndpoints.Fresh(x, q) && Harmless(x, y, q)
    requires IsAck(q) && x.tx.outstanding != [] && x.tx.outstanding[0].End() <= q.absAck
    ensures Receive(x.rx, q.seg).0 == Ok
    ensures var x' := Respond(TakeAck(x.(rx := Receive(x.rx, q.seg).1), q.seg), q.seg);
            && Unacked(x'.tx) >= x.tx.outstanding[0].End() > Unacked(x.tx)
            && 0 <= Remaining(x'.tx) <= Remaining(x.tx) - Length(x.tx.outstanding[0].seg) < Remaining(x.tx)
            && x'.tx.retx == 0
  {
    hide TimerInv, RenoInv, Agrees, Carries, Receive, Respond, TakeAck, Chain;
    HeadStartsAtUnacked(x.tx);
    LinkReceive(y.tx, x.rx, q);
    var x1 := x.(rx := Receive(x.rx, q.seg).1);
    TakeAckEvolves(x1, q.seg);
    TakeAckKeepsLink(x1, y, q);
    RespondEvolves(TakeAck(x1, q.seg), q.seg);
    PopReleasesOldest(x.tx, q.absAck);
    PopKeeps(x.tx, q.absAck);
    assert TakeAck(x1, q.seg).tx.retx == 0 by {
      AckDecodes(x1, y, q);
      AckClearsRetx(x1, q.seg);
    }
    RespondSameRetx(TakeAck(x1, q.seg), q.seg);
  }

  lemma AckClearsRetx(c: Conn, seg: Segment)
    requires SenderInv(c.tx) && seg.header.ack
    requires SenderHistory.Releases(c.tx, Unwrap(seg.header.ackno, c.tx.isn, c.tx.next))
    ensures TakeAck(c, seg).tx.retx == 0
  {
    hide SeqInv, TimerInv, Acknowledge, ReceiveAck, Unwrap, PopAcked;
    var ack := Unwrap(seg.header.ackno, c.tx.isn, c.tx.next);
    SenderHistory.AcknowledgeEffect(c.tx, ack, seg.header.win);
    SenderHistory.AckEffect(c.tx, seg.header.ackno, seg.header.win);
  }

  lemma RespondSameRetx(c: Conn, seg: Segment)
    requires SenderInv(c.tx)
    ensures Respond(c, seg).tx.retx == c.tx.retx
  {
    hide SeqInv, TimerInv, RenoInv, StampAll, SummarizeSender, SummarizeReceiver, BothDone, NeedsEmptyAck, FillFrom;
    FillKeeps(c.tx, EffectiveWindow(c.tx));
  }

  /** A whole round: the segment to one side, the answer back. The answer is always fresh,
      and the unacknowledged rest of the stream gets strictly shorter. */
  lemma RoundTrip(w: World, p: Packet) returns (q: Packet)
    requires Inv(w) && BothSettled(w) && w.a.active && w.a.out == []
    requires LegalAtA(w, OpDeliver(p)) && FreshSeq(w.a.rx, p) && CoversOldest(w.b.tx, p) && Fits(w.a.rx, p)
    ensures q in SegmentReceived(w.a, p.seg).1.out && IsAck(q) && TwoEndpoints.Fresh(w.b, q)
    ensures 0 <= Remaining(SegmentReceived(w.b, q.seg).1.tx)
            <= Remaining(w.b.tx) - Length(w.b.tx.outstanding[0].seg) < Remaining(w.b.tx)
  {
    hide SegmentReceived;
    OldestIsAcknowledged(w, p);
    var w1 := StepAtA(w, OpDeliver(p)).1;
    q :| q in w1.a.out && IsAck(q) && q.absAck >= w.b.tx.outstanding[0].End();
    AnswersAreFresh(w, p, q);
    assert PacketOk(w1.a.tx, w1.a.rx, q);
    var w2 := Swap(w1).(fromB := w1.fromA + {q});
    AlreadyQueued(w1, q);
    FreshIsHarmless(w2, q);
    OldestIsReleased(w2, q);
  }

  /** Putting a queued packet on the network as well changes nothing. */
  lemma AlreadyQueued(w: World, q: Packet)
    requires Inv(w) && q in w.a.out
    ensures Inv(Swap(w).(fromB := w.fromA + {q}))
  {
    hide LinkInv, PacketOk, FlagsOk;
  }

  /** After an acknowledgment the sender either has something outstanding or has sent all
      there is: it never waits for nothing. */
  lemma NeverStuck(s: Sender, ackno: u32, window: u16)
    requires SenderInv(s) && Unwrap(ackno, s.isn, s.next) <= s.next
    ensures var s' := ReceiveAck(s, ackno, window);
            s'.outstanding != [] || (s'.synSent && Buffered(s'.stream) == 0 && (s'.stream.ended ==> AllAcked(s')))
  {
    var ack := Unwrap(ackno, s.isn, s.next);
    AcknowledgeKeeps(s, ack, window);
    var s1 := Acknowledge(s, ack, window);
    FillKeeps(s1, EffectiveWindow(s1));
    FillUsesWindow(s1, EffectiveWindow(s1));
    var s' := ReceiveAck(s, ackno, window);
    ChainLength(s'.outstanding, Unacked(s'), s'.next);
  }
}
