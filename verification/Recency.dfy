/** What an endpoint looks like between operations, and why what it sends now is fresh: at
    most one 16-bit window is ever in flight. */
module Recency {
  import opened FixedWidth
  import opened WrappingIntegers
  import opened ByteStreams
  import opened Reassembly
  import opened TcpSegments
  import opened Receivers
  import opened SenderModel
  import opened SenderInvariants
  import opened SenderRuns
  import SenderHistory
  import opened ConnectionModel
  import opened Links
  import opened Endpoints
  import opened TwoEndpoints

  const MAX_WINDOW: nat := TWO_16 - 1

  /** The sender has handed over what it sent and has at most one window in flight; and an
      active endpoint that does not linger is still waiting for an acknowledgment. */
  ghost predicate Settled(c: Conn) {
    && c.tx.out == []
    && c.tx.inFlight <= MAX_WINDOW
    && (c.active && !c.linger ==> !AllAcked(c.tx))
  }

  // ---------- The sender ----------

  /** Everything queued is outstanding or empty at the next number. */
  ghost predicate Recent(s: Sender) {
    forall t :: t in s.out ==> t in s.outstanding || t.abs == s.next
  }

  lemma FillBounds(s: Sender)
    requires SenderInv(s) && s.inFlight <= MAX_WINDOW
    ensures Fill(s).inFlight <= MAX_WINDOW
  {
    FillUsesWindow(s, EffectiveWindow(s));
  }

  lemma FillRecent(s: Sender)
    requires SeqInv(s) && forall t :: t in s.out ==> t in s.outstanding
    ensures forall t :: t in Fill(s).out ==> t in Fill(s).outstanding
  {
    hide FillFrom;
    FillSendsNext(s, EffectiveWindow(s));
  }

  /** What an acknowledgment makes the sender send. */
  lemma AckBounds(s: Sender, ackno: u32, window: u16)
    requires SenderInv(s) && s.inFlight <= MAX_WINDOW && s.out == []
    ensures var s' := ReceiveAck(s, ackno, window);
            && s'.inFlight <= MAX_WINDOW
            && (forall t :: t in s'.out ==> t in s'.outstanding)
            && (s'.inFlight == 0 ==> s'.out == [])
  {
    hide Fill, Acknowledge, SeqInv, TimerInv, Unwrap, PopAcked;
    var ack := Unwrap(ackno, s.isn, s.next);
    if ack <= s.next {
      var s1 := Acknowledge(s, ack, window);
      AcknowledgeKeeps(s, ack, window);
      SenderHistory.AcknowledgeEffect(s, ack, window);
      PopKeeps(s, ack);
      FillBounds(s1);
      FillRecent(s1);
      AckKeeps(s, ackno, window);
      if ReceiveAck(s, ackno, window).inFlight == 0 { NothingOutstanding(ReceiveAck(s, ackno, window)); }
    }
  }

  lemma NothingOutstanding(s: Sender)
    requires SeqInv(s) && s.inFlight == 0
    ensures s.outstanding == []
    ensures (forall t :: t in s.out ==> t in s.outstanding) ==> s.out == []
  {
    ChainLength(s.outstanding, Unacked(s), s.next);
    if s.out != [] { assert s.out[0] in s.out; }
  }

  /** An operation without an acknowledgment does not finish a stream. */
  lemma NotNewlyDone(s: Sender, s': Sender)
    requires SeqInv(s) && SeqInv(s') && Grows(s, s') && Unacked(s') == Unacked(s)
    ensures AllAcked(s') ==> AllAcked(s)
  {
  }

  // ---------- The endpoint ----------

  lemma OwnStepSettles(w: World, op: TwoEndpoints.Op)
    requires Inv(w) && LegalAtA(w, op) && Settled(w.a) && !op.OpDeliver?
    ensures Settled(StepAtA(w, op).1.a)
  {
    hide SeqInv, TimerInv, RenoInv, PacketsOk, Passive, Fill, StampAll, FlagsOk, TickConn;
    var c := w.a;
    match op
    case OpConnect =>
      ConnectEvolves(c);
      FillSettles(c, c.tx);
    case OpWrite(data) =>
      WriteEvolves(c, data);
      WriteKeeps(c.tx, data);
      FillSettles(c, WriteStream(c.tx, data));
    case OpEnd =>
      EndEvolves(c);
      EndKeeps(c.tx);
      FillSettles(c, EndStream(c.tx));
    case OpTick(ms) => TickSettles(c, ms);
    case _ =>
  }

  lemma FillSettles(c: Conn, tx: Sender)
    requires SenderInv(c.tx) && Settled(c) && SenderInv(tx) && Grows(c.tx, tx)
    requires tx.inFlight == c.tx.inFlight && Unacked(tx) == Unacked(c.tx)
    ensures Settled(Flush(c.(tx := Fill(tx))))
  {
    hide TimerInv, RenoInv, Chain, Carries, StampAll;
    FillBounds(tx);
    FillKeepsAll(tx);
    NotNewlyDone(tx, Fill(tx));
    NotNewlyDone(c.tx, tx);
  }

  lemma TickSettles(c: Conn, ms: nat)
    requires SenderInv(c.tx) && FlagsOk(c) && Settled(c)
    ensures Settled(TickConn(c, ms))
  {
    hide TimerInv, RenoInv, StampAll, BothDone, Tick, Chain, Carries;
    TickSame(c.tx, ms);
  }

  lemma TickSame(s: Sender, ms: nat)
    ensures Tick(s, ms).inFlight == s.inFlight && Tick(s, ms).finSent == s.finSent
  {
  }

  lemma DeliverSettles(w: World, p: Packet)
    requires Inv(w) && LegalAtA(w, OpDeliver(p)) && Settled(w.a)
    ensures Settled(StepAtA(w, OpDeliver(p)).1.a)
  {
    if p.seg.header.rst {
    } else {
      DeliverKeepsInv(w, p);
      DeliverUnfolds(w, p);
      ReceivedFlags(w, p);
      hide StepAtA, Receive, TakeAck, Respond, Settled, LinkInv, FlagsOk, PacketsOk;
      var x := w.a.(sinceLast := 0);
      var x1 := x.(rx := Receive(x.rx, p.seg).1);
      var w' := StepAtA(w, OpDeliver(p)).1;
      TakeAckSettles(x1, p.seg) by { SettledIgnores(w.a, x1); }
      var x2 := TakeAck(x1, p.seg);
      EndKnown(w');
      RespondSettles(x2, p.seg);
    }
  }

  lemma SettledIgnores(c: Conn, c': Conn)
    requires Settled(c) && c'.tx == c.tx
    ensures c'.tx.out == [] && c'.tx.inFlight <= MAX_WINDOW
  {
  }

  lemma EndKnown(w: World)
    requires Inv(w)
    ensures w.a.active && !w.a.linger ==> w.a.rx.Out().ended && w.a.rx.isn.Some?
  {
    hide SenderInv;
    LinkBounds(w.b.tx, w.a.rx);
  }

  /** After the acknowledgment of an incoming segment, before the answer. */
  ghost predicate Answering(c: Conn) {
    && SenderInv(c.tx) && FlagsOk(c)
    && c.tx.inFlight <= MAX_WINDOW
    && (forall t :: t in c.tx.out ==> t in c.tx.outstanding)
    && (c.tx.inFlight == 0 ==> c.tx.out == [])
  }

  lemma TakeAckSettles(c: Conn, seg: Segment)
    requires SenderInv(c.tx) && FlagsOk(c) && c.tx.out == [] && c.tx.inFlight <= MAX_WINDOW
    ensures RenoInv(c.tx) && Answering(TakeAck(c, seg))
  {
    hide SeqInv, TimerInv, ReceiveAck, FlagsOk;
    TakeAckEvolves(c, seg);
    if seg.header.ack { AckBounds(c.tx, seg.header.ackno, seg.header.win); }
  }

  lemma RespondSettles(c: Conn, seg: Segment)
    requires Answering(c)
    requires var c' := Respond(c, seg); c'.active && !c'.linger ==> c'.rx.Out().ended && c'.rx.isn.Some?
    ensures Settled(Respond(c, seg))
  {
    hide SeqInv, TimerInv, RenoInv, StampAll, Fill, NeedsEmptyAck;
    if SummarizeReceiver(c.rx) == SynReceived && SummarizeSender(c.tx) == Closed {
      FillBounds(c.tx);
    } else {
      if !c.tx.stream.error { SoundSummary(c.tx); }
    }
  }

  // ---------- Whole runs ----------

  ghost predicate BothSettled(w: World) { Settled(w.a) && Settled(w.b) }

  lemma StepSettles(w: World, action: Action)
    requires Inv(w) && Legal(w, action) && BothSettled(w)
    ensures Inv(TwoEndpoints.Step(w, action).1) && BothSettled(TwoEndpoints.Step(w, action).1)
  {
    StepKeepsInv(w, action);
    hide StepAtA, Half, Settled;
    var v := if action.atA then w else Swap(w);
    if action.op.OpDeliver? { DeliverSettles(v, action.op.p); } else { OwnStepSettles(v, action.op); }
    OtherSide(v, action.op);
  }

  // ---------- Freshness ----------

  /** A number that is not yet acknowledged is read back by the receiver. */
  lemma RecentSeqIsFresh(s: Sender, r: Receiver, p: Packet)
    requires LinkInv(s, r) && s.inFlight <= MAX_WINDOW && Unacked(s) <= p.abs <= s.next
    ensures FreshSeq(r, p)
  {
    hide SenderInv;
    LinkBounds(s, r);
  }

  /** The acknowledgment of the moment is read back by the sender. */
  lemma NewestAckIsFresh(s: Sender, r: Receiver)
    requires LinkInv(s, r) && s.inFlight <= MAX_WINDOW
    ensures Abs(AckOf(r) - s.next) < TWO_31
  {
    hide SenderInv;
    LinkBounds(s, r);
  }

  lemma {:induction false} ChainMember(q: seq<Tagged>, lo: int, hi: int, t: Tagged)
    requires Chain(q, lo, hi) && t in q
    ensures lo <= t.abs < hi && Length(t.seg) > 0
  {
    ChainLength(q[1..], q[0].End(), hi);
    if t != q[0] { ChainMember(q[1..], q[0].End(), hi, t); }
  }

  lemma RecentIsUnacked(s: Sender, t: Tagged)
    requires SeqInv(s) && (t in s.outstanding || t.abs == s.next)
    ensures Unacked(s) <= t.abs <= s.next
  {
    if t in s.outstanding { ChainMember(s.outstanding, Unacked(s), s.next, t); }
  }

  lemma FlushIsRecent(c: Conn, q: Packet)
    requires SeqInv(c.tx) && Recent(c.tx) && q in Flush(c).out && q !in c.out
    ensures Unacked(c.tx) <= q.abs <= c.tx.next
  {
    hide SeqInv;
    StampAllMember(c.rx, c.tx.out, q);
    var t :| t in c.tx.out && q == Stamp(c.rx, t);
    RecentIsUnacked(c.tx, t);
  }

  lemma AnswerIsRecent(c: Conn, seg: Segment, q: Packet)
    requires Answering(c) && q in Respond(c, seg).out && q !in c.out
    ensures var s' := Respond(c, seg).tx; Unacked(s') <= q.abs <= s'.next
  {
    hide SeqInv, TimerInv, RenoInv, StampAll, Fill, NeedsEmptyAck, SummarizeSender, SummarizeReceiver, BothDone;
    if SummarizeReceiver(c.rx) == SynReceived && SummarizeSender(c.tx) == Closed {
      FillRecent(c.tx);
      FillKeepsAll(c.tx);
      FlushIsRecent(c.(tx := Fill(c.tx)), q);
    } else {
      var c1 := NotePassiveClose(c);
      SendEmptyKeeps(c.tx);
      if NeedsEmptyAck(c1, seg) { FlushIsRecent(c1.(tx := SendEmpty(c1.tx)), q); } else { FlushIsRecent(c1, q); }
    }
  }

  /** Every answer to a segment is fresh when it is queued. */
  lemma AnswersAreFresh(w: World, p: Packet, q: Packet)
    requires Inv(w) && BothSettled(w) && LegalAtA(w, OpDeliver(p)) && !p.seg.header.rst
    requires q in StepAtA(w, OpDeliver(p)).1.a.out && q !in w.a.out && !q.seg.header.rst
    ensures TwoEndpoints.Fresh(w.b, q)
  {
    DeliverKeepsInv(w, p);
    DeliverSettles(w, p);
    DeliverUnfolds(w, p);
    ReceivedFlags(w, p);
    var x := w.a.(sinceLast := 0);
    var x1 := x.(rx := Receive(x.rx, p.seg).1);
    var x' := StepAtA(w, OpDeliver(p)).1.a;
    assert LinkInv(x'.tx, w.b.rx) && LinkInv(w.b.tx, x'.rx);
    assert w.a.tx.out == [] && w.a.tx.inFlight <= MAX_WINDOW;
    assert x'.tx.inFlight <= MAX_WINDOW && w.b.tx.inFlight <= MAX_WINDOW;
    hide StepAtA, Receive, TakeAck, Respond, Settled, LinkInv, FlagsOk, Half;
    TakeAckSettles(x1, p.seg);
    AnswerIsRecent(TakeAck(x1, p.seg), p.seg, q);
    AnswerIsNew(x1, p.seg, q);
    RecentSeqIsFresh(x'.tx, w.b.rx, q);
    NewestAckIsFresh(w.b.tx, x'.rx);
  }

  /** It acknowledges all there is. */
  lemma AnswerIsNew(c: Conn, seg: Segment, q: Packet)
    requires SenderInv(c.tx) && FlagsOk(c) && q in Respond(TakeAck(c, seg), seg).out && q !in c.out
    ensures var x' := Respond(TakeAck(c, seg), seg);
            q.seg.header.ack && !q.seg.header.rst ==> q.absAck == AckOf(x'.rx)
  {
    hide SeqInv, TimerInv, TakeAck, Respond;
    TakeAckEvolves(c, seg);
    RespondEvolves(TakeAck(c, seg), seg);
  }
}
