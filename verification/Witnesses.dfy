/** Reachable states in which the code does not do what one might expect. */
module Witnesses {
  import opened FixedWidth
  import opened WrappingIntegers
  import opened ByteStreams
  import Reassembly
  import opened TcpSegments
  import opened Receivers
  import opened SenderModel
  import opened SenderInvariants
  import opened SenderRuns
  import SenderHistory
  import opened ConnectionModel
  import opened Links
  import opened Endpoints
  import opened TwoEndpoints
  import opened Recency
  import opened NetworkCopies
  import opened Progress
  import opened Completion
  import opened Answers

  // ---------- A sender on its own ----------

  /** A sender that has sent `data` and its SYN, of which `acked` sequence numbers are
      acknowledged, and has nothing left to send. */
  ghost predicate Idle(s: Sender, data: seq<byte>, acked: nat, r: Reno) {
    && SenderInv(s) && s.synSent && !s.finSent && !s.stream.ended
    && s.stream.all == data && s.stream.read == |data|
    && Unacked(s) == acked && s.reno == r
  }

  lemma IdleNumbers(s: Sender, data: seq<byte>, acked: nat, r: Reno)
    requires Idle(s, data, acked, r)
    ensures s.next == 1 + |data| && s.inFlight == 1 + |data| - acked
    ensures acked <= |data| ==> s.outstanding != [] && s.outstanding[0].abs == acked
    ensures acked <= |data| ==> s.outstanding[0].End() > acked
  {
    ChainLength(s.outstanding, Unacked(s), s.next);
  }

  /** The first filling sends the SYN and nothing else. */
  lemma FirstFill(s: Sender)
    requires SenderInv(s) && !s.synSent && s.stream.all == [] && s.window == 1
    ensures var s' := Fill(s);
            && s'.synSent && s'.next == 1 && s'.inFlight == 1 && !s'.finSent && SenderInv(s')
            && s'.stream == s.stream && s'.reno == s.reno && Unacked(s') == 0
  {
    FillKeepsAll(s);
    FillKeeps(s, EffectiveWindow(s));
    FillUsesWindow(s, EffectiveWindow(s));
  }

  lemma FirstFillIsIdle(s: Sender)
    requires SenderInv(s) && !s.synSent && s.stream.all == [] && s.window == 1 && !s.stream.ended
    ensures Idle(Fill(s), [], 0, s.reno)
  {
    FirstFill(s);
  }

  /** An acknowledgment keeps the sender idle. */
  lemma IdleAck(s: Sender, data: seq<byte>, acked: nat, r: Reno, ack: nat, window: u16)
    requires Idle(s, data, acked, r) && acked <= ack <= 1 + |data| < TWO_31
    requires ack == acked || ack == 1 + |data|
    requires r.enabled && acked <= |data|
    ensures var s' := ReceiveAck(s, Wrap(ack, s.isn), window);
            && Idle(s', data, ack, if ack > acked then OnNewAck(r, ack - acked).(lastAck := ack)
                                   else if r.lastAck == ack then OnDupAck(r) else r.(lastAck := ack))
            && s'.isn == s.isn && s'.window == window
  {
    hide Acknowledge, ReceiveAck, TimerInv, Carries, Wrap, OnNewAck, OnDupAck;
    IdleNumbers(s, data, acked, r);
    UnwrapInvertsWrap(ack, s.isn, s.next);
    var ackno := Wrap(ack, s.isn);
    var s' := ReceiveAck(s, ackno, window);
    AckKeeps(s, ackno, window);
    SenderHistory.AcknowledgeEffect(s, ack, window);
    SenderHistory.AckEffect(s, ackno, window);
    PopKeeps(s, ack);
    if ack == s.next { FullAckReleasesAll(s); }
  }

  /** Writing to an idle sender and filling its window sends all of a small write. */
  lemma IdleWrite(s: Sender, r: Reno, data: seq<byte>)
    requires Idle(s, [], 1, r) && |data| < EffectiveWindow(s) && |data| <= s.stream.capacity
    ensures !TooLate(s, data) && SenderInv(WriteStream(s, data))
    ensures Idle(Fill(WriteStream(s, data)), data, 1, r)
    ensures Fill(WriteStream(s, data)).isn == s.isn
  {
    WriteKeeps(s, data);
    var s1 := WriteStream(s, data);
    assert s1.stream.all == data;
    FillKeepsAll(s1);
    FillKeeps(s1, EffectiveWindow(s1));
    FillUsesWindow(s1, EffectiveWindow(s1));
  }

  // ---------- Leaving fast recovery ----------

  /** Third duplicate of acknowledgment number one, at a window of 1001 bytes. */
  const RECOVERING := Reno(true, 5000, 2000, 3, 1, true)

  lemma Numbers()
    ensures OnNewAck(NewReno(true), 1).(lastAck := 1) == NewReno(true).(cwnd := 1001, lastAck := 1)
    ensures OnDupAck(OnDupAck(OnDupAck(NewReno(true).(cwnd := 1001, lastAck := 1)))) == RECOVERING
    ensures OnNewAck(RECOVERING, 1000).cwnd == 2500
  {
  }

  /** The case of a lost segment of 1000 bytes after the handshake: three duplicates, then
      the acknowledgment. The window ends at 2500, above the threshold of 2000. */
  lemma RecoveryExitReached(capacity: nat, rto: u16, isn: u32, data: seq<byte>)
    returns (h: SenderHistory.History, ackno: u32)
    requires |data| == MAX_PAYLOAD_SIZE <= capacity
    ensures SenderHistory.Reached(SenderHistory.Start(capacity, rto, isn, true), h) && SenderInv(h.s)
    ensures h.s.reno.inRecovery && h.s.reno.ssthresh == 2000
    ensures SenderHistory.StepSender(h.s, SenderHistory.OpAck(ackno, 5000)).reno.cwnd == 2500
  {
    hide SenderInv, Wrap, ReceiveAck, OnNewAck, OnDupAck, SenderHistory.Reached, SenderHistory.Start;
    var from := SenderHistory.Start(capacity, rto, isn, true);
    var r := NewReno(true).(cwnd := 1001, lastAck := 1);
    Numbers();
    h := OneSegmentOut(capacity, rto, isn, data);
    h := DupStep(from, h, data, r);
    h := DupStep(from, h, data, OnDupAck(r)) by { StillEnabled(r); }
    h := DupStep(from, h, data, OnDupAck(OnDupAck(r))) by { StillEnabled(r); StillEnabled(OnDupAck(r)); }
    ackno := Wrap(1 + |data|, h.s.isn);
    IdleAck(h.s, data, 1, RECOVERING, 1 + |data|, 5000);
  }

  lemma StillEnabled(r: Reno)
    ensures OnDupAck(r).enabled == r.enabled && OnDupAck(r).lastAck == r.lastAck
  {
  }

  lemma DupStep(from: SenderHistory.History, h: SenderHistory.History, data: seq<byte>, r: Reno)
    returns (h': SenderHistory.History)
    requires SenderHistory.Reached(from, h) && Idle(h.s, data, 1, r) && r.enabled && r.lastAck == 1
    requires 1 <= |data| < TWO_31 - 1
    ensures SenderHistory.Reached(from, h') && Idle(h'.s, data, 1, OnDupAck(r))
  {
    hide SeqInv, TimerInv, Wrap, ReceiveAck, OnDupAck, SenderHistory.Reached, SenderHistory.FirstSent;
    var op := SenderHistory.OpAck(Wrap(1, h.s.isn), 5000);
    IdleAck(h.s, data, 1, r, 1, 5000);
    SenderHistory.ReachedStep(from, h, op);
    h' := SenderHistory.Step(h, op);
  }

  /** The handshake, and one full segment on its way. */
  lemma OneSegmentOut(capacity: nat, rto: u16, isn: u32, data: seq<byte>) returns (h: SenderHistory.History)
    requires |data| == MAX_PAYLOAD_SIZE <= capacity
    ensures SenderHistory.Reached(SenderHistory.Start(capacity, rto, isn, true), h)
    ensures Idle(h.s, data, 1, NewReno(true).(cwnd := 1001, lastAck := 1)) && h.s.isn == isn
  {
    var from := SenderHistory.Start(capacity, rto, isn, true);
    SenderHistory.ReachedStart(from);
    FirstFillIsIdle(from.s);
    var r := NewReno(true);
    Numbers();
    hide SenderInv, Wrap, ReceiveAck, Fill, SenderHistory.Reached, SenderHistory.FirstSent, SenderHistory.Inv, OnNewAck;
    SenderHistory.ReachedStep(from, from, SenderHistory.OpFill);
    h := SenderHistory.Step(from, SenderHistory.OpFill);
    var op := SenderHistory.OpAck(Wrap(1, isn), 5000);
    SameSettings(from.s);
    IdleAck(h.s, [], 0, r, 1, 5000);
    AckSettings(h.s, Wrap(1, isn));
    SenderHistory.ReachedStep(from, h, op);
    h := SenderHistory.Step(h, op);
    IdleWrite(h.s, r.(cwnd := 1001, lastAck := 1), data);
    SenderHistory.ReachedStep(from, h, SenderHistory.OpWrite(data));
    h := SenderHistory.Step(h, SenderHistory.OpWrite(data));
    SenderHistory.ReachedStep(from, h, SenderHistory.OpFill);
    h := SenderHistory.Step(h, SenderHistory.OpFill);
  }

  lemma SameSettings(s: Sender)
    requires SenderInv(s)
    ensures Fill(s).isn == s.isn && Fill(s).stream.capacity == s.stream.capacity
  {
    FillKeeps(s, EffectiveWindow(s));
  }

  lemma AckSettings(s: Sender, ackno: u32)
    requires SenderInv(s)
    ensures ReceiveAck(s, ackno, 5000).stream.capacity == s.stream.capacity
  {
    AckKeeps(s, ackno, 5000);
  }

  // ---------- Writing too late ----------

  /** A stream ended before anything was sent: once the SYN is acknowledged the FIN goes out,
      and the stream still takes bytes. */
  lemma TooLateReached(capacity: nat, rto: u16, isn: u32, congestionControl: bool, data: seq<byte>)
    returns (h: SenderHistory.History)
    requires capacity > 0 && data != []
    ensures SenderHistory.Reached(SenderHistory.Start(capacity, rto, isn, congestionControl), h) && SenderInv(h.s)
    ensures TooLate(h.s, data) && !SenderInv(WriteStream(h.s, data))
  {
    var from := SenderHistory.Start(capacity, rto, isn, congestionControl);
    SenderHistory.ReachedStart(from);
    EndKeeps(from.s);
    var s1 := EndStream(from.s);
    FirstFill(s1);
    var s2 := Fill(s1);
    var ackno := Wrap(1, isn);
    AckSendsFin(s2, ackno) by { SameSettings(s1); }
    hide SenderInv, Wrap, ReceiveAck, Fill, SenderHistory.Reached, SenderHistory.FirstSent, SenderHistory.Inv;
    SenderHistory.ReachedStep(from, from, SenderHistory.OpEnd);
    h := SenderHistory.Step(from, SenderHistory.OpEnd);
    SenderHistory.ReachedStep(from, h, SenderHistory.OpFill);
    h := SenderHistory.Step(h, SenderHistory.OpFill);
    SenderHistory.ReachedStep(from, h, SenderHistory.OpAck(ackno, 10));
    h := SenderHistory.Step(h, SenderHistory.OpAck(ackno, 10));
    WriteIsSoundUnlessTooLate(h.s, data);
  }

  lemma AckSendsFin(s: Sender, ackno: u32)
    requires SenderInv(s) && s.stream.all == [] && s.stream.ended && s.synSent && s.next == 1
    requires ackno == Wrap(1, s.isn)
    ensures var s' := ReceiveAck(s, ackno, 10); SenderInv(s') && s'.finSent && s'.stream.all == []
    ensures ReceiveAck(s, ackno, 10).stream.capacity == s.stream.capacity
  {
    UnwrapInvertsWrap(1, s.isn, s.next);
    AckKeeps(s, ackno, 10);
    AcknowledgeKeeps(s, 1, 10);
    var s1 := Acknowledge(s, 1, 10);
    FillKeeps(s1, EffectiveWindow(s1));
    FillUsesWindow(s1, EffectiveWindow(s1));
  }

  // ---------- A segment without an answer ----------

  /** After connecting and sending its SYN, endpoint `a` waits. */
  ghost predicate SynOut(x: Conn) {
    && x.active && x.tx.synSent && x.tx.next == 1 && x.tx.inFlight == 1 && !x.tx.finSent
    && x.tx.stream.all == [] && !x.tx.stream.ended && x.rx.isn.None? && x.tx.retx == 0 && x.tx.reno.dupAcks == 0
  }

  lemma FirstConnect(w: World) returns (w': World)
    requires WorldInv(w) && w.a.active && !w.a.tx.synSent && w.a.tx.stream.all == [] && !w.a.tx.stream.ended
    requires w.a.tx.window == 1 && w.a.rx.isn.None? && w.a.tx.retx == 0 && w.a.tx.reno.dupAcks == 0
    ensures Reaches(w, w') && WorldInv(w') && SynOut(w'.a) && w'.a.out == [] && w'.b == w.b && w'.fromB == w.fromB
  {
    var connect, send := Action(true, OpConnect), Action(true, OpTransmit);
    Basics(w);
    StepKeepsWorld(w, connect);
    var w1 := TwoEndpoints.Step(w, connect).1;
    assert SynOut(w1.a) by {
      FirstFill(w.a.tx);
      FillKeeps(w.a.tx, EffectiveWindow(w.a.tx));
    }
    hide WorldInv, Inv, SenderInv, Connect;
    Basics(w1);
    StepKeepsWorld(w1, send);
    w' := TwoEndpoints.Step(w1, send).1;
    QuietFacts(w1, OpTransmit);
    Basics(w');
    ReachSelf(w');
    ReachStep(w1, send, w', w');
    ReachStep(w, connect, w1, w');
  }

  /** The peer answers the SYN with its own, and transmits it. */
  lemma PeerAnswers(w: World) returns (w': World, p: Packet)
    requires WorldInv(w) && SynOut(w.a) && !Failed(w.a) && w.a.out == []
    requires w.b.active && w.b.out == [] && w.fromB == {} && w.b.tx.stream.all == []
    requires w.b.rx.isn.None? && w.b.tx.outstanding == [] && !w.b.tx.synSent
    ensures Reaches(w, w') && WorldInv(w') && w'.a == w.a && w'.b.tx.stream.all == []
    ensures p in w'.fromB && p.seg.header.ack && p.seg.header.syn && !p.seg.header.rst && Length(p.seg) > 0
  {
    Basics(w);
    HeadOut(w.a.tx);
    var syn := OldCopy(w);
    var deliver, send := Action(false, OpDeliver(syn)), Action(false, OpTransmit);
    SynFits(w, syn);
    ShortStreamsAreFresh(Swap(w), syn);
    StepKeepsWorld(w, deliver);
    var w1 := TwoEndpoints.Step(w, deliver).1;
    OldestIsAcknowledged(Swap(w), syn);
    DeliverFacts(Swap(w), syn);
    assert syn.seg.header.syn && syn.abs == 0;
    p := AnswerIsSyn(w, syn);
    hide WorldInv, Inv, SenderInv, StepAtA;
    Basics(w1);
    StepKeepsWorld(w1, send);
    QuietFacts(Swap(w1), OpTransmit);
    w' := TwoEndpoints.Step(w1, send).1;
    Basics(w');
    ReachSelf(w');
    ReachStep(w1, send, w', w');
    ReachStep(w, deliver, w1, w');
  }

  lemma HeadOut(s: Sender)
    requires SenderInv(s) && s.next == 1 && s.inFlight == 1
    ensures s.outstanding != [] && s.outstanding[0].abs == 0 && s.outstanding[0].seg.header.syn
  {
    ChainLength(s.outstanding, 0, 1);
    assert Carries(s, s.outstanding[0]);
  }

  lemma SynFits(w: World, syn: Packet)
    requires Inv(w) && SynOut(w.a) && w.a.tx.outstanding != [] && Copy(syn, w.a.tx.outstanding[0])
    ensures CoversOldest(w.a.tx, syn) && Fits(w.b.rx, syn)
  {
    assert Carries(w.a.tx, w.a.tx.outstanding[0]);
  }

  /** An endpoint that has sent nothing connects when it gets a SYN. */
  lemma SynConnects(w: World, syn: Packet)
    requires Inv(w) && SynOut(w.a) && w.b.active && w.b.rx.isn.None? && !w.b.tx.synSent
    requires LegalAtA(Swap(w), OpDeliver(syn)) && syn.seg.header.syn && !syn.seg.header.rst && syn.abs == 0
    ensures var x := w.b.(sinceLast := 0, rx := Receive(w.b.rx, syn.seg).1);
            && RenoInv(w.b.tx) && SenderInv(w.b.tx) && FlagsOk(x) && x.rx.isn.Some?
            && StepAtA(Swap(w), OpDeliver(syn)).1.a == Connect(x)
  {
    DeliverUnfolds(Swap(w), syn);
    ReceivedFlags(Swap(w), syn);
    SentIsOk(w.a, w.fromA, syn);
    hide Receive, StepAtA, Connect, SeqInv, TimerInv, Carries, Reassembly.Agrees;
    LinkReceive(w.a.tx, w.b.rx, syn);
    var rx := Receive(w.b.rx, syn.seg).1;
    LinkBounds(w.a.tx, rx);
    assert rx.isn.Some? by { SynSetsIsn(w.b.rx, syn.seg); }
    if !w.b.tx.stream.error { UnsentIsClosed(w.b.tx); }
  }

  lemma SynSetsIsn(r: Receiver, seg: Segment)
    requires seg.header.syn
    ensures Receive(r, seg).1.isn.Some?
  {
  }

  lemma UnsentIsClosed(s: Sender)
    requires SenderInv(s) && !s.synSent && !s.stream.error
    ensures SummarizeSender(s) == Closed
  {
    SummaryMeaning(s);
  }

  /** What it then queues is its own SYN, with an acknowledgment. */
  lemma AnswerIsSyn(w: World, syn: Packet) returns (p: Packet)
    requires WorldInv(w) && SynOut(w.a) && w.b.active && w.b.rx.isn.None? && !w.b.tx.synSent
    requires w.b.out == [] && w.fromB == {}
    requires LegalAtA(Swap(w), OpDeliver(syn)) && syn.seg.header.syn && !syn.seg.header.rst && syn.abs == 0
    ensures RenoInv(w.b.tx) && p in StepAtA(Swap(w), OpDeliver(syn)).1.a.out
    ensures p.seg.header.ack && p.seg.header.syn && !p.seg.header.rst && Length(p.seg) > 0
  {
    var x := w.b.(sinceLast := 0, rx := Receive(w.b.rx, syn.seg).1);
    SynConnects(w, syn);
    assert LinkInv(w.b.tx, w.a.rx) && Settled(w.b) && w.b.tx.out == [];
    hide WorldInv, Inv, StepAtA, Receive, FlagsOk;
    ConnectEvolves(x);
    p := FirstQueued(x);
    assert NewPacket(Connect(x), p);
  }

  lemma FirstQueued(x: Conn) returns (p: Packet)
    requires SenderInv(x.tx) && !x.tx.synSent && x.tx.out == [] && x.out == []
    ensures p in Connect(x).out && p.seg.header.syn && !p.seg.header.rst && Length(p.seg) > 0
  {
    FirstFillSends(x.tx);
    FillSendsNext(x.tx, EffectiveWindow(x.tx));
    FillKeepsAll(x.tx);
    var s := Fill(x.tx);
    NothingOutstanding(x.tx);
    assert s.out == s.outstanding;
    HeadStartsAtUnacked(s);
    assert Carries(s, s.out[0]);
    p := Stamp(x.rx, s.out[0]);
    assert StampAll(x.rx, s.out)[0] == p;
    assert Connect(x).out == StampAll(x.rx, s.out);
  }

  /** A reachable state, for any settings: endpoint `a` has sent its SYN again but not yet
      handed it over when the peer's SYN arrives. It queues no answer to it, and nothing in
      its queue acknowledges anything. */
  lemma UnansweredReached(a: Config, b: Config) returns (w: World, p: Packet)
    requires a.recvCapacity > 0 && b.recvCapacity > 0
    ensures Reaches(Start(a, b), w) && Inv(w) && LegalAtA(w, OpDeliver(p))
    ensures Length(p.seg) > 0 && p.seg.header.ack && !p.seg.header.rst
    ensures SegmentReceived(w.a, p.seg).0 == Reassembly.Ok && SegmentReceived(w.a, p.seg).1.out == w.a.out
    ensures forall q :: q in w.a.out ==> !q.seg.header.ack
  {
    var w0 := Start(a, b);
    StartWorld(a, b);
    var w1 := FirstConnect(w0);
    var w2: World;
    w2, p := PeerAnswers(w1);
    w := ResentSyn(w2);
    hide WorldInv, Inv, Start;
    ReachTrans(w1, w2, w);
    ReachTrans(w0, w1, w);
    NoAnswer(w, p);
  }

  lemma ResentSyn(w: World) returns (w': World)
    requires WorldInv(w) && SynOut(w.a)
    ensures Reaches(w, w') && WorldInv(w') && w'.a.out != [] && w'.b == w.b && w'.fromB == w.fromB
    ensures w'.a.tx.synSent && w'.a.tx.next == 1 && !w'.a.tx.finSent && w'.a.tx.stream == w.a.tx.stream
    ensures w'.a.rx == w.a.rx && w'.a.tx.reno.dupAcks == 0
  {
    hide WorldInv, Inv, SenderInv, TickConn, Settled;
    Basics(w);
    SynResent(w.a);
    var tick := Action(true, TwoEndpoints.OpTick(TimeLeft(w.a.tx.timer)));
    StepKeepsWorld(w, tick);
    w' := TwoEndpoints.Step(w, tick).1;
    Basics(w');
    ReachSelf(w');
    ReachStep(w, tick, w', w');
  }

  /** The time until the timer expires. */
  function TimeLeft(t: Timer): nat { if t.count >= t.timeout then 0 else t.timeout - t.count }

  /** A tick that long sends the oldest segment again with the acknowledgment of the moment. */
  lemma TickResends(c: Conn)
    requires SenderInv(c.tx) && Settled(c) && c.tx.outstanding != [] && c.tx.retx < MAX_RETX_ATTEMPTS
    ensures var c' := TickConn(c, TimeLeft(c.tx.timer));
            && c'.rx == c.rx && c'.active == c.active && c'.tx.stream == c.tx.stream
            && c'.tx.outstanding == c.tx.outstanding && c'.tx.next == c.tx.next && c'.tx.inFlight == c.tx.inFlight
            && Stamp(c.rx, c.tx.outstanding[0]) in c'.out
  {
    var ms, t := TimeLeft(c.tx.timer), c.tx.outstanding[0];
    var tx := Tick(c.tx, ms);
    SenderResends(c.tx);
    TickKeeps(c.tx, ms);
    HeadStartsAtUnacked(c.tx);
    hide SenderInv, Stamp, Tick, BothDone;
    var c1 := c.(sinceLast := c.sinceLast + ms, tx := tx);
    FlushedSummary(Flush(c1)) by { FlushEvolves(c1); }
    assert StampAll(c.rx, [t]) == [Stamp(c.rx, t)];
    assert Flush(c1).out == c.out + [Stamp(c.rx, t)];
  }

  lemma SenderResends(s: Sender)
    requires SenderInv(s) && s.outstanding != [] && s.out == [] && s.retx < MAX_RETX_ATTEMPTS
    ensures var s' := Tick(s, TimeLeft(s.timer));
            && s' == s.(timer := s'.timer, reno := s'.reno, retx := s'.retx, out := [s.outstanding[0]])
            && s'.retx <= MAX_RETX_ATTEMPTS
  {
    hide SeqInv, OnTimeout;
  }

  /** When its timer expires, the endpoint queues its SYN again. */
  lemma SynResent(c: Conn)
    requires SenderInv(c.tx) && Settled(c) && SynOut(c)
    ensures var c' := TickConn(c, TimeLeft(c.tx.timer));
            && c'.out != [] && c'.rx == c.rx && c'.tx.stream == c.tx.stream
            && c'.tx.synSent && c'.tx.next == 1 && !c'.tx.finSent && c'.tx.reno.dupAcks == 0
  {
    hide SenderInv, Settled, TickConn, Stamp;
    HeadOut(c.tx);
    TickResends(c);
    TickFlags(c, TimeLeft(c.tx.timer));
  }

  lemma TickFlags(c: Conn, ms: nat)
    requires c.tx.reno.dupAcks == 0
    ensures var s := TickConn(c, ms).tx; s.synSent == c.tx.synSent && s.finSent == c.tx.finSent && s.reno.dupAcks == 0
  {
    hide StampAll, BothDone;
  }

  lemma NoAnswer(w: World, p: Packet)
    requires WorldInv(w) && p in w.fromB && w.a.out != [] && w.b.tx.stream.all == []
    requires w.a.tx.synSent && w.a.tx.next == 1 && !w.a.tx.finSent && w.a.tx.stream.all == [] && !w.a.tx.stream.ended
    requires w.a.rx.isn.None? && w.a.tx.reno.dupAcks == 0
    requires p.seg.header.ack && p.seg.header.syn && !p.seg.header.rst && Length(p.seg) > 0
    ensures Inv(w) && LegalAtA(w, OpDeliver(p)) && SenderInv(w.a.tx)
    ensures SegmentReceived(w.a, p.seg).0 == Reassembly.Ok && SegmentReceived(w.a, p.seg).1.out == w.a.out
    ensures forall q :: q in w.a.out ==> !q.seg.header.ack
  {
    Basics(w);
    ShortStreamsAreFresh(w, p);
    DeliverUnfolds(w, p);
    UnansweredSegment(w.a, p.seg);
    forall q | q in w.a.out ensures !q.seg.header.ack { assert PacketOk(w.a.tx, w.a.rx, q); }
    hide WorldInv, Inv, SenderInv, Unwrap, Acknowledge, Receive, Respond, TakeAck;
    assert !HasMore(w.a.tx);
  }
}
