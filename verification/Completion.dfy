/** From every reachable state in which it has not failed, a finished stream can still be
    delivered and acknowledged whole, and two finished streams be closed on both sides. */
module Completion {
  import opened WrappingIntegers
  import opened ByteStreams
  import Reassembly
  import opened TcpSegments
  import opened Receivers
  import opened SenderModel
  import opened SenderInvariants
  import opened SenderRuns
  import opened ConnectionModel
  import opened Links
  import opened Endpoints
  import opened TwoEndpoints
  import opened Recency
  import opened NetworkCopies
  import opened Progress

  // ---------- Reachability ----------

  ghost predicate Reaches(w: World, w': World) {
    Inv(w) && exists actions :: LegalRun(w, actions) && TwoEndpoints.Run(w, actions) == w'
  }

  lemma ReachSelf(w: World)
    requires Inv(w)
    ensures Reaches(w, w)
  {
    hide Inv;
    var none: seq<Action> := [];
    assert LegalRun(w, none) && TwoEndpoints.Run(w, none) == w;
  }

  lemma ReachStep(w: World, action: Action, w1: World, w': World)
    requires Inv(w) && Legal(w, action) && w1 == TwoEndpoints.Step(w, action).1 && Reaches(w1, w')
    ensures Reaches(w, w')
  {
    hide TwoEndpoints.Step, Legal, FlagsOk, PacketsOk, Passive;
    StepKeepsInv(w, action);
    var rest :| LegalRun(w1, rest) && TwoEndpoints.Run(w1, rest) == w';
    var actions := [action] + rest;
    assert actions[1..] == rest;
    assert LegalRun(w, actions) && TwoEndpoints.Run(w, actions) == w';
  }

  /** The same seen from the other endpoint. */
  function Flip(actions: seq<Action>): seq<Action> {
    if actions == [] then [] else [Action(!actions[0].atA, actions[0].op)] + Flip(actions[1..])
  }

  lemma {:induction false} RunFlipped(w: World, actions: seq<Action>)
    requires Inv(w) && LegalRun(w, actions)
    ensures Inv(Swap(w)) && LegalRun(Swap(w), Flip(actions))
    ensures TwoEndpoints.Run(Swap(w), Flip(actions)) == Swap(TwoEndpoints.Run(w, actions))
    decreases |actions|
  {
    hide StepAtA, LegalAtA, FlagsOk, PacketsOk, Passive;
    if actions != [] {
      StepKeepsInv(w, actions[0]);
      RunFlipped(TwoEndpoints.Step(w, actions[0]).1, actions[1..]);
      assert Flip(actions)[1..] == Flip(actions[1..]);
    }
  }

  lemma ReachSwapped(w: World, w': World)
    requires Reaches(Swap(w), Swap(w'))
    ensures Reaches(w, w')
  {
    hide Half, TwoEndpoints.Step, Legal;
    var actions :| LegalRun(Swap(w), actions) && TwoEndpoints.Run(Swap(w), actions) == Swap(w');
    RunFlipped(Swap(w), actions);
    assert Swap(Swap(w)) == w && Swap(Swap(w')) == w';
  }

  lemma ReachTrans(w: World, w1: World, w2: World)
    requires Reaches(w, w1) && Reaches(w1, w2)
    ensures Reaches(w, w2)
  {
    hide Inv, TwoEndpoints.Step, Legal;
    var first :| LegalRun(w, first) && TwoEndpoints.Run(w, first) == w1;
    ReachAfter(w, first, w2);
  }

  lemma {:induction false} ReachAfter(w: World, first: seq<Action>, w2: World)
    requires Inv(w) && LegalRun(w, first) && Reaches(TwoEndpoints.Run(w, first), w2)
    ensures Reaches(w, w2)
    decreases |first|
  {
    hide TwoEndpoints.Step, Legal, FlagsOk, PacketsOk, Passive;
    if first != [] {
      StepKeepsInv(w, first[0]);
      var w1 := TwoEndpoints.Step(w, first[0]).1;
      ReachAfter(w1, first[1..], w2);
      ReachStep(w, first[0], w1, w2);
    }
  }

  // ---------- What a schedule keeps ----------

  /** Neither endpoint has failed, and one that is gone has left nothing to be acknowledged. */
  ghost predicate Going(w: World) {
    && WorldInv(w) && !Failed(w.a) && !Failed(w.b)
    && (w.a.active || AllAcked(w.b.tx)) && (w.b.active || AllAcked(w.a.tx))
  }

  /** The streams stay as they are, and neither has more left to be acknowledged. */
  ghost predicate Onward(w: World, w': World) {
    && w'.a.tx.stream.all == w.a.tx.stream.all && (w.a.tx.stream.ended ==> w'.a.tx.stream.ended)
    && w'.b.tx.stream.all == w.b.tx.stream.all && (w.b.tx.stream.ended ==> w'.b.tx.stream.ended)
    && Unacked(w.a.tx) <= Unacked(w'.a.tx) && Unacked(w.b.tx) <= Unacked(w'.b.tx)
  }

  lemma Basics(w: World)
    requires WorldInv(w)
    ensures Inv(w) && SenderInv(w.a.tx) && SenderInv(w.b.tx) && RenoInv(w.a.tx) && RenoInv(w.b.tx)
    ensures Settled(w.a) && Settled(w.b) && w.a.tx.inFlight <= MAX_WINDOW && w.b.tx.inFlight <= MAX_WINDOW
    ensures Remaining(w.a.tx) >= 0 && Remaining(w.b.tx) >= 0
    ensures w.a.active ==> !Failed(w.a)
    ensures w.b.active ==> !Failed(w.b)
    ensures !w.a.active && !Failed(w.a) ==> AllAcked(w.a.tx)
  {
    hide Copies, Timely, Reassembly.Agrees, PacketsOk, Passive, Chain, Carries;
  }

  lemma DeliverFacts(w: World, p: Packet)
    requires Inv(w) && LegalAtA(w, OpDeliver(p)) && !p.seg.header.rst
    ensures var w' := StepAtA(w, OpDeliver(p)).1;
            && w' == w.(a := w'.a) && Inv(w') && Onward(w, w')
            && Failed(w'.a) == Failed(w.a)
            && (AllAcked(w.a.tx) ==> AllAcked(w'.a.tx))
  {
    DeliverKeepsInv(w, p);
    hide Inv, StepAtA, Respond, TakeAck, Receive, SeqInv, TimerInv;
    var x := w.a.(sinceLast := 0);
    DeliverUnfolds(w, p);
    ReceivedFlags(w, p);
    var x1 := x.(rx := Receive(x.rx, p.seg).1);
    var x2 := TakeAck(x1, p.seg);
    TakeAckEvolves(x1, p.seg);
    RespondEvolves(x2, p.seg);
    if AllAcked(w.a.tx) {
      AllAckedStays(x1.tx, x2.tx);
      AllAckedStays(x2.tx, Respond(x2, p.seg).tx);
    }
  }

  /** Transmitting and reading change neither stream. */
  lemma QuietFacts(w: World, op: TwoEndpoints.Op)
    requires Inv(w) && (op.OpTransmit? || op.OpRead?)
    ensures LegalAtA(w, op)
    ensures var w' := StepAtA(w, op).1;
            && w'.a.tx == w.a.tx && w'.a.active == w.a.active && w'.b == w.b && w'.fromB == w.fromB
            && w.fromA <= w'.fromA
            && w'.a.rx.Out().capacity == w.a.rx.Out().capacity
            && (op.OpTransmit? ==> w'.a.out == [] && w'.a.rx == w.a.rx && forall p :: p in w.a.out ==> p in w'.fromA)
            && (op.OpRead? ==> w'.a.out == w.a.out
                               && w'.a.rx == w.a.rx.(reassembler := Reassembly.ReadOut(w.a.rx.reassembler, op.n)))
  {
  }

  lemma QuietStep(w: World, action: Action) returns (w': World)
    requires Going(w) && (action.op.OpTransmit? || action.op.OpRead?)
    ensures Legal(w, action) && RenoInv(w.a.tx) && RenoInv(w.b.tx) && w' == TwoEndpoints.Step(w, action).1
    ensures Going(w') && Reaches(w, w') && w'.a.tx == w.a.tx && w'.b.tx == w.b.tx
  {
    hide WorldInv, Inv, StepAtA, SenderInv, Settled;
    Basics(w);
    StepKeepsWorld(w, action);
    w' := TwoEndpoints.Step(w, action).1;
    if action.atA { QuietFacts(w, action.op); } else { SwapInv(w); QuietFacts(Swap(w), action.op); }
    Basics(w');
    ReachSelf(w');
    ReachStep(w, action, w', w');
  }

  lemma SwapInv(w: World)
    requires Inv(w)
    ensures Inv(Swap(w))
  {
    hide Half;
  }

  // ---------- One round ----------

  /** After reading everything, a copy of the oldest outstanding segment fits. */
  lemma OldestFits(s: Sender, r: Receiver, p: Packet)
    requires LinkInv(s, r) && s.outstanding != [] && Copy(p, s.outstanding[0]) && s.inFlight <= MAX_WINDOW
    requires |p.seg.payload| <= r.Out().capacity && r.Out().read == |r.Out().all|
    ensures CoversOldest(s, p) && Fits(r, p) && FreshSeq(r, p)
  {
    HeadStartsAtUnacked(s);
    LinkBounds(s, r);
    assert Carries(s, s.outstanding[0]);
    RecentSeqIsFresh(s, r, p);
  }

  /** The acknowledgment way back. */
  lemma AckRound(w: World, q: Packet) returns (w': World)
    requires Going(w) && w.a.tx.outstanding != []
    requires q in w.b.out && IsAck(q) && TwoEndpoints.Fresh(w.a, q) && q.absAck >= w.a.tx.outstanding[0].End()
    ensures Reaches(w, w') && Going(w') && Onward(w, w') && Remaining(w'.a.tx) < Remaining(w.a.tx)
  {
    hide WorldInv, Inv, StepAtA, SenderInv, Settled, CoversOldest, Harmless;
    var w1 := QuietStep(w, Action(false, OpTransmit));
    Basics(w);
    SwapInv(w);
    QuietFacts(Swap(w), OpTransmit);
    Basics(w1);
    var deliver := Action(true, OpDeliver(q));
    FreshIsHarmless(w1, q);
    StepKeepsWorld(w1, deliver);
    w' := TwoEndpoints.Step(w1, deliver).1;
    DeliverFacts(w1, q);
    OldestIsReleased(w1, q);
    if w1.a.active && !w'.a.active { PassiveCloseIsSafe(w1, q); }
    ReachSelf(w');
    ReachStep(w1, deliver, w', w');
    ReachTrans(w, w1, w');
  }

  /** Endpoint `b`, with its queue drained and its input read, gets the oldest segment. */
  lemma DataRound(w: World, p: Packet) returns (w': World)
    requires Going(w) && w.b.out == [] && p in w.fromA && w.a.tx.outstanding != [] && !p.seg.header.rst
    requires CoversOldest(w.a.tx, p) && Fits(w.b.rx, p) && FreshSeq(w.b.rx, p) && AckHarmless(w.b.tx, w.a.rx, p)
    ensures Reaches(w, w') && Going(w') && Onward(w, w') && Remaining(w'.a.tx) < Remaining(w.a.tx)
  {
    hide WorldInv, Inv, StepAtA, SenderInv, Settled, AckHarmless;
    Basics(w);
    NotYetAcked(w.a.tx);
    var deliver := Action(false, OpDeliver(p));
    StepKeepsWorld(w, deliver);
    var w1 := TwoEndpoints.Step(w, deliver).1;
    SwapInv(w);
    DeliverFacts(Swap(w), p);
    OldestIsAcknowledged(Swap(w), p);
    var q :| q in w1.b.out && IsAck(q) && q.absAck >= w.a.tx.outstanding[0].End();
    AnswersAreFresh(Swap(w), p, q);
    w' := AckRound(w1, q);
    ReachStep(w, deliver, w1, w');
  }

  lemma NotYetAcked(s: Sender)
    requires SenderInv(s) && s.outstanding != []
    ensures !AllAcked(s)
  {
    HeadStartsAtUnacked(s);
  }

  /** Everything queued goes out, endpoint `b` reads its input, and a copy of the oldest
      segment of `a` arrives. */
  lemma OneRound(w: World, p: Packet) returns (w': World)
    requires Going(w) && w.a.tx.outstanding != []
    requires (p in w.fromA || p in w.a.out) && Copy(p, w.a.tx.outstanding[0]) && AckHarmless(w.b.tx, w.a.rx, p)
    ensures Reaches(w, w') && Going(w') && Onward(w, w') && Remaining(w'.a.tx) < Remaining(w.a.tx)
  {
    PayloadFits(w, p);
    hide WorldInv, Inv, StepAtA, SenderInv, Settled, AckHarmless, CoversOldest, Fits;
    Basics(w);
    var w1 := QuietStep(w, Action(true, OpTransmit));
    QuietFacts(w, OpTransmit);
    Basics(w1);
    SwapInv(w1);
    var w2 := QuietStep(w1, Action(false, OpTransmit));
    QuietFacts(Swap(w1), OpTransmit);
    Basics(w2);
    SwapInv(w2);
    var read := TwoEndpoints.OpRead(Buffered(w2.b.rx.Out()));
    var w3 := QuietStep(w2, Action(false, read));
    QuietFacts(Swap(w2), read);
    Basics(w3);
    assert LinkInv(w3.a.tx, w3.b.rx) by { LinkOf(w3); }
    OldestFits(w3.a.tx, w3.b.rx, p);
    w' := DataRound(w3, p);
    ReachTrans(w2, w3, w');
    ReachTrans(w1, w2, w');
    ReachTrans(w, w1, w');
  }

  lemma LinkOf(w: World)
    requires Inv(w)
    ensures LinkInv(w.a.tx, w.b.rx) && LinkInv(w.b.tx, w.a.rx)
  {
    hide LinkInv, FlagsOk, PacketsOk, Passive;
  }

  lemma PayloadFits(w: World, p: Packet)
    requires WorldInv(w) && !Failed(w.a) && w.a.tx.outstanding != [] && Copy(p, w.a.tx.outstanding[0])
    ensures |p.seg.payload| <= Cap(w.b)
  {
    hide Inv, BothSettled, Timely;
    assert HasCopy(w.a, w.fromA, w.a.tx.outstanding[0]);
  }

  // ---------- One of the two directions can always move ----------

  lemma OldCopy(w: World) returns (p: Packet)
    requires WorldInv(w) && !Failed(w.a) && w.a.tx.outstanding != []
    ensures (p in w.fromA || p in w.a.out) && Copy(p, w.a.tx.outstanding[0])
  {
    hide Inv, BothSettled, Timely;
    assert HasCopy(w.a, w.fromA, w.a.tx.outstanding[0]);
    p :| (p in w.fromA || p in w.a.out) && Copy(p, w.a.tx.outstanding[0]);
  }

  /** When `b` has nothing in flight, no acknowledgment can make it release too much. */
  lemma NothingToMisread(w: World, p: Packet)
    requires Inv(w) && w.b.tx.outstanding == []
    ensures AckHarmless(w.b.tx, w.a.rx, p)
  {
    hide Unwrap;
    ChainLength(w.b.tx.outstanding, Unacked(w.b.tx), w.b.tx.next);
  }

  /** A copy that acknowledges all but the last window is read correctly. */
  lemma RecentCopyIsHarmless(w: World, p: Packet)
    requires Inv(w) && (p in w.fromA || p in w.a.out) && w.b.tx.inFlight <= MAX_WINDOW
    requires p.seg.header.ack ==> p.absAck >= Unacked(w.b.tx) - MAX_WINDOW
    ensures AckHarmless(w.b.tx, w.a.rx, p)
  {
    hide SenderInv, Reassembly.Agrees, Carries, Unwrap, FlagsOk, Passive;
    assert PacketOk(w.a.tx, w.a.rx, p);
    LinkBounds(w.b.tx, w.a.rx);
    if p.seg.header.ack { AckDecodes(w.b, w.a, p); }
  }

  /** A copy of the oldest segment of one side that the other side reads without harm. */
  lemma UsableCopy(w: World) returns (atA: bool, p: Packet)
    requires Going(w) && w.a.tx.outstanding != []
    ensures var v := if atA then w else Swap(w);
            && v.a.tx.outstanding != [] && (p in v.fromA || p in v.a.out) && Copy(p, v.a.tx.outstanding[0])
            && AckHarmless(v.b.tx, v.a.rx, p)
  {
    Basics(w);
    if w.b.tx.outstanding == [] {
      atA := true;
      p := OldCopy(w);
      NothingToMisread(w, p);
    } else {
      var t, u := w.a.tx.outstanding[0], w.b.tx.outstanding[0];
      HeadStartsAtUnacked(w.a.tx);
      HeadStartsAtUnacked(w.b.tx);
      SwapInv(w);
      assert CopySince(w.a, w.fromA, t, u.abs - MAX_WINDOW) || CopySince(w.b, w.fromB, u, t.abs - MAX_WINDOW);
      hide WorldInv, Inv, SenderInv, Settled, AckHarmless;
      if CopySince(w.a, w.fromA, t, u.abs - MAX_WINDOW) {
        atA := true;
        p :| (p in w.fromA || p in w.a.out) && Copy(p, t) && (p.seg.header.ack ==> p.absAck >= u.abs - MAX_WINDOW);
        RecentCopyIsHarmless(w, p);
      } else {
        atA := false;
        p :| (p in w.fromB || p in w.b.out) && Copy(p, u) && (p.seg.header.ack ==> p.absAck >= t.abs - MAX_WINDOW);
        RecentCopyIsHarmless(Swap(w), p);
      }
    }
  }

  lemma Advance(w: World) returns (w': World)
    requires Going(w) && w.a.tx.outstanding != []
    ensures Reaches(w, w') && Going(w') && Onward(w, w')
    ensures 0 <= Remaining(w'.a.tx) + Remaining(w'.b.tx) < Remaining(w.a.tx) + Remaining(w.b.tx)
  {
    var atA, p := UsableCopy(w);
    hide WorldInv, AckHarmless, Reaches, Inv, Settled, SenderInv, Copy;
    if atA {
      w' := OneRound(w, p);
    } else {
      w' := OtherRound(w, p);
    }
    Basics(w');
  }

  lemma OtherRound(w: World, p: Packet) returns (w': World)
    requires Going(w) && w.b.tx.outstanding != []
    requires (p in w.fromB || p in w.b.out) && Copy(p, w.b.tx.outstanding[0]) && AckHarmless(w.a.tx, w.b.rx, p)
    ensures Reaches(w, w') && Going(w') && Onward(w, w') && Remaining(w'.b.tx) < Remaining(w.b.tx)
  {
    hide WorldInv, AckHarmless, Reaches, Copy;
    GoingSwapped(w);
    var v := OneRound(Swap(w), p);
    w' := Swap(v);
    assert Swap(w') == v;
    ReachSwapped(w, w');
    GoingSwapped(v);
  }

  lemma GoingSwapped(w: World)
    requires Going(w)
    ensures Going(Swap(w))
  {
    WorldSwapped(w);
    hide WorldInv;
  }

  // ---------- Until nothing is left ----------

  /** Filling the window leaves something outstanding, or there is nothing left at all. */
  lemma FillOrDone(s: Sender)
    requires SenderInv(s) && s.stream.ended
    ensures Fill(s).outstanding != [] || AllAcked(Fill(s))
    ensures Fill(s).retx == s.retx
  {
    FillUsesWindow(s, EffectiveWindow(s));
    FillKeeps(s, EffectiveWindow(s));
    var s' := Fill(s);
    ChainLength(s'.outstanding, Unacked(s'), s'.next);
  }

  lemma ConnectFacts(w: World) returns (w': World)
    requires Going(w) && w.a.tx.stream.ended
    ensures Reaches(w, w') && Going(w') && Onward(w, w')
    ensures Remaining(w'.a.tx) == Remaining(w.a.tx) && w'.b == w.b
    ensures w'.a.tx.outstanding != [] || AllAcked(w'.a.tx)
  {
    var connect := Action(true, OpConnect);
    StepKeepsWorld(w, connect);
    w' := TwoEndpoints.Step(w, connect).1;
    ConnectEvolves(w.a);
    FillOrDone(w.a.tx);
    if AllAcked(w.a.tx) { AllAckedStays(w.a.tx, w'.a.tx); }
    hide WorldInv, SenderInv, FillFrom;
    Basics(w);
    Basics(w');
    ReachSelf(w');
    ReachStep(w, connect, w', w');
  }

  /** Round after round, the rest to be acknowledged shrinks to nothing. */
  lemma Completes(w: World) returns (w': World)
    requires Going(w) && w.a.tx.stream.ended
    ensures Reaches(w, w') && Going(w') && Onward(w, w') && AllAcked(w'.a.tx)
    decreases Remaining(w.a.tx) + Remaining(w.b.tx)
  {
    hide WorldInv, Reaches;
    Basics(w);
    if AllAcked(w.a.tx) {
      w' := w;
      ReachSelf(w);
    } else {
      var w1 := ConnectFacts(w);
      if AllAcked(w1.a.tx) {
        w' := w1;
      } else {
        var w2 := Advance(w1);
        Basics(w2);
        w' := Completes(w2);
        ReachTrans(w1, w2, w');
        ReachTrans(w, w1, w');
      }
    }
  }

  /** Whatever has been lost, repeated, reordered or delayed so far, in every run of two fresh
      endpoints: as long as one side has finished writing and has not failed and the other is
      active, some continuation delivers the whole stream and lets the sender know. */
  lemma DeliveryIsAlwaysPossible(a: Config, b: Config, actions: seq<Action>) returns (w': World)
    requires a.recvCapacity > 0 && b.recvCapacity > 0
    requires LegalRun(Start(a, b), actions)
    requires var w := TwoEndpoints.Run(Start(a, b), actions);
             !Failed(w.a) && w.a.tx.stream.ended && w.b.active
    ensures Reaches(TwoEndpoints.Run(Start(a, b), actions), w')
    ensures SummarizeSender(w'.a.tx) == FinAcked && FullyDelivered(w'.a, w'.b)
  {
    StartWorld(a, b);
    RunKeepsWorld(Start(a, b), actions);
    hide WorldInv, TwoEndpoints.Run, LegalRun, Reaches, Start, FullyDelivered, SummarizeSender;
    var w := TwoEndpoints.Run(Start(a, b), actions);
    Basics(w);
    if w.a.active {
      w' := Completes(w);
    } else {
      w' := w;
      ReachSelf(w);
    }
    DoneSummary(w');
  }

  lemma StartWorld(a: Config, b: Config)
    requires a.recvCapacity > 0 && b.recvCapacity > 0
    ensures WorldInv(Start(a, b))
  {
  }

  lemma DoneSummary(w: World)
    requires WorldInv(w) && AllAcked(w.a.tx) && !Failed(w.a)
    ensures SummarizeSender(w.a.tx) == FinAcked && FullyDelivered(w.a, w.b)
  {
    SummaryMeaning(w.a.tx);
    CloseAgreementHalf(w.a, w.b);
  }

  // ---------- Closing ----------

  /** What was acknowledged whole stays so. */
  lemma StepKeepsAcked(w: World, op: TwoEndpoints.Op)
    requires Inv(w) && LegalAtA(w, op) && AllAcked(w.a.tx)
    ensures AllAcked(StepAtA(w, op).1.a.tx)
  {
    hide SeqInv, TimerInv, RenoInv, Reassembly.Agrees, PacketsOk, Passive, Fill, Flush, TickConn;
    var c := w.a;
    match op
    case OpConnect =>
      ConnectEvolves(c);
      AllAckedStays(c.tx, Connect(c).tx);
    case OpWrite(data) =>
      WriteEvolves(c, data);
      AllAckedStays(c.tx, WriteData(c, data).tx);
    case OpEnd =>
      EndEvolves(c);
      AllAckedStays(c.tx, EndInputStream(c).tx);
    case OpTick(ms) =>
      TickEvolves(c, ms);
      AllAckedStays(c.tx, TickConn(c, ms).tx);
    case OpDeliver(p) =>
      if !p.seg.header.rst { DeliverFacts(w, p); }
    case _ =>
  }

  lemma {:induction false} RunKeepsAcked(w: World, actions: seq<Action>)
    requires Inv(w) && LegalRun(w, actions) && AllAcked(w.a.tx)
    ensures AllAcked(TwoEndpoints.Run(w, actions).a.tx)
    decreases |actions|
  {
    hide StepAtA, LegalAtA, FlagsOk, PacketsOk, Passive, SeqInv, TimerInv, Reassembly.Agrees;
    if actions != [] {
      StepKeepsInv(w, actions[0]);
      if actions[0].atA { StepKeepsAcked(w, actions[0].op); } else { OtherSide(Swap(w), actions[0].op); }
      RunKeepsAcked(TwoEndpoints.Step(w, actions[0]).1, actions[1..]);
    }
  }

  /** With both streams acknowledged, an endpoint that is still active lingers, and stops
      when it has lingered long enough. */
  lemma LingerEnds(w: World) returns (w': World)
    requires WorldInv(w) && AllAcked(w.a.tx) && AllAcked(w.b.tx) && !Failed(w.a)
    ensures Reaches(w, w') && WorldInv(w') && w'.b == w.b
    ensures !w'.a.active && !Failed(w'.a) && AllAcked(w'.a.tx)
  {
    if !w.a.active {
      w' := w;
      ReachSelf(w);
    } else {
      var ms: nat := 10 * w.a.tx.initialRto;
      var tick := Action(true, TwoEndpoints.OpTick(ms));
      CloseAgreementHalf(w.b, w.a);
      LinkBounds(w.b.tx, w.a.rx);
      TickStops(w.a);
      StepKeepsAcked(w, TwoEndpoints.OpTick(ms));
      StepKeepsWorld(w, tick);
      hide SeqInv, TimerInv, Reassembly.Agrees, FlagsOk, Passive, PacketsOk, Settled, TickConn, Copies;
      w' := TwoEndpoints.Step(w, tick).1;
      ReachSelf(w');
      ReachStep(w, tick, w', w');
    }
  }

  lemma TickStops(c: Conn)
    requires SenderInv(c.tx) && FlagsOk(c) && Settled(c) && c.active && AllAcked(c.tx)
    requires c.rx.Out().ended && c.rx.isn.Some?
    ensures var c' := TickConn(c, 10 * c.tx.initialRto); !c'.active && !Failed(c')
  {
    NothingOutstanding(c.tx);
    SummaryMeaning(c.tx);
    hide SeqInv, StampAll;
    var ms: nat := 10 * c.tx.initialRto;
    assert Tick(c.tx, ms) == c.tx;
    FlushedSummary(c);
  }

  /** In every run of two fresh endpoints: as long as both are active and have finished
      writing, some continuation delivers both streams whole and closes both endpoints
      without an error. */
  lemma ClosingIsAlwaysPossible(a: Config, b: Config, actions: seq<Action>) returns (w': World)
    requires a.recvCapacity > 0 && b.recvCapacity > 0
    requires LegalRun(Start(a, b), actions)
    requires var w := TwoEndpoints.Run(Start(a, b), actions);
             w.a.active && w.a.tx.stream.ended && w.b.active && w.b.tx.stream.ended
    ensures Reaches(TwoEndpoints.Run(Start(a, b), actions), w')
    ensures !w'.a.active && !Failed(w'.a) && !w'.b.active && !Failed(w'.b)
    ensures FullyDelivered(w'.a, w'.b) && FullyDelivered(w'.b, w'.a)
  {
    StartWorld(a, b);
    RunKeepsWorld(Start(a, b), actions);
    var w := TwoEndpoints.Run(Start(a, b), actions);
    hide WorldInv, TwoEndpoints.Run, LegalRun, Reaches, Start, FullyDelivered, AllAcked;
    Basics(w);
    var w1 := Completes(w);
    GoingSwapped(w1);
    var v := Completes(Swap(w1));
    var w2 := Swap(v);
    assert Swap(w2) == v;
    ReachSwapped(w1, w2);
    ReachKeepsAcked(w1, w2);
    WorldSwapped(v);
    w' := BothStop(w2);
    ReachTrans(w1, w2, w');
    ReachTrans(w, w1, w');
    BothDelivered(w');
  }

  lemma BothStop(w: World) returns (w': World)
    requires WorldInv(w) && AllAcked(w.a.tx) && AllAcked(w.b.tx) && !Failed(w.a) && !Failed(w.b)
    ensures Reaches(w, w') && WorldInv(w') && AllAcked(w'.a.tx) && AllAcked(w'.b.tx)
    ensures !w'.a.active && !Failed(w'.a) && !w'.b.active && !Failed(w'.b)
  {
    hide WorldInv, Reaches, AllAcked;
    var w1 := LingerEnds(w);
    WorldSwapped(w1);
    var v := LingerEnds(Swap(w1));
    w' := Swap(v);
    assert Swap(w') == v;
    ReachSwapped(w1, w');
    WorldSwapped(v);
    ReachTrans(w, w1, w');
  }

  lemma WorldSwapped(w: World)
    requires WorldInv(w)
    ensures WorldInv(Swap(w)) && Inv(w)
    ensures w.a.active ==> !Failed(w.a)
    ensures w.b.active ==> !Failed(w.b)
  {
    hide LinkInv, PacketsOk, Passive, Copies, Settled, CopySince;
  }

  lemma BothDelivered(w: World)
    requires WorldInv(w) && AllAcked(w.a.tx) && AllAcked(w.b.tx)
    ensures FullyDelivered(w.a, w.b) && FullyDelivered(w.b, w.a)
  {
    hide Copies, Settled;
    CloseAgreementHalf(w.a, w.b);
    CloseAgreementHalf(w.b, w.a);
  }

  lemma ReachKeepsAcked(w: World, w': World)
    requires Reaches(w, w') && AllAcked(w.a.tx)
    ensures AllAcked(w'.a.tx)
  {
    hide Half, TwoEndpoints.Step, Legal;
    var actions :| LegalRun(w, actions) && TwoEndpoints.Run(w, actions) == w';
    RunKeepsAcked(w, actions);
  }
}
