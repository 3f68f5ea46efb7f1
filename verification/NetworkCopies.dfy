/** Every outstanding segment has a copy on the network or in the endpoint's queue, and of
    two outstanding segments one has a copy with a recent acknowledgment. */
module NetworkCopies {
  import opened FixedWidth
  import opened WrappingIntegers
  import opened ByteStreams
  import opened Reassembly
  import opened TcpSegments
  import opened Receivers
  import opened SenderModel
  import opened SenderInvariants
  import opened SenderRuns
  import SenderHistory
  import opened ConnectionModel
  import opened Links
  import opened Endpoints
  import opened TwoEndpoints
  import opened Recency

  /** Packet `p` carries what segment `t` carries. */
  predicate Copy(p: Packet, t: Tagged) {
    && p.abs == t.abs && p.seg.payload == t.seg.payload
    && p.seg.header.syn == t.seg.header.syn && p.seg.header.fin == t.seg.header.fin
    && !p.seg.header.rst
  }

  /** The receive buffer of an endpoint. */
  function Cap(x: Conn): nat { x.rx.Out().capacity }

  ghost predicate HasCopy(x: Conn, net: set<Packet>, t: Tagged) {
    exists p :: (p in net || p in x.out) && Copy(p, t)
  }

  /** Unless the endpoint has failed, its outstanding segments are no larger than the peer's
      buffer and can still be delivered. */
  ghost predicate Copies(x: Conn, net: set<Packet>, cap: nat) {
    !Failed(x) ==>
      forall t :: t in x.tx.outstanding ==> |t.seg.payload| <= cap && HasCopy(x, net, t)
  }

  /** What is newly outstanding is also in the output. */
  ghost predicate SendsOnly(s: Sender, s': Sender, cap: nat) {
    forall t :: t in s'.outstanding ==>
      t in s.outstanding || (t in s'.out && |t.seg.payload| <= cap)
  }

  lemma FillSendsOnly(s: Sender, cap: nat)
    requires SeqInv(s) && 0 < cap && s.window <= cap
    ensures SendsOnly(s, Fill(s), cap)
  {
    hide FillFrom;
    var window := EffectiveWindow(s);
    FillSendsNext(s, window);
    FillCutsWell(s, window);
    var batch := Batch(s, Fill(s));
    forall t | t in Fill(s).outstanding && t !in s.outstanding
      ensures t in Fill(s).out && |t.seg.payload| <= cap
    {
      assert t in batch;
    }
  }

  lemma AckSendsOnly(s: Sender, ackno: u32, window: u16, cap: nat)
    requires SenderInv(s) && 0 < cap && window <= cap
    ensures SendsOnly(s, ReceiveAck(s, ackno, window), cap)
  {
    hide Fill, Acknowledge, SeqInv;
    var ack := Unwrap(ackno, s.isn, s.next);
    if ack <= s.next {
      var s1 := Acknowledge(s, ack, window);
      AcknowledgeKeeps(s, ack, window);
      SenderHistory.PopIsSuffix(s, ack);
      FillSendsOnly(s1, cap);
    }
  }

  lemma {:induction false} StampedCopy(rx: Receiver, q: seq<Tagged>, t: Tagged)
    requires t in q && !t.seg.header.rst
    ensures exists p :: p in StampAll(rx, q) && Copy(p, t)
  {
    if t == q[0] {
      assert Stamp(rx, t) in StampAll(rx, q);
    } else {
      StampedCopy(rx, q[1..], t);
      var p :| p in StampAll(rx, q[1..]) && Copy(p, t);
      assert p in StampAll(rx, q);
    }
  }

  /** A sender operation followed by a flush keeps the copies. */
  lemma FlushKeepsCopies(x: Conn, tx: Sender, net: set<Packet>, cap: nat)
    requires Copies(x, net, cap) && SeqInv(tx) && SendsOnly(x.tx, tx, cap) && tx.stream.error == x.tx.stream.error
    ensures Copies(Flush(x.(tx := tx)), net, cap)
  {
    var x' := Flush(x.(tx := tx));
    if !Failed(x') {
      forall t | t in x'.tx.outstanding ensures |t.seg.payload| <= cap && HasCopy(x', net, t) {
        if t in x.tx.outstanding {
          assert HasCopy(x, net, t);
          var p :| (p in net || p in x.out) && Copy(p, t);
          assert p in net || p in x'.out;
        } else {
          assert Carries(tx, t);
          StampedCopy(x.rx, tx.out, t);
          var p :| p in StampAll(x.rx, tx.out) && Copy(p, t);
          assert p in x'.out;
        }
      }
    }
  }

  // ---------- Every operation ----------

  lemma OwnStepKeepsCopies(w: World, op: TwoEndpoints.Op)
    requires Inv(w) && LegalAtA(w, op) && Copies(w.a, w.fromA, Cap(w.b)) && !op.OpDeliver?
    ensures Copies(StepAtA(w, op).1.a, StepAtA(w, op).1.fromA, Cap(w.b))
  {
    assert 0 < Cap(w.b);
    hide TimerInv, RenoInv, Agrees, Carries, Passive, PacketsOk, FlagsOk, Fill, Flush, Copies, Chain;
    var x, net, cap := w.a, w.fromA, Cap(w.b);
    match op {
      case OpConnect => FillThenFlush(x, x.tx, net, cap);
      case OpWrite(data) =>
        WriteKeeps(x.tx, data);
        FillThenFlush(x, WriteStream(x.tx, data), net, cap);
      case OpEnd =>
        EndKeeps(x.tx);
        FillThenFlush(x, EndStream(x.tx), net, cap);
      case OpRead(n) => SameCopies(x, ReadData(x, n), net, net, cap);
      case OpTransmit => SameCopies(x, x.(out := []), net, net + (set p | p in x.out), cap);
      case OpTick(ms) => TickKeepsCopies(x, ms, net, cap);
    }
  }

  lemma SameCopies(x: Conn, x': Conn, net: set<Packet>, net': set<Packet>, cap: nat)
    requires Copies(x, net, cap) && x'.tx == x.tx
    requires forall p :: p in net || p in x.out ==> p in net' || p in x'.out
    ensures Copies(x', net', cap)
  {
    forall t | HasCopy(x, net, t) ensures HasCopy(x', net', t) {
      var p :| (p in net || p in x.out) && Copy(p, t);
      assert p in net' || p in x'.out;
    }
  }

  lemma FillThenFlush(x: Conn, tx: Sender, net: set<Packet>, cap: nat)
    requires Copies(x, net, cap) && 0 < cap && tx.window <= cap && SenderInv(tx) && tx.outstanding == x.tx.outstanding
    requires tx.stream.error == x.tx.stream.error
    ensures Copies(Flush(x.(tx := Fill(tx))), net, cap)
  {
    FillSendsOnly(tx, cap);
    FillKeeps(tx, EffectiveWindow(tx));
    FlushKeepsCopies(x, Fill(tx), net, cap);
  }

  lemma TickKeepsCopies(x: Conn, ms: nat, net: set<Packet>, cap: nat)
    requires Copies(x, net, cap) && SenderInv(x.tx)
    ensures Copies(TickConn(x, ms), net, cap)
  {
    TickSendsOnly(x.tx, ms, cap);
    hide SeqInv, TimerInv, RenoInv, Flush, BothDone, Tick;
    var tx := Tick(x.tx, ms);
    if tx.retx > MAX_RETX_ATTEMPTS {
      assert Failed(TickConn(x, ms));
    } else {
      var x1 := x.(sinceLast := x.sinceLast + ms);
      SameCopies(x, x1, net, net, cap);
      FlushKeepsCopies(x1, tx, net, cap);
      var x2 := Flush(x1.(tx := tx));
      SameCopies(x2, x2.(active := false, linger := false), net, net, cap);
    }
  }

  lemma TickSendsOnly(s: Sender, ms: nat, cap: nat)
    requires SenderInv(s)
    ensures SeqInv(Tick(s, ms)) && SendsOnly(s, Tick(s, ms), cap) && Tick(s, ms).stream == s.stream
  {
    TickKeeps(s, ms);
  }

  lemma DeliverKeepsCopies(w: World, p: Packet)
    requires Inv(w) && LegalAtA(w, OpDeliver(p)) && Copies(w.a, w.fromA, Cap(w.b))
    ensures Copies(StepAtA(w, OpDeliver(p)).1.a, w.fromA, Cap(w.b))
  {
    var x := w.a.(sinceLast := 0);
    if p.seg.header.rst {
    } else {
      hide LinkInv, PacketsOk, Passive, StepAtA, Respond, TakeAck, Receive, Copies;
      DeliverUnfolds(w, p);
      ReceivedFlags(w, p);
      SameCopies(w.a, x.(rx := Receive(x.rx, p.seg).1), w.fromA, w.fromA, Cap(w.b));
      RespondKeepsCopies(x.(rx := Receive(x.rx, p.seg).1), p.seg, w.fromA, Cap(w.b));
    }
  }

  lemma RespondKeepsCopies(x: Conn, seg: Segment, net: set<Packet>, cap: nat)
    requires Copies(x, net, cap) && SenderInv(x.tx) && FlagsOk(x)
    requires 0 < cap && x.tx.window <= cap && seg.header.win <= cap
    ensures Copies(Respond(TakeAck(x, seg), seg), net, cap)
  {
    hide TimerInv, RenoInv, Carries, Flush, Fill, ReceiveAck, Chain, Copies;
    var tx := TakeAck(x, seg).tx;
    TakeAckEvolves(x, seg);
    if seg.header.ack { AckSendsOnly(x.tx, seg.header.ackno, seg.header.win, cap); }
    RespondCopies(x, tx, seg, net, cap);
  }

  lemma RespondCopies(x: Conn, tx: Sender, seg: Segment, net: set<Packet>, cap: nat)
    requires 0 < cap && tx.window <= cap
    requires Copies(x, net, cap) && SenderInv(tx) && SendsOnly(x.tx, tx, cap) && tx.stream.error == x.tx.stream.error
    ensures Copies(Respond(x.(tx := tx), seg), net, cap)
  {
    hide SeqInv, TimerInv, RenoInv, Flush, Fill, SummarizeSender, SummarizeReceiver, Copies, SendsOnly, CloseOrAnswer;
    var c := x.(tx := tx);
    if SummarizeReceiver(c.rx) == SynReceived && SummarizeSender(c.tx) == Closed {
      SendsOnlyTrans(x.tx, tx, cap);
      FlushKeepsCopies(x, Fill(tx), net, cap);
    } else {
      var x1 := x.(linger := NotePassiveClose(c).linger);
      SameCopies(x, x1, net, net, cap);
      CloseOrAnswerCopies(x1, tx, seg, net, cap);
    }
  }

  lemma CloseOrAnswerCopies(x: Conn, tx: Sender, seg: Segment, net: set<Packet>, cap: nat)
    requires Copies(x, net, cap) && SenderInv(tx) && SendsOnly(x.tx, tx, cap) && tx.stream.error == x.tx.stream.error
    ensures Copies(CloseOrAnswer(x.(tx := tx), seg), net, cap)
  {
    hide SeqInv, TimerInv, RenoInv, Flush, Copies, SendsOnly, BothDone, NeedsEmptyAck;
    var c := x.(tx := tx);
    if !c.linger && BothDone(c) {
      FlushedSummary(c);
      NothingOutstanding(tx);
      NothingToCopy(c.(active := false), net, cap);
    } else if NeedsEmptyAck(c, seg) {
      SendEmptyKeeps(tx);
      EmptySendsOnly(x.tx, tx, cap);
      FlushKeepsCopies(x, SendEmpty(tx), net, cap);
    } else {
      FlushKeepsCopies(x, tx, net, cap);
    }
  }

  lemma EmptySendsOnly(s: Sender, tx: Sender, cap: nat)
    requires SendsOnly(s, tx, cap)
    ensures SendsOnly(s, SendEmpty(tx), cap)
  {
  }

  lemma NothingToCopy(x: Conn, net: set<Packet>, cap: nat)
    requires x.tx.outstanding == []
    ensures Copies(x, net, cap)
  {
  }

  lemma SendsOnlyTrans(s: Sender, s1: Sender, cap: nat)
    requires SeqInv(s1) && SendsOnly(s, s1, cap) && 0 < cap && s1.window <= cap
    ensures SendsOnly(s, Fill(s1), cap)
    ensures SeqInv(Fill(s1)) && Fill(s1).stream.error == s1.stream.error
  {
    FillSendsOnly(s1, cap);
    FillSendsNext(s1, EffectiveWindow(s1));
    FillKeeps(s1, EffectiveWindow(s1));
  }

  // ---------- The more recent of two segments ----------

  /** A copy of `t` whose acknowledgment, if any, is not below `floor`. */
  ghost predicate CopySince(x: Conn, net: set<Packet>, t: Tagged, floor: int) {
    exists p :: (p in net || p in x.out) && Copy(p, t) && (p.seg.header.ack ==> p.absAck >= floor)
  }

  /** Of two outstanding segments, one from either side, the one that was sent later
      acknowledged all but the last window before the other. */
  ghost predicate Timely(w: World) {
    !Failed(w.a) && !Failed(w.b) ==>
      forall t, u :: t in w.a.tx.outstanding && u in w.b.tx.outstanding ==>
        CopySince(w.a, w.fromA, t, u.abs - MAX_WINDOW) || CopySince(w.b, w.fromB, u, t.abs - MAX_WINDOW)
  }

  /** What is newly outstanding starts at or after what was the next number. */
  ghost predicate Extends(s: Sender, s': Sender) {
    s.next <= s'.next && forall t :: t in s'.outstanding ==> t in s.outstanding || t.abs >= s.next
  }

  lemma FillExtends(s: Sender)
    requires SeqInv(s)
    ensures Extends(s, Fill(s))
  {
    var s' := Fill(s);
    FillKeeps(s, EffectiveWindow(s));
    FillSendsNext(s, EffectiveWindow(s));
    var batch := Batch(s, s');
    SenderHistory.ChainSuffix(s.outstanding, batch, Unacked(s), s.next, s'.next);
    forall t | t in s'.outstanding && t !in s.outstanding ensures t.abs >= s.next {
      ChainMember(batch, s.next, s'.next, t);
    }
  }

  lemma AckExtends(s: Sender, ackno: u32, window: u16)
    requires SenderInv(s)
    ensures Extends(s, ReceiveAck(s, ackno, window))
  {
    hide Fill, Acknowledge, SeqInv, Unwrap, PopAcked;
    var ack := Unwrap(ackno, s.isn, s.next);
    if ack <= s.next {
      AcknowledgeKeeps(s, ack, window);
      SenderHistory.PopIsSuffix(s, ack);
      FillExtends(Acknowledge(s, ack, window));
    }
  }

  lemma RespondExtends(c: Conn, seg: Segment)
    requires SenderInv(c.tx)
    ensures Extends(c.tx, Respond(c, seg).tx)
  {
    hide SeqInv, TimerInv, RenoInv, StampAll, Fill, NeedsEmptyAck, SummarizeSender, SummarizeReceiver, BothDone;
    FillExtends(c.tx);
  }

  lemma DeliverExtends(w: World, p: Packet)
    requires Inv(w) && LegalAtA(w, OpDeliver(p))
    ensures var x' := StepAtA(w, OpDeliver(p)).1.a; Extends(w.a.tx, x'.tx) && Queues(w.a, x') && w.a.out <= x'.out
  {
    if p.seg.header.rst {
    } else {
      DeliverUnfolds(w, p);
      ReceivedFlags(w, p);
      hide Inv, StepAtA, Receive, Respond, SeqInv, TimerInv, ReceiveAck;
      var x := w.a.(sinceLast := 0);
      var x1 := x.(rx := Receive(x.rx, p.seg).1);
      var x2 := TakeAck(x1, p.seg);
      if p.seg.header.ack { AckExtends(x1.tx, p.seg.header.ackno, p.seg.header.win); }
      TakeAckEvolves(x1, p.seg);
      RespondExtends(x2, p.seg);
      RespondEvolves(x2, p.seg);
      RespondKeepsQueue(x2, p.seg);
    }
  }

  lemma RespondKeepsQueue(c: Conn, seg: Segment)
    ensures c.out <= Respond(c, seg).out
  {
    hide StampAll, Fill, NeedsEmptyAck, SummarizeSender, SummarizeReceiver, BothDone;
  }

  /** No packet is lost before it has been sent, and a new one is stamped with what the
      receiver has. */
  lemma OwnStepExtends(w: World, op: TwoEndpoints.Op)
    requires Inv(w) && LegalAtA(w, op) && !op.OpDeliver?
    ensures var x' := StepAtA(w, op).1.a;
            && Extends(w.a.tx, x'.tx) && Queues(w.a, x')
            && (if op.OpTransmit? then x'.out == [] else w.a.out <= x'.out)
  {
    hide SeqInv, TimerInv, RenoInv, Agrees, PacketsOk, Passive, Fill, StampAll, Queues, FlagsOk, TickConn;
    var c := w.a;
    match op
    case OpConnect =>
      ConnectEvolves(c);
      FillExtends(c.tx);
    case OpWrite(data) =>
      WriteEvolves(c, data);
      WriteKeeps(c.tx, data);
      FillExtends(WriteStream(c.tx, data));
    case OpEnd =>
      EndEvolves(c);
      EndKeeps(c.tx);
      FillExtends(EndStream(c.tx));
    case OpTick(ms) =>
      TickEvolves(c, ms);
      TickExtends(c, ms);
    case OpRead(n) => NothingQueued(c, ReadData(c, n));
    case OpTransmit => NothingQueued(c, c.(out := []));
  }

  lemma NothingQueued(c: Conn, c': Conn)
    requires forall p :: p in c'.out ==> p in c.out
    ensures Queues(c, c')
  {
  }

  lemma TickExtends(c: Conn, ms: nat)
    ensures Extends(c.tx, TickConn(c, ms).tx) && c.out <= TickConn(c, ms).out
  {
    hide StampAll, BothDone;
  }

  /** A segment that was never sent before has no old copy. */
  lemma NewHasNewCopy(w: World, w': World, t: Tagged)
    requires Inv(w) && Inv(w') && Copies(w'.a, w'.fromA, Cap(w'.b)) && !Failed(w'.a)
    requires Extends(w.a.tx, w'.a.tx) && Queues(w.a, w'.a)
    requires forall p :: p in w'.fromA ==> p in w.fromA || p in w.a.out
    requires t in w'.a.tx.outstanding && t !in w.a.tx.outstanding && w.b.tx.inFlight <= MAX_WINDOW
    requires w'.b == w.b
    ensures forall u :: u in w.b.tx.outstanding ==> CopySince(w'.a, w'.fromA, t, u.abs - MAX_WINDOW)
  {
    assert HasCopy(w'.a, w'.fromA, t);
    var p :| (p in w'.fromA || p in w'.a.out) && Copy(p, t);
    var x, x' := w.a, w'.a;
    assert p !in w.fromA && p !in x.out by {
      ChainMember(x'.tx.outstanding, Unacked(x'.tx), x'.tx.next, t);
      if p in w.fromA || p in x.out { NoOldCopy(x, p, t); }
    }
    assert NewPacket(x', p);
    hide SenderInv, Carries;
    forall u | u in w.b.tx.outstanding ensures CopySince(x', w'.fromA, t, u.abs - MAX_WINDOW) {
      InFlightIsNear(w.b.tx, x'.rx, u);
      assert p.seg.header.ack ==> p.absAck >= u.abs - MAX_WINDOW;
    }
  }

  lemma NoOldCopy(x: Conn, p: Packet, t: Tagged)
    requires PacketOk(x.tx, x.rx, p) && t.abs >= x.tx.next && Length(t.seg) > 0
    ensures !Copy(p, t)
  {
  }

  /** What is in flight is at most a window ahead of what the receiver acknowledges. */
  lemma InFlightIsNear(s: Sender, r: Receiver, u: Tagged)
    requires LinkInv(s, r) && u in s.outstanding && s.inFlight <= MAX_WINDOW
    ensures AckOf(r) >= u.abs - MAX_WINDOW
  {
    ChainMember(s.outstanding, Unacked(s), s.next, u);
  }

  lemma TimelyAfter(w: World, w': World)
    requires Inv(w) && Inv(w') && Copies(w'.a, w'.fromA, Cap(w'.b)) && Timely(w) && (Failed(w.a) ==> Failed(w'.a))
    requires Extends(w.a.tx, w'.a.tx) && Queues(w.a, w'.a) && w'.b == w.b && w'.fromB == w.fromB
    requires forall p :: p in w'.fromA ==> p in w.fromA || p in w.a.out
    requires forall p :: p in w.fromA || p in w.a.out ==> p in w'.fromA || p in w'.a.out
    requires w.b.tx.inFlight <= MAX_WINDOW
    ensures Timely(w')
  {
    hide Inv, Extends, Queues, CopySince;
    if !Failed(w'.a) && !Failed(w'.b) {
      forall t, u | t in w'.a.tx.outstanding && u in w'.b.tx.outstanding
        ensures CopySince(w'.a, w'.fromA, t, u.abs - MAX_WINDOW) || CopySince(w'.b, w'.fromB, u, t.abs - MAX_WINDOW)
      {
        if t !in w.a.tx.outstanding {
          NewHasNewCopy(w, w', t);
        } else if CopySince(w.a, w.fromA, t, u.abs - MAX_WINDOW) {
          CopyStays(w.a, w.fromA, w'.a, w'.fromA, t, u.abs - MAX_WINDOW);
        }
      }
    }
  }

  lemma CopyStays(x: Conn, net: set<Packet>, x': Conn, net': set<Packet>, t: Tagged, floor: int)
    requires CopySince(x, net, t, floor)
    requires forall p :: p in net || p in x.out ==> p in net' || p in x'.out
    ensures CopySince(x', net', t, floor)
  {
    var p :| (p in net || p in x.out) && Copy(p, t) && (p.seg.header.ack ==> p.absAck >= floor);
    assert p in net' || p in x'.out;
  }

  lemma TimelySwapped(w: World)
    requires Timely(w)
    ensures Timely(Swap(w))
  {
  }

  lemma StepKeepsTimely(w: World, op: TwoEndpoints.Op)
    requires Inv(w) && LegalAtA(w, op) && Timely(w) && BothSettled(w)
    requires RenoInv(w.a.tx) && Copies(StepAtA(w, op).1.a, StepAtA(w, op).1.fromA, Cap(w.b))
    requires Inv(StepAtA(w, op).1) && (Failed(w.a) ==> Failed(StepAtA(w, op).1.a))
    ensures Timely(StepAtA(w, op).1)
  {
    var w' := StepAtA(w, op).1;
    if op.OpDeliver? { DeliverExtends(w, op.p); } else { OwnStepExtends(w, op); }
    Network(w, op);
    OtherSide(w, op);
    hide Inv, StepAtA, Extends, Queues, Copies, Timely;
    TimelyAfter(w, w');
  }

  lemma Network(w: World, op: TwoEndpoints.Op)
    requires RenoInv(w.a.tx)
    ensures StepAtA(w, op).1.fromA == if op.OpTransmit? then w.fromA + set p | p in w.a.out else w.fromA
  {
  }

  // ---------- Whole runs ----------

  ghost predicate WorldInv(w: World) {
    && Inv(w) && BothSettled(w)
    && Copies(w.a, w.fromA, Cap(w.b)) && Copies(w.b, w.fromB, Cap(w.a))
    && Timely(w)
  }

  lemma StepKeepsWorld(w: World, action: Action)
    requires WorldInv(w) && Legal(w, action)
    ensures WorldInv(TwoEndpoints.Step(w, action).1)
  {
    StepSettles(w, action);
    hide StepAtA, Copies, FlagsOk, Passive, PacketsOk, BothSettled, Timely;
    var v := if action.atA then w else Swap(w);
    if action.op.OpDeliver? { DeliverKeepsCopies(v, action.op.p); } else { OwnStepKeepsCopies(v, action.op); }
    OtherSide(v, action.op);
    OwnCapacity(v, action.op);
    assert Timely(TwoEndpoints.Step(w, action).1) by {
      hide CopySince;
      FailureStays(v, action.op);
      if !action.atA { TimelySwapped(w); }
      StepKeepsTimely(v, action.op);
      TimelySwapped(StepAtA(v, action.op).1);
    }
  }

  lemma FailureStays(w: World, op: TwoEndpoints.Op)
    requires Inv(w) && LegalAtA(w, op)
    ensures Failed(w.a) ==> Failed(StepAtA(w, op).1.a)
  {
    hide SeqInv, TimerInv, RenoInv, Agrees, PacketsOk, Passive, Fill, StampAll, TickConn;
    match op
    case OpConnect => ConnectEvolves(w.a);
    case OpWrite(data) => WriteEvolves(w.a, data);
    case OpEnd => EndEvolves(w.a);
    case OpTick(ms) => TickEvolves(w.a, ms);
    case OpDeliver(p) => if !p.seg.header.rst { DeliverFailure(w, p); }
    case _ =>
  }

  lemma DeliverFailure(w: World, p: Packet)
    requires Inv(w) && LegalAtA(w, OpDeliver(p)) && !p.seg.header.rst
    ensures Failed(StepAtA(w, OpDeliver(p)).1.a) == Failed(w.a)
  {
    DeliverUnfolds(w, p);
    ReceivedFlags(w, p);
    hide Inv, StepAtA, Respond, TakeAck, Receive, SeqInv, TimerInv;
    var x := w.a.(sinceLast := 0);
    var x1 := x.(rx := Receive(x.rx, p.seg).1);
    TakeAckEvolves(x1, p.seg);
    RespondSameError(TakeAck(x1, p.seg), p.seg);
  }

  lemma RespondSameError(c: Conn, seg: Segment)
    requires SenderInv(c.tx)
    ensures Respond(c, seg).tx.stream.error == c.tx.stream.error
  {
    hide SeqInv, TimerInv, RenoInv, StampAll, SummarizeSender, SummarizeReceiver, BothDone, NeedsEmptyAck, FillFrom;
    FillKeeps(c.tx, EffectiveWindow(c.tx));
  }

  /** No operation changes the receive capacity. */
  lemma OwnCapacity(w: World, op: TwoEndpoints.Op)
    requires Inv(w) && LegalAtA(w, op)
    ensures Cap(StepAtA(w, op).1.a) == Cap(w.a)
  {
    if op.OpDeliver? {
      if !op.p.seg.header.rst { DeliverCapacity(w, op.p); }
    } else {
      hide SeqInv, TimerInv, Agrees, Fill, Tick;
    }
  }

  lemma DeliverCapacity(w: World, p: Packet)
    requires Inv(w) && LegalAtA(w, OpDeliver(p)) && !p.seg.header.rst
    ensures RenoInv(w.a.tx) && Cap(StepAtA(w, OpDeliver(p)).1.a) == Cap(w.a)
  {
    hide StepAtA, Respond, TakeAck, Receive, SeqInv, TimerInv, Agrees, Carries;
    var x := w.a.(sinceLast := 0);
    DeliverUnfolds(w, p);
    ReceivedFlags(w, p);
    var x1 := x.(rx := Receive(x.rx, p.seg).1);
    TakeAckEvolves(x1, p.seg);
    RespondEvolves(TakeAck(x1, p.seg), p.seg);
  }

  lemma {:induction false} RunKeepsWorld(w: World, actions: seq<Action>)
    requires WorldInv(w) && LegalRun(w, actions)
    ensures WorldInv(TwoEndpoints.Run(w, actions))
    decreases |actions|
  {
    hide TwoEndpoints.Step, Legal, FlagsOk, PacketsOk, Passive, Copies;
    if actions != [] {
      StepKeepsInv(w, actions[0]);
      StepKeepsWorld(w, actions[0]);
      RunKeepsWorld(TwoEndpoints.Step(w, actions[0]).1, actions[1..]);
    }
  }
}
