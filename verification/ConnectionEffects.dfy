/** What the steps of an endpoint do to its streams, its flags, its queue and its clock,
    and what follows for whole runs of two endpoints. */
module ConnectionEffects {
  import opened FixedWidth
  import opened WrappingIntegers
  import opened ByteStreams
  import opened Reassembly
  import opened TcpSegments
  import opened Receivers
  import opened SenderModel
  import opened SenderInvariants
  import opened SenderRuns
  import SenderHistory
  import opened ConnectionModel
  import opened Links
  import opened Endpoints
  import opened TwoEndpoints
  import Recency
  import EndpointHistories
  import NetworkCopies
  import opened Answers
  import opened SenderEffects

  // ---------- Resets ----------

  /** A segment with the RST flag fails both streams and ends the connection at once, in
      every state; it is not answered, and no byte is lost or added. */
  lemma ResetTakesEffect(c: Conn, seg: Segment)
    requires RenoInv(c.tx) && seg.header.rst
    ensures var (status, c') := SegmentReceived(c, seg);
            && status == Ok && !c'.active && !c'.linger
            && c'.tx.stream.error && c'.rx.Out().error
            && c'.out == c.out
            && c'.tx == c.tx.(stream := c.tx.stream.(error := true))
            && c'.rx.Out() == c.rx.Out().(error := true)
  {
  }

  /** The tick is the ninth expiry in a row with the peer's window open. */
  predicate GivesUp(c: Conn, ms: nat) { Expires(c.tx, ms) && c.tx.window > 0 && c.tx.retx == 8 }

  /** The empty segment that tells the peer to give up too. */
  predicate IsReset(s: Sender, p: Packet) {
    && p.seg.header.rst && p.seg.header.seqno == Wrap(s.next, s.isn)
    && !p.seg.header.syn && !p.seg.header.fin && !p.seg.header.ack && p.seg.payload == []
  }

  /** A tick fails the endpoint exactly in that case; then the reset is all it sends. */
  lemma GivesUpIff(c: Conn, ms: nat)
    requires FlagsOk(c) && !Failed(c)
    ensures var c' := TickConn(c, ms);
            && (Failed(c') <==> GivesUp(c, ms))
            && (Failed(c') ==>
                  && c'.rx.Out().error && !c'.active
                  && |c'.out| == |c.out| + 1 && c'.out[..|c.out|] == c.out && IsReset(c.tx, c'.out[|c.out|]))
  {
    hide StampAll, BothDone;
    if GivesUp(c, ms) {
      assert (c.out + [ResetPacket(Tick(c.tx, ms))])[..|c.out|] == c.out;
    }
  }

  /** An operation fails its endpoint exactly if it brings a reset or is the tick that gives up. */
  lemma FailsIff(w: World, op: TwoEndpoints.Op)
    requires Inv(w) && LegalAtA(w, op)
    ensures Failed(StepAtA(w, op).1.a) <==>
              || Failed(w.a)
              || (op.OpDeliver? && op.p.seg.header.rst)
              || (op.OpTick? && GivesUp(w.a, op.ms))
  {
    if Failed(w.a) {
      NetworkCopies.FailureStays(w, op);
    } else {
      hide SeqInv, TimerInv, Agrees, TickConn, Passive, PacketsOk, StampAll, GivesUp;
      match op {
        case OpDeliver(p) =>
          if p.seg.header.rst { ResetTakesEffect(w.a, p.seg); } else { NetworkCopies.DeliverFailure(w, p); }
        case OpTick(ms) => GivesUpIff(w.a, ms);
        case OpConnect => FillSameError(w.a.tx);
        case OpWrite(data) => FillSameError(WriteStream(w.a.tx, data)) by { WriteKeeps(w.a.tx, data); }
        case OpEnd => FillSameError(EndStream(w.a.tx)) by { EndKeeps(w.a.tx); }
        case _ =>
      }
    }
  }

  lemma FillSameError(s: Sender)
    requires SenderInv(s)
    ensures Fill(s).stream.error == s.stream.error
  {
    FillKeeps(s, EffectiveWindow(s));
  }

  /** A segment that contradicts what was received before throws, and then nothing has been
      done but to store what came before the contradiction: no acknowledgment taken, no flag
      changed, nothing queued, and no byte added to the output. */
  lemma ExceptionLeavesTheRest(c: Conn, seg: Segment)
    requires RenoInv(c.tx) && !seg.header.rst
    ensures SegmentReceived(c, seg).0 != Ok <==> Contradicts(c.rx, seg)
    ensures var (status, c') := SegmentReceived(c, seg);
            status != Ok ==>
              && c' == c.(sinceLast := 0, rx := c'.rx) && c'.rx.Out() == c.rx.Out()
              && c'.rx == Receive(c.rx, seg).1
  {
    ThrowsIff(c.rx, seg);
    hide Unwrap, Respond, TakeAck, Contradicts, FirstConflict, Store, Assemble;
    if Receive(c.rx, seg).0 == InconsistentSubstrings {
      var isn := if c.rx.isn.None? then seg.header.seqno else c.rx.isn.value;
      var absSeq := Unwrap(seg.header.seqno, isn, Cur(c.rx.reassembler));
      ConflictLeavesPrefix(c.rx.reassembler, seg.payload, StreamIndex(absSeq, seg.header.syn), seg.header.fin);
    }
  }

  // ---------- Ticks on end ----------

  function Ticks(c: Conn, ticks: seq<nat>): Conn
    decreases |ticks|
  {
    if ticks == [] then c else Ticks(TickConn(c, ticks[0]), ticks[1..])
  }

  /** An endpoint facing a closed window probes it for as long as it takes: no series of
      ticks makes it give up. */
  lemma {:induction false} ProbesNeverGiveUp(c: Conn, ticks: seq<nat>)
    requires SenderInv(c.tx) && FlagsOk(c) && !Failed(c) && c.tx.window == 0
    ensures !Failed(Ticks(c, ticks)) && Ticks(c, ticks).tx.retx == c.tx.retx
    decreases |ticks|
  {
    if ticks != [] {
      TickEvolves(c, ticks[0]);
      GivesUpIff(c, ticks[0]);
      ProbeTickKeeps(c, ticks[0]);
      ProbesNeverGiveUp(TickConn(c, ticks[0]), ticks[1..]);
    }
  }

  lemma ProbeTickKeeps(c: Conn, ms: nat)
    requires c.tx.window == 0
    ensures TickConn(c, ms).tx.retx == c.tx.retx && TickConn(c, ms).tx.window == 0
  {
    hide StampAll, BothDone;
  }

  function Milliseconds(n: nat): seq<nat> { if n == 0 then [] else Milliseconds(n - 1) + [1] }

  lemma {:induction false} TicksAppend(c: Conn, ticks: seq<nat>, ms: nat)
    ensures Ticks(c, ticks + [ms]) == TickConn(Ticks(c, ticks), ms)
    decreases |ticks|
  {
    if ticks == [] {
      assert (ticks + [ms])[1..] == [];
    } else {
      assert (ticks + [ms])[1..] == ticks[1..] + [ms];
      TicksAppend(TickConn(c, ticks[0]), ticks[1..], ms);
    }
  }

  /** Without an answer an endpoint gives up after exactly 511 initial timeouts: no
      millisecond earlier and none later. */
  lemma GivesUpOnTime(c: Conn, n: nat)
    requires SenderInv(c.tx) && FlagsOk(c) && !Failed(c)
    requires c.tx.outstanding != [] && c.tx.window > 0 && c.tx.retx == 0 && c.tx.timer.count == 0
    requires 0 < c.tx.initialRto
    ensures Failed(Ticks(c, Milliseconds(n))) <==> n >= 511 * c.tx.initialRto
  {
    hide SenderInv, FlagsOk, Ticks;
    if n < 511 * c.tx.initialRto { SilentTicks(c, n); } else { GaveUp(c, n); }
  }

  /** The sender of a connection that ticks is the sender that ticks, up to its queue. */
  predicate SameButQueue(s: Sender, s': Sender) { s'.(out := s.out) == s }

  lemma {:induction false} SilentTicks(c: Conn, n: nat)
    requires SenderInv(c.tx) && FlagsOk(c) && !Failed(c)
    requires c.tx.outstanding != [] && c.tx.window > 0 && c.tx.retx == 0 && c.tx.timer.count == 0
    requires 0 < c.tx.initialRto && n < 511 * c.tx.initialRto
    ensures var c' := Ticks(c, Milliseconds(n));
            && SenderInv(c'.tx) && FlagsOk(c') && !Failed(c') && SameButQueue(TickEach(c.tx, n), c'.tx)
  {
    hide SenderInv, FlagsOk, Tick, TickConn, GivesUp;
    if n > 0 {
      SilentTicks(c, n - 1);
      TicksAppend(c, Milliseconds(n - 1), 1);
      var c1, s1 := Ticks(c, Milliseconds(n - 1)), TickEach(c.tx, n - 1);
      TickEvolves(c1, 1);
      GivesUpIff(c1, 1);
      GivesUpAt(c, s1, c1, n - 1);
      TickSameButQueue(s1, c1);
    }
  }

  lemma TickSameButQueue(s: Sender, c: Conn)
    requires SameButQueue(s, c.tx) && FlagsOk(c) && !Failed(c) && !GivesUp(c, 1)
    ensures SameButQueue(Tick(s, 1), TickConn(c, 1).tx)
  {
    hide StampAll, BothDone;
  }

  /** The backoff reaches its ninth expiry when 511 timeouts have passed. */
  lemma GivesUpAt(c: Conn, s: Sender, c': Conn, n: nat)
    requires SenderInv(c.tx) && c.tx.outstanding != [] && c.tx.window > 0
    requires c.tx.retx == 0 && c.tx.timer.count == 0 && 0 < c.tx.initialRto && n < 511 * c.tx.initialRto
    requires s == TickEach(c.tx, n) && SameButQueue(s, c'.tx)
    ensures GivesUp(c', 1) <==> n + 1 == 511 * c.tx.initialRto
  {
    hide SeqInv, TickEach, Pow2, Repeat;
    BackoffSchedule(c.tx, n);
    SenderHistory.PowBound(s.retx);
    SenderHistory.NoOverflow(c.tx.initialRto, Pow2(s.retx));
    NinthExpiry(c.tx.initialRto, s.retx, s.timer.count, n);
  }

  lemma NinthExpiry(rto: nat, k: nat, count: nat, n: nat)
    requires k < 16 && 0 < rto && count < rto * Pow2(k) && n == rto * (Pow2(k) - 1) + count && n < 511 * rto
    ensures count + 1 >= rto * Pow2(k) && k == 8 <==> n + 1 == 511 * rto
  {
    hide Pow2;
    if k == 8 {
      PowEight();
    } else if k < 8 {
      FewRounds(rto, k, count);
    } else {
      SenderHistory.PowBound(k);
      SenderHistory.ProductMonotone(rto, 511, Pow2(k) - 1);
    }
  }

  lemma PowEight()
    ensures Pow2(8) == 256
  {
    assert Pow2(4) == 16;
  }

  lemma FewRounds(rto: nat, k: nat, count: nat)
    requires k < 8 && 0 < rto && count < rto * Pow2(k)
    ensures rto * (Pow2(k) - 1) + count + 1 < 511 * rto
  {
    SenderHistory.PowMonotone(k, 7);
    assert Pow2(7) == 128 by { assert Pow2(4) == 16; }
    hide Pow2;
    SenderHistory.ProductMonotone(rto, Pow2(k), 128);
    SenderHistory.ProductMonotone(rto, Pow2(k) - 1, 127);
  }

  lemma {:induction false} GaveUp(c: Conn, n: nat)
    requires SenderInv(c.tx) && FlagsOk(c) && !Failed(c)
    requires c.tx.outstanding != [] && c.tx.window > 0 && c.tx.retx == 0 && c.tx.timer.count == 0
    requires 0 < c.tx.initialRto && n >= 511 * c.tx.initialRto
    ensures Failed(Ticks(c, Milliseconds(n)))
  {
    hide SenderInv, FlagsOk, Tick, TickConn, GivesUp, Ticks;
    TicksAppend(c, Milliseconds(n - 1), 1);
    var c1 := Ticks(c, Milliseconds(n - 1));
    if n == 511 * c.tx.initialRto {
      SilentTicks(c, n - 1);
      GivesUpIff(c1, 1);
      GivesUpAt(c, TickEach(c.tx, n - 1), c1, n - 1);
    } else {
      GaveUp(c, n - 1);
      FailedTick(c1);
    }
  }

  lemma FailedTick(c: Conn)
    requires Failed(c)
    ensures Failed(TickConn(c, 1))
  {
    hide StampAll, BothDone;
  }

  // ---------- What the application does ----------

  /** A write is taken as far as the buffer has room, the end is noted, and a read takes what
      there is; nothing else of the streams' contents changes. */
  lemma ApplicationTakesEffect(c: Conn, data: seq<byte>, n: nat)
    ensures var s := c.tx.stream;
            && WriteData(c, data).tx.stream.all == s.all + data[..Min(|data|, s.capacity - (|s.all| - s.read))]
            && WriteData(c, data).tx.stream.ended == s.ended
            && EndInputStream(c).tx.stream.all == s.all && EndInputStream(c).tx.stream.ended
            && Connect(c).tx.stream.all == s.all && Connect(c).tx.stream.ended == s.ended
            && (var inbound := c.rx.Out();
                && ReadData(c, n).rx.Out() == inbound.(read := Min(inbound.read + n, |inbound.all|))
                && ReadData(c, n).tx == c.tx)
  {
    hide Fill, StampAll;
    FillSameStream(c.tx);
    FillSameStream(WriteStream(c.tx, data));
    FillSameStream(EndStream(c.tx));
  }

  /** Once a connection is opened, what has never been sent waits only for a window. */
  predicate Prompt(c: Conn) { c.tx.synSent ==> NothingHeldBack(c.tx) }

  /** The change keeps what counts for that, or is the start of it. */
  lemma StepIsPrompt(w: World, op: TwoEndpoints.Op)
    requires Inv(w) && LegalAtA(w, op) && Prompt(w.a)
    ensures Prompt(StepAtA(w, op).1.a)
  {
    hide SeqInv, TimerInv, Agrees, Passive, PacketsOk, TickConn, Fill, StampAll, NothingHeldBack;
    match op {
      case OpConnect => FillIsPrompt(w.a.tx);
      case OpWrite(data) => FillIsPrompt(WriteStream(w.a.tx, data)) by { WriteKeeps(w.a.tx, data); }
      case OpEnd => FillIsPrompt(EndStream(w.a.tx)) by { EndKeeps(w.a.tx); }
      case OpTick(ms) => TickIsPrompt(w.a, ms);
      case OpDeliver(p) => DeliverIsPrompt(w, p);
      case _ =>
    }
  }

  lemma FillIsPrompt(s: Sender)
    requires SenderInv(s)
    ensures NothingHeldBack(Fill(s).(out := []))
  {
    FillHoldsNothingBack(s);
  }

  lemma TickIsPrompt(c: Conn, ms: nat)
    requires SenderInv(c.tx) && Prompt(c)
    ensures Prompt(TickConn(c, ms))
  {
    hide StampAll, BothDone, NothingHeldBack, Tick, SeqInv, TimerInv, RenoInv;
    var s' := Tick(c.tx, ms);
    TickHoldsNothingBack(c.tx, ms);
    SameNeeds(s', s'.(out := []));
    SameNeeds(s', FailStream(s'.(out := [])));
  }

  /** A timeout shrinks the congestion window and opens none. */
  lemma TickHoldsNothingBack(s: Sender, ms: nat)
    requires RenoInv(s)
    ensures Tick(s, ms).synSent == s.synSent && (NothingHeldBack(s) ==> NothingHeldBack(Tick(s, ms)))
  {
  }

  lemma DeliverIsPrompt(w: World, p: Packet)
    requires Inv(w) && LegalAtA(w, OpDeliver(p)) && Prompt(w.a)
    ensures Prompt(StepAtA(w, OpDeliver(p)).1.a)
  {
    hide SeqInv, TimerInv, Agrees, Passive, PacketsOk, TakeAck, Respond, NothingHeldBack;
    if p.seg.header.rst {
      ResetTakesEffect(w.a, p.seg);
      SameNeeds(w.a.tx, SegmentReceived(w.a, p.seg).1.tx);
    } else {
      DeliverUnfolds(w, p);
      var c := w.a.(sinceLast := 0, rx := Receive(w.a.rx, p.seg).1);
      TakeAckIsPrompt(c, p.seg);
      AfterAck(c, p.seg);
      RespondIsPrompt(TakeAck(c, p.seg), p.seg);
    }
  }

  lemma SameNeeds(s: Sender, s': Sender)
    requires s' == s.(stream := s.stream.(error := s'.stream.error), out := s'.out)
    ensures NothingHeldBack(s') == NothingHeldBack(s)
  {
  }

  lemma TakeAckIsPrompt(c: Conn, seg: Segment)
    requires SenderInv(c.tx) && Prompt(c)
    ensures Prompt(TakeAck(c, seg))
  {
    hide SeqInv, TimerInv, Acknowledge, Fill, Unwrap, NothingHeldBack;
    if seg.header.ack {
      var ack := Unwrap(seg.header.ackno, c.tx.isn, c.tx.next);
      AcknowledgeKeeps(c.tx, ack, seg.header.win);
      FillHoldsNothingBack(Acknowledge(c.tx, ack, seg.header.win));
    }
  }

  lemma RespondIsPrompt(c: Conn, seg: Segment)
    requires SenderInv(c.tx) && Prompt(c)
    ensures Prompt(Respond(c, seg))
  {
    hide SeqInv, TimerInv, Fill, StampAll, NothingHeldBack, BothDone, NeedsEmptyAck, SummarizeSender,
         SummarizeReceiver;
    FillIsPrompt(c.tx);
    SameNeeds(c.tx, c.tx.(out := []));
  }

  lemma {:induction false} RunIsPrompt(w: World, actions: seq<Action>)
    requires Inv(w) && LegalRun(w, actions) && Prompt(w.a) && Prompt(w.b)
    ensures var w' := TwoEndpoints.Run(w, actions); Prompt(w'.a) && Prompt(w'.b)
    decreases |actions|
  {
    hide FlagsOk, PacketsOk, Passive, SeqInv, TimerInv, Prompt, StepAtA, LegalAtA;
    if actions != [] {
      var w1 := if actions[0].atA then w else Swap(w);
      StepIsPrompt(w1, actions[0].op);
      OtherSide(w1, actions[0].op);
      StepKeepsInv(w, actions[0]);
      RunIsPrompt(TwoEndpoints.Step(w, actions[0]).1, actions[1..]);
    }
  }

  /** In every world that two fresh endpoints reach, whatever the network did, an endpoint
      that has sent its SYN holds nothing back. */
  lemma NeverHoldsBack(a: Config, b: Config, actions: seq<Action>)
    requires a.recvCapacity > 0 && b.recvCapacity > 0
    requires LegalRun(Start(a, b), actions)
    ensures var w := TwoEndpoints.Run(Start(a, b), actions);
            && (w.a.tx.synSent ==> NothingHeldBack(w.a.tx))
            && (w.b.tx.synSent ==> NothingHeldBack(w.b.tx))
  {
    hide TwoEndpoints.Run, LegalRun;
    RunIsPrompt(Start(a, b), actions);
  }

  // ---------- The queue ----------

  lemma {:induction false} StampsInOrder(rx: Receiver, q: seq<Tagged>, k: nat)
    requires k < |q|
    ensures |StampAll(rx, q)| == |q| && StampAll(rx, q)[k] == Stamp(rx, q[k])
  {
    if k > 0 { StampsInOrder(rx, q[1..], k - 1); } else if |q| > 1 { StampsInOrder(rx, q[1..], 0); }
  }

  /** Segments leave in the order in which the sender made them, behind what was already
      queued, and change only in acknowledgment and window. */
  lemma FlushInOrder(c: Conn, k: nat)
    requires k < |c.tx.out|
    ensures var c' := Flush(c);
            && |c'.out| == |c.out| + |c.tx.out| && c.out <= c'.out && c'.tx.out == []
            && var p, t := c'.out[|c.out| + k], c.tx.out[k];
               && p.abs == t.abs && p.seg.payload == t.seg.payload
               && p.seg.header == t.seg.header.(ack := p.seg.header.ack, ackno := p.seg.header.ackno,
                                                win := p.seg.header.win)
  {
    StampsInOrder(c.rx, c.tx.out, k);
  }

  // ---------- The advertised window ----------

  /** A step keeps everything ever queued, in the network or in the queue. */
  lemma StepKeepsPackets(w: World, op: TwoEndpoints.Op)
    requires Inv(w) && LegalAtA(w, op)
    ensures var w' := StepAtA(w, op).1;
            && Queues(w.a, w'.a)
            && forall p :: p in w.fromA || p in w.a.out ==> p in w'.fromA || p in w'.a.out
  {
    NetworkCopies.Network(w, op);
    match op {
      case OpDeliver(p) => NetworkCopies.DeliverExtends(w, p);
      case _ => NetworkCopies.OwnStepExtends(w, op);
    }
  }

  lemma {:induction false} RunKeepsPackets(w: World, actions: seq<Action>, p: Packet)
    requires Inv(w) && LegalRun(w, actions) && (p in w.fromA || p in w.a.out)
    ensures var w' := TwoEndpoints.Run(w, actions); p in w'.fromA || p in w'.a.out
    decreases |actions|
  {
    hide FlagsOk, PacketsOk, Passive, SeqInv, TimerInv, StepAtA, LegalAtA;
    if actions != [] {
      if actions[0].atA { StepKeepsPackets(w, actions[0].op); } else { OtherSide(Swap(w), actions[0].op); }
      StepKeepsInv(w, actions[0]);
      RunKeepsPackets(TwoEndpoints.Step(w, actions[0]).1, actions[1..], p);
    }
  }

  /** Section 4.2.2.16 of RFC 1122: what has been offered is never taken back. However many
      steps later an endpoint queues a packet, it acknowledges at least as much as every
      packet before it and lets the peer send at least as far. */
  lemma WindowNeverShrinks(w: World, actions: seq<Action>, op: TwoEndpoints.Op, p: Packet, q: Packet)
    requires Inv(w) && LegalRun(w, actions) && (p in w.fromA || p in w.a.out)
    requires (RunKeepsInv(w, actions);
              var w1 := TwoEndpoints.Run(w, actions);
              LegalAtA(w1, op) && q in StepAtA(w1, op).1.a.out && q !in w1.a.out)
    requires p.seg.header.ack && !q.seg.header.rst
    ensures q.seg.header.ack && p.absAck <= q.absAck
    ensures p.absAck + p.seg.header.win <= q.absAck + q.seg.header.win
  {
    RunKeepsInv(w, actions);
    RunKeepsPackets(w, actions, p);
    var w1 := TwoEndpoints.Run(w, actions);
    hide TwoEndpoints.Run, LegalRun;
    StepKeepsPackets(w1, op);
    StepAtAKeepsInv(w1, op);
    var w' := StepAtA(w1, op).1;
    hide StepAtA, LegalAtA;
    LaterOffer(w', p, q);
  }

  lemma LaterOffer(w: World, p: Packet, q: Packet)
    requires Inv(w) && (p in w.fromA || p in w.a.out) && p.seg.header.ack
    requires NewPacket(w.a, q) && !q.seg.header.rst
    ensures q.seg.header.ack && p.absAck <= q.absAck
    ensures p.absAck + p.seg.header.win <= q.absAck + q.seg.header.win
  {
    hide SeqInv, Carries, Passive;
    assert PacketOk(w.a.tx, w.a.rx, p);
  }

  // ---------- Flags and the clock ----------

  /** What a segment without a reset does to the flags: the peer's end before the own FIN
      makes the endpoint the passive one, and an endpoint that is passive is done when the
      last acknowledgment comes. */
  lemma SegmentFlags(c: Conn, seg: Segment)
    requires SenderInv(c.tx) && !seg.header.rst && Receive(c.rx, seg).0 == Ok
    ensures var rx, tx, c' := Receive(c.rx, seg).1, TakeAck(c, seg).tx, SegmentReceived(c, seg).1;
            && c'.sinceLast == 0
            && (c'.linger <==> c.linger && !(SawEnd(rx) && !tx.stream.error && Unacked(tx) > 0 && !tx.finSent))
            && (c'.active <==> c.active && !(!c.linger && SawEnd(rx) && !tx.stream.error && Finishes(c.tx, seg)))
  {
    hide SeqInv, TimerInv, Receive, TakeAck, Finishes, NeedsEmptyAck, Flush;
    var c1 := c.(sinceLast := 0, rx := Receive(c.rx, seg).1);
    AfterAck(c1, seg);
    SameAck(c, c1, seg);
    FinishesIff(c1, seg);
    RespondFlags(TakeAck(c1, seg), seg);
  }

  lemma SameAck(c: Conn, c1: Conn, seg: Segment)
    requires RenoInv(c.tx) && c1.tx == c.tx
    ensures TakeAck(c, seg).tx == TakeAck(c1, seg).tx
  {
  }

  lemma RespondFlags(c: Conn, seg: Segment)
    requires SenderInv(c.tx)
    ensures var c' := Respond(c, seg);
            && c'.sinceLast == c.sinceLast
            && (c'.linger <==>
                  c.linger && !(SawEnd(c.rx) && !c.tx.stream.error && Unacked(c.tx) > 0 && !c.tx.finSent))
            && (c'.active <==>
                  c.active && !(!c.linger && SawEnd(c.rx) && !c.tx.stream.error && AllAcked(c.tx)))
  {
    SummariesMean(c);
    SummariesMean(NotePassiveClose(c));
    hide SeqInv, TimerInv, RenoInv, Fill, StampAll, NeedsEmptyAck, SummarizeSender, SummarizeReceiver;
  }

  /** The ticks of an endpoint since it was last given a segment. */
  function SinceSegment(actions: seq<Action>, atA: bool, time: nat): nat
    decreases |actions|
  {
    if actions == [] then time
    else SinceSegment(actions[1..], atA,
                      if actions[0].atA != atA then time
                      else match actions[0].op
                           case OpTick(ms) => time + ms
                           case OpDeliver(_) => 0
                           case _ => time)
  }

  lemma StepCountsTime(w: World, op: TwoEndpoints.Op)
    requires Inv(w) && LegalAtA(w, op)
    ensures StepAtA(w, op).1.a.sinceLast == match op
                                            case OpTick(ms) => w.a.sinceLast + ms
                                            case OpDeliver(_) => 0
                                            case _ => w.a.sinceLast
  {
    hide SeqInv, TimerInv, Agrees, Passive, PacketsOk, Fill, StampAll, BothDone, TakeAck, Respond;
    match op {
      case OpDeliver(p) =>
        if !p.seg.header.rst {
          DeliverUnfolds(w, p);
          var c := w.a.(sinceLast := 0, rx := Receive(w.a.rx, p.seg).1);
          AfterAck(c, p.seg);
          RespondFlags(TakeAck(c, p.seg), p.seg);
        }
      case _ =>
    }
  }

  lemma {:induction false} RunCountsTime(w: World, actions: seq<Action>, atA: bool)
    requires Inv(w) && LegalRun(w, actions)
    ensures EndpointHistories.Side(TwoEndpoints.Run(w, actions), atA).a.sinceLast
            == SinceSegment(actions, atA, EndpointHistories.Side(w, atA).a.sinceLast)
    decreases |actions|
  {
    hide FlagsOk, PacketsOk, Passive, SeqInv, TimerInv, StepAtA, LegalAtA;
    if actions != [] {
      var w1 := if actions[0].atA then w else Swap(w);
      StepCountsTime(w1, actions[0].op);
      OtherSide(w1, actions[0].op);
      StepKeepsInv(w, actions[0]);
      RunCountsTime(TwoEndpoints.Step(w, actions[0]).1, actions[1..], atA);
    }
  }

  /** A tick ends an endpoint in peace exactly if it lingers, both streams are done, and ten
      initial timeouts have passed since a segment last came. */
  lemma StopsIff(c: Conn, ms: nat)
    requires SenderInv(c.tx) && FlagsOk(c) && c.active
    ensures var c' := TickConn(c, ms);
            !c'.active && !Failed(c') <==>
              c.linger && SawEnd(c.rx) && AllAcked(c.tx) && c.sinceLast + ms >= 10 * c.tx.initialRto
  {
    GivesUpIff(c, ms);
    TickKeeps(c.tx, ms);
    var c1 := c.(sinceLast := c.sinceLast + ms, tx := Tick(c.tx, ms));
    SummariesMean(Flush(c1)) by { FlushEvolves(c1); }
    if AllAcked(c.tx) { Recency.NothingOutstanding(c.tx); }
    hide StampAll, SeqInv, TimerInv, RenoInv, BothDone;
  }

  /** In every run: an endpoint whose two streams are done stays for ten initial timeouts
      after the last segment it was given, and goes with the tick that completes them. */
  lemma LingersLongEnough(a: Config, b: Config, actions: seq<Action>, atA: bool, ms: nat)
    requires a.recvCapacity > 0 && b.recvCapacity > 0
    requires LegalRun(Start(a, b), actions)
    requires EndpointHistories.Side(TwoEndpoints.Run(Start(a, b), actions), atA).a.active
    ensures var x := EndpointHistories.Side(TwoEndpoints.Run(Start(a, b), actions), atA).a;
            var x' := TickConn(x, ms);
            !x'.active && !Failed(x') <==>
              && x.linger && SawEnd(x.rx) && AllAcked(x.tx)
              && SinceSegment(actions, atA, 0) + ms >= 10 * (if atA then a else b).rto
  {
    hide TickConn, Half;
    RunCountsTime(Start(a, b), actions, atA);
    RunKeepsInv(Start(a, b), actions);
    var h := EndpointHistories.EndpointsHaveHistories(a, b, actions, atA);
    SenderHistory.ReachedInv(EndpointHistories.NewHistory(if atA then a else b), h);
    hide TwoEndpoints.Run, LegalRun, SenderHistory.Reached, SenderHistory.Inv;
    var w := TwoEndpoints.Run(Start(a, b), actions);
    HalfFacts(w.a, w.b, w.fromA);
    HalfFacts(w.b, w.a, w.fromB);
    StopsIff(EndpointHistories.Side(w, atA).a, ms);
  }

  lemma HalfFacts(x: Conn, y: Conn, net: set<Packet>)
    requires Half(x, y, net)
    ensures SenderInv(x.tx) && FlagsOk(x)
  {
  }
}
