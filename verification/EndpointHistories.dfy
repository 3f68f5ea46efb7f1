/** The sender inside every endpoint of a run is the sender of some run of its own, so what
    holds of every sender run holds of every endpoint. */
module EndpointHistories {
  import opened WrappingIntegers
  import opened ByteStreams
  import opened TcpSegments
  import opened Receivers
  import opened SenderModel
  import opened SenderInvariants
  import opened SenderRuns
  import SenderHistory
  import opened ConnectionModel
  import opened Endpoints
  import opened TwoEndpoints

  /** The ticks since an acknowledgment last released something, after one more operation. */
  function SilenceAfter(x: Conn, op: TwoEndpoints.Op, x': Conn, silence: nat): nat {
    if Unacked(x'.tx) > Unacked(x.tx) then 0
    else if op.OpTick? then silence + op.ms
    else silence
  }

  // ---------- One endpoint operation as sender operations ----------

  /** `h` is a history of the sender `s`. */
  ghost predicate Follows(from: SenderHistory.History, h: SenderHistory.History, s: Sender) {
    SenderHistory.Reached(from, h) && h.s == s && SenderInv(s)
  }

  /** One sender operation. */
  lemma SenderStep(from: SenderHistory.History, h: SenderHistory.History, op: SenderHistory.Op)
    returns (h': SenderHistory.History)
    requires SenderHistory.Reached(from, h) && SenderInv(h.s) && SenderHistory.Legal(h, op)
    ensures Follows(from, h', SenderHistory.StepSender(h.s, op))
    ensures h'.quiet == SenderHistory.QuietAfter(h, op)
  {
    hide SenderHistory.Reached, SenderHistory.StepSender, SenderHistory.FirstSent, SenderHistory.QuietAfter,
         SenderHistory.DupsAfter, SenderHistory.Legal;
    h' := SenderHistory.Step(h, op);
    SenderHistory.ReachedStep(from, h, op);
    SenderHistory.StepKeepsSender(h.s, op) by { LegalWrite(h, op); }
  }

  lemma LegalWrite(h: SenderHistory.History, op: SenderHistory.Op)
    requires SenderHistory.Legal(h, op)
    ensures op.OpWrite? ==> !TooLate(h.s, op.data)
  {
  }

  lemma FillAndDrain(from: SenderHistory.History, h: SenderHistory.History, s: Sender)
    returns (h': SenderHistory.History)
    requires Follows(from, h, s)
    ensures Follows(from, h', Fill(s).(out := [])) && h'.quiet == h.quiet
  {
    hide SenderInv, SenderHistory.Reached, Fill;
    h' := SenderStep(from, h, SenderHistory.OpFill);
    h' := SenderStep(from, h', SenderHistory.OpDrain);
  }

  lemma OwnStepFollows(from: SenderHistory.History, h: SenderHistory.History, c: Conn, op: TwoEndpoints.Op, c': Conn)
    returns (h': SenderHistory.History)
    requires Follows(from, h, c.tx)
    requires match op
             case OpConnect => c' == Connect(c)
             case OpWrite(data) => c' == WriteData(c, data) && !TooLate(c.tx, data)
             case OpEnd => c' == EndInputStream(c)
             case OpRead(n) => c'.tx == c.tx
             case OpTransmit => c'.tx == c.tx
             case _ => false
    ensures Follows(from, h', c'.tx) && h'.quiet == h.quiet
  {
    hide SenderInv, SenderHistory.Reached, Fill, StampAll, TooLate;
    match op
    case OpConnect => h' := FillAndDrain(from, h, c.tx);
    case OpWrite(data) =>
      h' := SenderStep(from, h, SenderHistory.OpWrite(data));
      h' := FillAndDrain(from, h', WriteStream(c.tx, data));
    case OpEnd =>
      h' := SenderStep(from, h, SenderHistory.OpEnd);
      h' := FillAndDrain(from, h', EndStream(c.tx));
    case _ => h' := h;
  }

  lemma TickFollows(from: SenderHistory.History, h: SenderHistory.History, c: Conn, ms: nat)
    returns (h': SenderHistory.History)
    requires Follows(from, h, c.tx)
    ensures Follows(from, h', TickConn(c, ms).tx) && h'.quiet == h.quiet + ms
  {
    hide SenderInv, SenderHistory.Reached, Tick, StampAll, BothDone;
    h' := SenderStep(from, h, SenderHistory.OpTick(ms));
    h' := SenderStep(from, h', SenderHistory.OpDrain);
    if Tick(c.tx, ms).retx > MAX_RETX_ATTEMPTS {
      h' := SenderStep(from, h', SenderHistory.OpFail);
    }
  }

  lemma RespondFollows(from: SenderHistory.History, h: SenderHistory.History, c: Conn, seg: Segment)
    returns (h': SenderHistory.History)
    requires Follows(from, h, c.tx)
    ensures Follows(from, h', Respond(c, seg).tx) && h'.quiet == h.quiet
  {
    hide SenderInv, SenderHistory.Reached, Fill, StampAll, BothDone, NeedsEmptyAck, SummarizeReceiver, SummarizeSender;
    if SummarizeReceiver(c.rx) == SynReceived && SummarizeSender(c.tx) == Closed {
      h' := FillAndDrain(from, h, c.tx);
    } else {
      var c1 := NotePassiveClose(c);
      h' := h;
      if !(!c1.linger && BothDone(c1)) {
        if NeedsEmptyAck(c1, seg) { h' := SenderStep(from, h', SenderHistory.OpEmpty); }
        h' := SenderStep(from, h', SenderHistory.OpDrain);
      }
    }
  }

  /** The silence ends exactly when the sender's own count of it is reset. */
  lemma TakeAckFollows(from: SenderHistory.History, h: SenderHistory.History, c: Conn, seg: Segment)
    returns (h': SenderHistory.History)
    requires Follows(from, h, c.tx)
    ensures RenoInv(c.tx) && Follows(from, h', TakeAck(c, seg).tx)
    ensures h'.quiet == if Unacked(TakeAck(c, seg).tx) > Unacked(c.tx) then 0 else h.quiet
  {
    hide SeqInv, TimerInv, SenderHistory.Reached, ReceiveAck, Unwrap, PopAcked;
    h' := h;
    if seg.header.ack {
      h' := SenderStep(from, h, SenderHistory.OpAck(seg.header.ackno, seg.header.win));
      AckKeeps(c.tx, seg.header.ackno, seg.header.win);
      PopKeeps(c.tx, Unwrap(seg.header.ackno, c.tx.isn, c.tx.next));
    }
  }

  lemma DeliverFollows(from: SenderHistory.History, h: SenderHistory.History, w: World, p: Packet)
    returns (h': SenderHistory.History)
    requires Inv(w) && LegalAtA(w, OpDeliver(p)) && Follows(from, h, w.a.tx)
    ensures var x' := StepAtA(w, OpDeliver(p)).1.a;
            && Follows(from, h', x'.tx)
            && h'.quiet == if Unacked(x'.tx) > Unacked(w.a.tx) then 0 else h.quiet
  {
    if p.seg.header.rst {
      h' := SenderStep(from, h, SenderHistory.OpFail);
    } else {
      hide Half, Follows, StepAtA, Receive, TakeAck, Respond;
      DeliverUnfolds(w, p);
      var x := w.a.(sinceLast := 0);
      var x1 := x.(rx := Receive(x.rx, p.seg).1);
      h' := TakeAckFollows(from, h, x1, p.seg);
      assert FlagsOk(x1) && SenderInv(x1.tx) by { ReceivedFlags(w, p); }
      TakeAckEvolves(x1, p.seg);
      h' := RespondFollows(from, h', TakeAck(x1, p.seg), p.seg);
      RespondEvolves(TakeAck(x1, p.seg), p.seg);
    }
  }

  /** Every operation of an endpoint is some sequence of operations of its sender, and the
      sender has been silent for as long as the endpoint. */
  lemma StepFollows(from: SenderHistory.History, h: SenderHistory.History, w: World, op: TwoEndpoints.Op)
    returns (h': SenderHistory.History)
    requires Inv(w) && LegalAtA(w, op) && Follows(from, h, w.a.tx)
    ensures var x' := StepAtA(w, op).1.a;
            Follows(from, h', x'.tx) && h'.quiet == SilenceAfter(w.a, op, x', h.quiet)
  {
    hide Follows, PacketsOk, Passive;
    match op
    case OpDeliver(p) => h' := DeliverFollows(from, h, w, p);
    case OpTick(ms) =>
      h' := TickFollows(from, h, w.a, ms);
      TickEvolves(w.a, ms);
    case _ =>
      h' := OwnStepFollows(from, h, w.a, op, StepAtA(w, op).1.a);
      OwnStepSameUnacked(w, op);
  }

  lemma OwnStepSameUnacked(w: World, op: TwoEndpoints.Op)
    requires Inv(w) && LegalAtA(w, op) && !op.OpDeliver? && !op.OpTick?
    ensures Unacked(StepAtA(w, op).1.a.tx) == Unacked(w.a.tx)
  {
    hide SeqInv, TimerInv, RenoInv, PacketsOk, Passive, Fill, Flush;
    match op
    case OpConnect => ConnectEvolves(w.a);
    case OpWrite(data) => WriteEvolves(w.a, data);
    case OpEnd => EndEvolves(w.a);
    case _ =>
  }

  // ---------- Whole runs ----------

  /** The world as one of its endpoints sees it. */
  function Side(w: World, atA: bool): World { if atA then w else Swap(w) }

  /** The ticks of endpoint `a`, or `b`, since an acknowledgment last released something. */
  ghost function Silence(w: World, actions: seq<Action>, atA: bool, silence: nat): nat
    requires Inv(w) && LegalRun(w, actions)
    decreases |actions|
  {
    if actions == [] then silence
    else
      StepKeepsInv(w, actions[0]);
      var w' := TwoEndpoints.Step(w, actions[0]).1;
      Silence(w', actions[1..], atA,
              if actions[0].atA == atA then SilenceAfter(Side(w, atA).a, actions[0].op, Side(w', atA).a, silence)
              else silence)
  }

  lemma {:induction false} RunFollows(from: SenderHistory.History, h: SenderHistory.History, w: World,
                                      actions: seq<Action>, atA: bool)
    returns (h': SenderHistory.History)
    requires Inv(w) && LegalRun(w, actions) && Follows(from, h, Side(w, atA).a.tx)
    ensures Follows(from, h', Side(TwoEndpoints.Run(w, actions), atA).a.tx)
    ensures h'.quiet == Silence(w, actions, atA, h.quiet)
    decreases |actions|
  {
    hide Follows, FlagsOk, PacketsOk, Passive, SeqInv, TimerInv, StepAtA, SilenceAfter;
    h' := h;
    if actions != [] {
      StepKeepsInv(w, actions[0]);
      var w1 := TwoEndpoints.Step(w, actions[0]).1;
      if actions[0].atA == atA {
        h' := StepFollows(from, h, Side(w, atA), actions[0].op);
      } else {
        OtherStays(w, actions[0]);
      }
      h' := RunFollows(from, h', w1, actions[1..], atA);
    }
  }

  lemma OtherStays(w: World, action: Action)
    requires Inv(w) && Legal(w, action)
    ensures Side(TwoEndpoints.Step(w, action).1, !action.atA).a == Side(w, !action.atA).a
  {
    hide Half;
    StepKeepsInv(w, action);
  }

  /** The history of a fresh sender with the settings of an endpoint. */
  function NewHistory(c: Config): SenderHistory.History {
    SenderHistory.Start(c.sendCapacity, c.rto, c.isn, c.congestionControl)
  }

  /** In every run of two fresh endpoints, each endpoint's sender has a history of its own
      that started when it did and has been silent for as long; so the sequence space, the
      back-off, fast recovery and the first transmissions are as in every sender run. */
  lemma EndpointsHaveHistories(a: Config, b: Config, actions: seq<Action>, atA: bool)
    returns (h: SenderHistory.History)
    requires a.recvCapacity > 0 && b.recvCapacity > 0
    requires LegalRun(Start(a, b), actions)
    ensures SenderHistory.Reached(NewHistory(if atA then a else b), h) && SenderHistory.Inv(h)
    ensures h.s == Side(TwoEndpoints.Run(Start(a, b), actions), atA).a.tx
    ensures h.quiet == Silence(Start(a, b), actions, atA, 0)
  {
    var from := NewHistory(if atA then a else b);
    SenderHistory.ReachedStart(from);
    hide TwoEndpoints.Run, LegalRun, Silence, SenderHistory.Reached, SenderHistory.Inv;
    assert Follows(from, from, Side(Start(a, b), atA).a.tx);
    h := RunFollows(from, from, Start(a, b), actions, atA);
    SenderHistory.ReachedInv(from, h);
  }

  // ---------- Giving up ----------

  lemma ResetAfterNinth(c: Conn, ms: nat)
    requires c.active && FlagsOk(c) && Failed(TickConn(c, ms))
    ensures Tick(c.tx, ms).retx == 9 && Tick(c.tx, ms).initialRto == c.tx.initialRto
  {
    hide StampAll, BothDone;
  }

  /** In every run of two fresh endpoints, an active endpoint that resets the connection on a
      tick has seen at least 511 initial timeouts of ticks without any acknowledgment
      releasing a segment. */
  lemma ResetMeansSilence(a: Config, b: Config, actions: seq<Action>, atA: bool, ms: nat)
    requires a.recvCapacity > 0 && b.recvCapacity > 0
    requires LegalRun(Start(a, b), actions)
    requires var x := Side(TwoEndpoints.Run(Start(a, b), actions), atA).a;
             x.active && Failed(TickConn(x, ms))
    ensures Silence(Start(a, b), actions, atA, 0) + ms >= 511 * (if atA then a else b).rto
  {
    hide TwoEndpoints.Run, LegalRun, Silence, SenderHistory.Reached, SenderHistory.Inv, Start, TickConn, Half,
         SenderHistory.FirstSent, Tick;
    var w := TwoEndpoints.Run(Start(a, b), actions);
    var x := Side(w, atA).a;
    RunKeepsInv(Start(a, b), actions);
    var h := EndpointsHaveHistories(a, b, actions, atA);
    ResetHalf(x, h, ms, w, atA);
    SenderHistory.ReachedInv(NewHistory(if atA then a else b), h);
  }

  lemma ResetHalf(x: Conn, h: SenderHistory.History, ms: nat, w: World, atA: bool)
    requires SenderHistory.Inv(h) && h.s == x.tx && Inv(w) && x == Side(w, atA).a
    requires x.active && Failed(TickConn(x, ms))
    ensures h.quiet + ms >= 511 * x.tx.initialRto
  {
    ResetAfterNinth(x, ms);
    var h' := SenderHistory.Step(h, SenderHistory.OpTick(ms));
    SenderHistory.StepKeepsInv(h, SenderHistory.OpTick(ms));
    hide SenderHistory.Inv, SenderHistory.FirstSent, TickConn, Tick, Inv;
    assert h'.s == Tick(x.tx, ms);
    SenderHistory.GivingUpTakesTime(h');
  }
}
