/** Whole runs of a sender, driven by arbitrary writes, acknowledgments and clock ticks,
    with two counters that the program itself does not keep. */
module SenderHistory {
  import opened FixedWidth
  import opened WrappingIntegers
  import opened ByteStreams
  import opened TcpSegments
  import opened SenderModel
  import opened SenderInvariants
  import opened SenderRuns

  datatype Op =
    | OpWrite(data: seq<byte>)
    | OpEnd
    | OpFill
    | OpAck(ackno: u32, window: u16)
    | OpTick(ms: nat)
    | OpEmpty
    | OpDrain
    | OpFail

  /** `quiet` is the time in milliseconds since an acknowledgment last released a segment;
      `dups` the number of duplicate acknowledgments counted since the last reset; `first`
      the segments sent for the first time, in order. */
  datatype History = History(s: Sender, quiet: nat, dups: nat, first: seq<Tagged>)

  /** Nothing is written after the end of the stream has been sent. */
  predicate Legal(h: History, op: Op) { op.OpWrite? ==> !TooLate(h.s, op.data) }

  /** The acknowledgment is acceptable and releases something. */
  predicate Releases(s: Sender, ack: nat) { ack <= s.next && PopAcked(s, ack).inFlight < s.inFlight }

  /** The acknowledgment is counted as a duplicate. */
  predicate Duplicate(s: Sender, ack: nat) {
    s.reno.enabled && ack <= s.next && !Releases(s, ack) && ack == s.reno.lastAck && s.outstanding != []
  }

  predicate TimesOut(s: Sender, ms: nat) { s.timer.Tick(ms).Expired() && s.outstanding != [] }

  /** The segments that an operation sends for the first time. */
  function FirstSent(s: Sender, op: Op): seq<Tagged>
    requires SenderInv(s)
  {
    match op
    case OpFill =>
      FillKeeps(s, EffectiveWindow(s));
      Batch(s, Fill(s))
    case OpAck(ackno, window) =>
      var ack := Unwrap(ackno, s.isn, s.next);
      if ack > s.next then []
      else
        AcknowledgeKeeps(s, ack, window);
        FillKeeps(Acknowledge(s, ack, window), EffectiveWindow(Acknowledge(s, ack, window)));
        Batch(Acknowledge(s, ack, window), ReceiveAck(s, ackno, window))
    case _ => []
  }

  /** The segments that an operation sends again. */
  function Resent(s: Sender, op: Op): seq<Tagged>
    requires SenderInv(s)
  {
    match op
    case OpAck(ackno, window) =>
      if ReceiveAck(s, ackno, window).reno.inRecovery && !s.reno.inRecovery
      then s.outstanding[..Min(1, |s.outstanding|)] else []
    case OpTick(ms) => if TimesOut(s, ms) then s.outstanding[..1] else []
    case _ => []
  }

  function StepSender(s: Sender, op: Op): Sender
    requires RenoInv(s)
  {
    match op
    case OpWrite(data) => WriteStream(s, data)
    case OpEnd => EndStream(s)
    case OpFill => Fill(s)
    case OpAck(ackno, window) => ReceiveAck(s, ackno, window)
    case OpTick(ms) => Tick(s, ms)
    case OpEmpty => SendEmpty(s)
    case OpDrain => s.(out := [])
    case OpFail => FailStream(s)
  }

  function Step(h: History, op: Op): History
    requires SenderInv(h.s)
  {
    History(StepSender(h.s, op), QuietAfter(h, op), DupsAfter(h, op), h.first + FirstSent(h.s, op))
  }

  function QuietAfter(h: History, op: Op): nat {
    match op
    case OpAck(ackno, _) => if Releases(h.s, Unwrap(ackno, h.s.isn, h.s.next)) then 0 else h.quiet
    case OpTick(ms) => h.quiet + ms
    case _ => h.quiet
  }

  function DupsAfter(h: History, op: Op): nat {
    match op
    case OpAck(ackno, _) =>
      var ack := Unwrap(ackno, h.s.isn, h.s.next);
      if Releases(h.s, ack) then 0 else if Duplicate(h.s, ack) then h.dups + 1 else h.dups
    case OpTick(ms) => if TimesOut(h.s, ms) then 0 else h.dups
    case _ => h.dups
  }

  // ---------- Invariants ----------

  /** Backing off takes time: unless the timeout has overflowed 32 bits, the silence has
      lasted for all the timeouts so far and the time on the timer. */
  ghost predicate QuietInv(h: History) {
    h.s.retx <= 16 ==>
      h.quiet >= h.s.initialRto * (Pow2(h.s.retx) - 1) + (if h.s.timer.running then h.s.timer.count else 0)
  }

  /** Fast recovery is on exactly from the third duplicate on, and then the window is the
      threshold plus one maximal segment per duplicate, until the 32-bit count wraps. */
  ghost predicate Recovering(r: Reno, dups: nat) {
    && r.dupAcks == dups % TWO_32
    && (r.inRecovery <==> dups >= 3)
    && (r.inRecovery ==>
          && r.cwnd <= r.ssthresh + dups * MAX_PAYLOAD_SIZE
          && (r.cwnd == r.ssthresh + dups * MAX_PAYLOAD_SIZE <==> dups < TWO_32))
  }

  ghost predicate RecoveryInv(h: History) {
    if h.s.reno.enabled then Recovering(h.s.reno, h.dups) else !h.s.reno.inRecovery
  }

  /** The first transmissions cover the sequence space from zero on without gaps, their
      payloads join up to the bytes read, and the outstanding segments are the last ones. */
  ghost predicate FirstInv(s: Sender, first: seq<Tagged>) {
    && Chain(first, 0, s.next)
    && Payloads(first) == s.stream.all[..s.stream.read]
    && |s.outstanding| <= |first|
    && s.outstanding == first[|first| - |s.outstanding|..]
  }

  ghost predicate Inv(h: History) { SenderInv(h.s) && QuietInv(h) && RecoveryInv(h) && FirstInv(h.s, h.first) }

  lemma StepKeepsSender(s: Sender, op: Op)
    requires SenderInv(s) && (op.OpWrite? ==> !TooLate(s, op.data))
    ensures SenderInv(StepSender(s, op)) && Grows(s, StepSender(s, op))
  {
    match op
    case OpWrite(data) => WriteKeeps(s, data);
    case OpEnd => EndKeeps(s);
    case OpFill => FillKeepsAll(s);
    case OpAck(ackno, window) => AckKeeps(s, ackno, window);
    case OpTick(ms) => TickKeeps(s, ms);
    case OpEmpty => SendEmptyKeeps(s);
    case OpDrain => DropOutput(s);
    case OpFail => ErrorKeeps(s);
  }

  // ---------- Fast recovery ----------

  lemma DupAckRecovery(r: Reno, dups: nat)
    requires Recovering(r, dups)
    ensures Recovering(OnDupAck(r), dups + 1)
    ensures OnDupAck(r).inRecovery && !r.inRecovery <==> dups == 2
  {
    assert (dups + 1) % TWO_32 == if dups % TWO_32 == TWO_32 - 1 then 0 else dups % TWO_32 + 1;
  }

  /** What an acceptable acknowledgment does to the congestion state and the timer. */
  lemma AcknowledgeEffect(s: Sender, ack: nat, window: u16)
    requires SenderInv(s) && ack <= s.next
    ensures var s' := Acknowledge(s, ack, window);
            && (if Releases(s, ack)
                then s'.retx == 0 && s'.timer.count == 0
                else s'.retx == s.retx && (s'.timer == s.timer || s'.timer == s.timer.Stop()))
            && s'.reno == (if !s.reno.enabled then s.reno
                           else if Releases(s, ack)
                           then OnNewAck(s.reno, s.inFlight - PopAcked(s, ack).inFlight).(lastAck := ack)
                           else if Duplicate(s, ack) then OnDupAck(s.reno)
                           else s.reno.(lastAck := ack))
            && (s'.reno.inRecovery && !s.reno.inRecovery ==> s'.outstanding == s.outstanding != [])
            && s'.out == (if s'.reno.inRecovery && !s.reno.inRecovery then s.out + [s.outstanding[0]] else s.out)
  {
    hide SeqInv, TimerInv, PopAcked, Increment;
    PopKeeps(s, ack);
  }

  /** The same through the filling of the window, which only starts a stopped timer. */
  lemma AckEffect(s: Sender, ackno: u32, window: u16)
    requires SenderInv(s)
    requires Unwrap(ackno, s.isn, s.next) <= s.next
    ensures var s1, s' := Acknowledge(s, Unwrap(ackno, s.isn, s.next), window), ReceiveAck(s, ackno, window);
            && s'.retx == s1.retx && s'.reno == s1.reno
            && (s1.timer.running ==> s'.timer == s1.timer)
            && (!s1.timer.running && s'.timer.running ==> s'.timer.count == 0)
  {
    hide Acknowledge;
    var ack := Unwrap(ackno, s.isn, s.next);
    AcknowledgeKeeps(s, ack, window);
    FillKeeps(Acknowledge(s, ack, window), EffectiveWindow(Acknowledge(s, ack, window)));
  }

  lemma StepKeepsRecovery(h: History, op: Op)
    requires SenderInv(h.s) && RecoveryInv(h)
    ensures RecoveryInv(Step(h, op))
  {
    hide Acknowledge, SeqInv, TimerInv, FirstSent;
    match op {
      case OpAck(ackno, window) => AckRecovery(h, ackno, window);
      case OpFill => FillKeeps(h.s, EffectiveWindow(h.s));
      case _ =>
    }
  }

  lemma AckRecovery(h: History, ackno: u32, window: u16)
    requires SenderInv(h.s) && RecoveryInv(h)
    ensures RecoveryInv(h.(s := ReceiveAck(h.s, ackno, window), dups := DupsAfter(h, OpAck(ackno, window))))
  {
    hide Acknowledge, SeqInv, TimerInv;
    var ack := Unwrap(ackno, h.s.isn, h.s.next);
    if ack <= h.s.next {
      AcknowledgeEffect(h.s, ack, window);
      AckEffect(h.s, ackno, window);
      if h.s.reno.enabled { DupAckRecovery(h.s.reno, h.dups); }
    }
  }

  // ---------- Backing off ----------

  lemma StepKeepsQuiet(h: History, op: Op)
    requires SenderInv(h.s) && QuietInv(h)
    ensures QuietInv(Step(h, op))
  {
    hide Acknowledge, SeqInv, TimerInv, FirstSent, Tick;
    match op {
      case OpAck(ackno, window) => AckQuiet(h, ackno, window);
      case OpFill => FillKeeps(h.s, EffectiveWindow(h.s));
      case OpTick(ms) => TickQuiet(h, ms);
      case _ =>
    }
  }

  lemma AckQuiet(h: History, ackno: u32, window: u16)
    requires SenderInv(h.s) && QuietInv(h)
    ensures QuietInv(h.(s := ReceiveAck(h.s, ackno, window), quiet := QuietAfter(h, OpAck(ackno, window))))
  {
    hide Acknowledge, SeqInv, TimerInv, ReceiveAck, Unwrap, PopAcked, OnNewAck, OnDupAck;
    var ack := Unwrap(ackno, h.s.isn, h.s.next);
    AckKeeps(h.s, ackno, window);
    if ack <= h.s.next {
      AcknowledgeEffect(h.s, ack, window);
      AckEffect(h.s, ackno, window);
      assert Pow2(0) == 1;
    }
  }

  lemma TickQuiet(h: History, ms: nat)
    requires SenderInv(h.s) && QuietInv(h)
    ensures QuietInv(h.(s := Tick(h.s, ms), quiet := h.quiet + ms))
  {
    hide Pow2;
    var s := h.s;
    if s.timer.Tick(ms).Expired() && s.outstanding != [] && s.window > 0 && s.retx < 16 {
      BackoffStep(s.initialRto, s.retx, h.quiet + ms, s.timer.Tick(ms).count, s.timer.timeout);
    }
  }

  /** A ninth consecutive retransmission, the first beyond the limit of eight, comes only
      after at least 511 initial timeouts without progress. */
  lemma GivingUpTakesTime(h: History)
    requires Inv(h) && 9 <= h.s.retx <= 16
    ensures h.quiet >= 511 * h.s.initialRto
  {
    PowBound(h.s.retx);
    ProductMonotone(h.s.initialRto, 511, Pow2(h.s.retx) - 1);
  }

  /** Up to sixteen retransmissions the 32-bit timeout has not overflowed. */
  lemma TimeoutIsExact(s: Sender)
    requires TimerInv(s) && s.retx <= 16
    ensures s.timer.timeout == s.initialRto * Pow2(s.retx)
  {
    PowBound(s.retx);
    NoOverflow(s.initialRto, Pow2(s.retx));
  }

  lemma BackoffStep(rto: nat, n: nat, quiet: nat, count: nat, timeout: nat)
    requires n < 16 && rto < TWO_16 && timeout == rto * Pow2(n) % TWO_32
    requires quiet >= rto * (Pow2(n) - 1) + count && count >= timeout
    ensures quiet >= rto * (Pow2(n + 1) - 1)
  {
    PowBound(n);
    NoOverflow(rto, Pow2(n));
    Distribute(rto, Pow2(n));
  }

  lemma NoOverflow(rto: nat, p: nat)
    requires rto < TWO_16 && p <= TWO_16
    ensures rto * p < TWO_32
  {
    ProductMonotone(rto, p, TWO_16);
  }

  lemma ProductMonotone(a: nat, b: nat, c: nat)
    requires b <= c
    ensures a * b <= a * c
  {
  }

  lemma Distribute(rto: nat, p: nat)
    ensures rto * (2 * p - 1) == rto * (p - 1) + rto * p
  {
  }

  lemma {:induction false} PowMonotone(m: nat, n: nat)
    requires m <= n
    ensures 1 <= Pow2(m) <= Pow2(n)
    decreases n
  {
    if m < n { PowMonotone(m, n - 1); } else if m > 0 { PowMonotone(m - 1, n - 1); }
  }

  lemma PowBound(n: nat)
    requires n <= 16
    ensures 1 <= Pow2(n) <= TWO_16
    ensures Pow2(9) == 512
    ensures n >= 9 ==> Pow2(n) >= 512
  {
    PowMonotone(n, 16);
    if n >= 9 { PowMonotone(9, n); }
    assert Pow2(4) == 16;
    assert Pow2(8) == 256;
    assert Pow2(12) == 4096;
    assert Pow2(16) == TWO_16;
  }

  // ---------- First transmissions and retransmissions ----------

  lemma {:induction false} ChainConcat(p: seq<Tagged>, q: seq<Tagged>, lo: int, mid: int, hi: int)
    requires Chain(p, lo, mid) && Chain(q, mid, hi)
    ensures Chain(p + q, lo, hi)
  {
    if p == [] {
      assert p + q == q;
    } else {
      assert (p + q)[1..] == p[1..] + q;
      ChainConcat(p[1..], q, p[0].End(), mid, hi);
    }
  }

  lemma {:induction false} ChainSuffix(p: seq<Tagged>, q: seq<Tagged>, lo: int, mid: int, hi: int)
    requires Chain(p, lo, mid) && Chain(p + q, lo, hi)
    ensures Chain(q, mid, hi)
  {
    if p == [] {
      assert p + q == q;
    } else {
      assert (p + q)[1..] == p[1..] + q;
      ChainSuffix(p[1..], q, p[0].End(), mid, hi);
    }
  }

  lemma {:induction false} PayloadsConcat(p: seq<Tagged>, q: seq<Tagged>)
    ensures Payloads(p + q) == Payloads(p) + Payloads(q)
  {
    if p == [] {
      assert p + q == q;
    } else {
      assert (p + q)[1..] == p[1..] + q;
      PayloadsConcat(p[1..], q);
    }
  }

  /** Filling extends the first transmissions by its batch. */
  lemma FillFirst(s: Sender, first: seq<Tagged>, window: nat)
    requires SeqInv(s) && FirstInv(s, first)
    ensures |s.outstanding| <= |FillFrom(s, window).outstanding|
    ensures FirstInv(FillFrom(s, window), first + Batch(s, FillFrom(s, window)))
  {
    hide FillFrom, Chain, Payloads, Carries;
    var s' := FillFrom(s, window);
    FillKeeps(s, window);
    FillSendsNext(s, window);
    var batch := Batch(s, s');
    ChainSuffix(s.outstanding, batch, s.next - s.inFlight, s.next, s'.next);
    ChainConcat(first, batch, 0, s.next, s'.next);
    PayloadsConcat(first, batch);
    JoinSlices(s.stream.all, s.stream.read, s'.stream.read);
    SuffixAppend(first, s.outstanding, batch);
  }

  lemma JoinSlices(all: seq<byte>, i: nat, j: nat)
    requires i <= j <= |all|
    ensures all[..i] + all[i..j] == all[..j]
  {
  }

  lemma SuffixAppend(first: seq<Tagged>, tail: seq<Tagged>, batch: seq<Tagged>)
    requires |tail| <= |first| && tail == first[|first| - |tail|..]
    ensures tail + batch == (first + batch)[|first + batch| - |tail + batch|..]
  {
  }

  lemma {:induction false} PopIsSuffix(s: Sender, ack: nat)
    ensures var s' := PopAcked(s, ack);
            && |s'.outstanding| <= |s.outstanding|
            && s'.outstanding == s.outstanding[|s.outstanding| - |s'.outstanding|..]
            && s'.stream == s.stream && s'.next == s.next
    decreases |s.outstanding|
  {
    if s.outstanding != [] && s.outstanding[0].End() - 1 < ack {
      PopIsSuffix(s.(outstanding := s.outstanding[1..],
                     inFlight := s.inFlight - Length(s.outstanding[0].seg)), ack);
    }
  }

  lemma AcknowledgeFirst(s: Sender, first: seq<Tagged>, ack: nat, window: u16)
    requires SenderInv(s) && FirstInv(s, first)
    ensures FirstInv(Acknowledge(s, ack, window), first)
  {
    hide Acknowledge;
    AcknowledgeKeeps(s, ack, window);
    PopIsSuffix(s, ack);
    PopKeeps(s, ack);
  }

  lemma AckFirst(s: Sender, first: seq<Tagged>, ackno: u32, window: u16)
    requires SenderInv(s) && FirstInv(s, first)
    ensures FirstInv(ReceiveAck(s, ackno, window), first + FirstSent(s, OpAck(ackno, window)))
  {
    hide Acknowledge, Chain, Payloads, SeqInv, TimerInv, FillFrom, Unwrap;
    var ack := Unwrap(ackno, s.isn, s.next);
    if ack <= s.next {
      var s1 := Acknowledge(s, ack, window);
      AcknowledgeFirst(s, first, ack, window);
      AcknowledgeKeeps(s, ack, window);
      FillFirst(s1, first, EffectiveWindow(s1));
    } else {
      assert first + [] == first;
    }
  }

  lemma StepKeepsFirst(h: History, op: Op)
    requires SenderInv(h.s) && FirstInv(h.s, h.first) && Legal(h, op)
    ensures FirstInv(Step(h, op).s, Step(h, op).first)
  {
    hide Chain, ReceiveAck, SeqInv, TimerInv, Payloads, FillFrom;
    assert h.first + [] == h.first;
    match op {
      case OpFill => FillFirst(h.s, h.first, EffectiveWindow(h.s));
      case OpAck(ackno, window) => AckFirst(h.s, h.first, ackno, window);
      case OpWrite(data) =>
        assert WriteStream(h.s, data).stream.all[..h.s.stream.read] == h.s.stream.all[..h.s.stream.read];
      case _ =>
    }
  }

  /** The output of every step: copies of the segment that was then the oldest
      outstanding one, then the first transmissions; retransmissions happen on a timeout
      and on entering fast recovery, and at no other time. */
  lemma StepOutput(h: History, op: Op)
    requires SenderInv(h.s) && (op.OpFill? || op.OpAck? || op.OpTick?)
    ensures Step(h, op).s.out == h.s.out + Resent(h.s, op) + FirstSent(h.s, op)
    ensures Resent(h.s, op) == [] || (h.s.outstanding != [] && Resent(h.s, op) == [h.s.outstanding[0]])
  {
    hide ReceiveAck, Fill, SeqInv, TimerInv;
    match op {
      case OpFill =>
        FillSends(h.s);
        assert h.s.out + [] == h.s.out;
      case OpAck(ackno, window) => AckOutput(h.s, ackno, window);
      case OpTick(ms) =>
    }
  }

  lemma AckOutput(s: Sender, ackno: u32, window: u16)
    requires SenderInv(s)
    ensures var op := OpAck(ackno, window);
            && ReceiveAck(s, ackno, window).out == s.out + Resent(s, op) + FirstSent(s, op)
            && (Resent(s, op) == [] || (s.outstanding != [] && Resent(s, op) == [s.outstanding[0]]))
  {
    hide Acknowledge, SeqInv, TimerInv, Fill, Unwrap;
    var ack := Unwrap(ackno, s.isn, s.next);
    if ack <= s.next {
      AcknowledgeEffect(s, ack, window);
      AckEffect(s, ackno, window);
      AcknowledgeKeeps(s, ack, window);
      FillSends(Acknowledge(s, ack, window));
    }
  }

  /** An acknowledgment makes the sender retransmit exactly when it is the third duplicate
      since the count was last reset, so once per recovery episode. */
  lemma FastRetransmitOnThirdDuplicate(h: History, ackno: u32, window: u16)
    requires SenderInv(h.s) && RecoveryInv(h)
    ensures Resent(h.s, OpAck(ackno, window)) != []
            <==> h.dups == 2 && Duplicate(h.s, Unwrap(ackno, h.s.isn, h.s.next))
  {
    hide Acknowledge, SeqInv, TimerInv;
    var ack := Unwrap(ackno, h.s.isn, h.s.next);
    if ack <= h.s.next {
      AcknowledgeEffect(h.s, ack, window);
      AckEffect(h.s, ackno, window);
      if h.s.reno.enabled { DupAckRecovery(h.s.reno, h.dups); }
    }
  }

  lemma FillSends(s: Sender)
    requires SeqInv(s)
    ensures |s.outstanding| <= |Fill(s).outstanding| && Fill(s).out == s.out + Batch(s, Fill(s))
  {
    FillSendsNext(s, EffectiveWindow(s));
  }

  // ---------- Whole runs ----------

  function Start(capacity: nat, rto: u16, isn: u32, congestionControl: bool): (h: History)
    ensures Inv(h)
  {
    assert Pow2(0) == 1;
    History(NewSender(capacity, rto, isn, congestionControl), 0, 0, [])
  }

  lemma StepKeepsInv(h: History, op: Op)
    requires Inv(h) && Legal(h, op)
    ensures Inv(Step(h, op)) && Grows(h.s, Step(h, op).s)
  {
    hide SeqInv, TimerInv, RenoInv, QuietInv, RecoveryInv, FirstInv;
    StepKeepsSender(h.s, op);
    StepKeepsQuiet(h, op);
    StepKeepsRecovery(h, op);
    StepKeepsFirst(h, op);
  }

  /** The histories that some sequence of legal operations leads to. */
  ghost predicate LegalRun(h: History, ops: seq<Op>)
    requires Inv(h)
    decreases |ops|
  {
    ops == [] ||
    (Legal(h, ops[0]) && (StepKeepsInv(h, ops[0]); LegalRun(Step(h, ops[0]), ops[1..])))
  }

  ghost function Run(h: History, ops: seq<Op>): History
    requires Inv(h) && LegalRun(h, ops)
    decreases |ops|
  {
    if ops == [] then h else (StepKeepsInv(h, ops[0]); Run(Step(h, ops[0]), ops[1..]))
  }

  lemma {:induction false} RunKeepsInv(h: History, ops: seq<Op>)
    requires Inv(h) && LegalRun(h, ops)
    ensures Inv(Run(h, ops)) && Grows(h.s, Run(h, ops).s)
    decreases |ops|
  {
    if ops != [] {
      StepKeepsInv(h, ops[0]);
      RunKeepsInv(Step(h, ops[0]), ops[1..]);
    }
  }

  /** History `h` is that of some legal run. */
  ghost predicate Reached(from: History, h: History) {
    Inv(from) && exists ops :: LegalRun(from, ops) && Run(from, ops) == h
  }

  lemma ReachedStart(h: History)
    requires Inv(h)
    ensures Reached(h, h)
  {
    hide Inv;
    var none: seq<Op> := [];
    assert LegalRun(h, none) && Run(h, none) == h;
  }

  lemma ReachedInv(from: History, h: History)
    requires Reached(from, h)
    ensures Inv(h) && Grows(from.s, h.s)
  {
    hide Inv;
    var ops :| LegalRun(from, ops) && Run(from, ops) == h;
    RunKeepsInv(from, ops);
  }

  lemma ReachedStep(from: History, h: History, op: Op)
    requires Reached(from, h) && SenderInv(h.s) && Legal(h, op)
    ensures Reached(from, Step(h, op))
  {
    hide Inv, Step, Legal;
    var ops :| LegalRun(from, ops) && Run(from, ops) == h;
    RunAppend(from, ops, op);
  }

  lemma {:induction false} RunAppend(from: History, ops: seq<Op>, op: Op)
    requires Inv(from) && LegalRun(from, ops) && SenderInv(Run(from, ops).s) && Legal(Run(from, ops), op)
    ensures LegalRun(from, ops + [op]) && Run(from, ops + [op]) == Step(Run(from, ops), op)
    decreases |ops|
  {
    hide QuietInv, RecoveryInv, FirstInv, SeqInv, TimerInv, RenoInv, Step, Legal;
    if ops == [] {
      assert [op][1..] == [];
      StepKeepsInv(from, op);
    } else {
      assert (ops + [op])[1..] == ops[1..] + [op];
      StepKeepsInv(from, ops[0]);
      RunAppend(Step(from, ops[0]), ops[1..], op);
    }
  }

  // ---------- Slow start and congestion avoidance ----------

  function AckSeries(r: Reno, acks: seq<nat>): Reno
    requires r.cwnd > 0 && r.ssthresh > 0
    decreases |acks|
  {
    if acks == [] then r else AckSeries(OnNewAck(r, acks[0]), acks[1..])
  }

  function Sum(acks: seq<nat>): nat { if acks == [] then 0 else acks[0] + Sum(acks[1..]) }

  /** Below the threshold the window grows by every sequence number acknowledged and by
      nothing else; so a whole window of acknowledgments doubles it, and the one for the
      SYN adds a single byte. */
  lemma {:induction false} SlowStartAddsWhatIsAcked(r: Reno, acks: seq<nat>)
    requires 0 < r.cwnd && r.cwnd + Sum(acks) <= r.ssthresh && !r.inRecovery
    ensures AckSeries(r, acks).cwnd == r.cwnd + Sum(acks)
    ensures AckSeries(r, acks).ssthresh == r.ssthresh
    decreases |acks|
  {
    if acks != [] {
      assert Increment(0, r.cwnd) == 0;
      SlowStartAddsWhatIsAcked(OnNewAck(r, acks[0]), acks[1..]);
    }
  }

  /** The window that congestion avoidance starts from. */
  function BaseWindow(r: Reno): nat { if r.inRecovery then r.ssthresh else r.cwnd }

  lemma IncrementBound(acked: nat, cwnd: nat, base: nat)
    requires 0 < base <= cwnd
    ensures Increment(acked, cwnd) * base <= MAX_PAYLOAD_SIZE * acked
  {
    var inc := Increment(acked, cwnd);
    assert inc * cwnd <= MAX_PAYLOAD_SIZE * acked;
    ProductMonotone(inc, base, cwnd);
  }

  lemma {:induction false} SeriesGrowth(r: Reno, acks: seq<nat>, base: nat)
    requires 0 < base <= BaseWindow(r) && r.cwnd > 0 && r.ssthresh > 0 && BaseWindow(r) >= r.ssthresh
    requires acks != [] || !r.inRecovery
    ensures AckSeries(r, acks).cwnd >= r.ssthresh == AckSeries(r, acks).ssthresh
    ensures (AckSeries(r, acks).cwnd - BaseWindow(r)) * base <= MAX_PAYLOAD_SIZE * Sum(acks)
    decreases |acks|
  {
    if acks != [] {
      var r' := OnNewAck(r, acks[0]);
      SeriesGrowth(r', acks[1..], base);
      IncrementBound(acks[0], BaseWindow(r), base);
      hide Increment;
      var rest := AckSeries(r, acks).cwnd - r'.cwnd;
      var inc := Increment(acks[0], BaseWindow(r));
      assert r'.cwnd == BaseWindow(r) + inc;
      SumProduct(rest, inc, base);
    }
  }

  /** Section 3.1 of RFC 5681: acknowledgments that together cover at most one window raise
      the window by at most one maximal segment. */
  lemma AvoidanceAddsOneSegment(r: Reno, acks: seq<nat>)
    requires r.cwnd > 0 && r.ssthresh > 0 && BaseWindow(r) >= r.ssthresh
    requires acks != [] && Sum(acks) <= BaseWindow(r)
    ensures AckSeries(r, acks).cwnd <= BaseWindow(r) + MAX_PAYLOAD_SIZE
  {
    var base := BaseWindow(r);
    SeriesGrowth(r, acks, base);
    ProductMonotone(MAX_PAYLOAD_SIZE, Sum(acks), base);
    CancelFactor(AckSeries(r, acks).cwnd - base, MAX_PAYLOAD_SIZE, base);
  }

  lemma CancelFactor(a: int, b: int, c: nat)
    requires c > 0 && a * c <= b * c
    ensures a <= b
  {
    if b < a { StrictProduct(b, a, c); }
  }

  lemma StrictProduct(a: int, b: int, c: nat)
    requires c > 0 && a < b
    ensures a * c < b * c
  {
  }

  lemma SumProduct(a: int, b: int, c: int)
    ensures (a + b) * c == a * c + b * c
  {
  }

  /** Leaving fast recovery takes a congestion-avoidance step at once, so the window ends at
      the threshold exactly when that step rounds down to nothing. */
  lemma RecoveryExit(r: Reno, acked: nat)
    requires r.inRecovery && r.cwnd > 0 && r.ssthresh > 0
    ensures OnNewAck(r, acked).cwnd == r.ssthresh <==> MAX_PAYLOAD_SIZE * acked < r.ssthresh
  {
    var x, y := MAX_PAYLOAD_SIZE * acked, r.ssthresh;
    QuotientZero(x, y);
  }

  lemma QuotientZero(x: nat, y: nat)
    requires y > 0
    ensures x / y == 0 <==> x < y
  {
  }
}
