/** The numbers behind the sender's single steps: what goes into a segment, when a segment
    goes out again, and how large the windows are. */
module SenderEffects {
  import opened FixedWidth
  import opened WrappingIntegers
  import opened ByteStreams
  import opened TcpSegments
  import opened SenderModel
  import opened SenderInvariants
  import opened SenderRuns
  import SenderHistory
  import opened Answers

  // ---------- Filling the window ----------

  /** Filling never has more in flight than the peer's window, taken as one if it is zero,
      nor, with congestion control, than the congestion window. */
  lemma InFlightBound(s: Sender)
    requires SeqInv(s)
    ensures var s' := Fill(s);
            && s'.inFlight <= Max(s.inFlight, Max(s.window, 1))
            && (s.reno.enabled ==> s'.inFlight <= Max(s.inFlight, s.reno.cwnd))
  {
    FillUsesWindow(s, EffectiveWindow(s));
  }

  /** What has never been sent waits only because a window is full. */
  predicate NothingHeldBack(s: Sender) {
    || !HasMore(s)
    || s.inFlight >= Max(s.window, 1)
    || (s.reno.enabled && s.inFlight >= s.reno.cwnd)
  }

  lemma FillHoldsNothingBack(s: Sender)
    requires SeqInv(s)
    ensures NothingHeldBack(Fill(s))
  {
    FillUsesWindow(s, EffectiveWindow(s));
    FillKeeps(s, EffectiveWindow(s));
  }

  ghost predicate AllButLastFull(batch: seq<Tagged>) {
    forall i :: 0 <= i < |batch| - 1 ==> |batch[i].seg.payload| == 1000
  }

  lemma FullCons(t: Tagged, rest: seq<Tagged>)
    requires AllButLastFull(rest) && (rest == [] || |t.seg.payload| == 1000)
    ensures AllButLastFull([t] + rest)
  {
  }

  /** Every segment that filling sends is a full one, except perhaps the last. */
  lemma {:induction false} FullSegments(s: Sender, window: nat)
    requires SeqInv(s)
    ensures |s.outstanding| <= |FillFrom(s, window).outstanding|
    ensures AllButLastFull(Batch(s, FillFrom(s, window)))
    decreases window - s.inFlight
  {
    FillKeeps(s, window);
    hide AllButLastFull, SeqInv, Emit;
    if s.inFlight < window && Length(NextSegment(s, window).seg) > 0 {
      var t := NextSegment(s, window);
      var s1 := Emit(s, t);
      EmitKeeps(s, window);
      FullSegments(s1, window);
      FillCons(s, window);
      if |t.seg.payload| < 1000 { PartialIsLast(s, window); }
      assert |t.seg.payload| <= 1000 by { NextIsTrue(s, window); }
      FullCons(t, Batch(s1, FillFrom(s, window)));
    } else {
      NothingAdded(s);
    }
  }

  lemma NothingAdded(s: Sender)
    ensures AllButLastFull(Batch(s, s))
  {
  }

  lemma PartialIsLast(s: Sender, window: nat)
    requires SeqInv(s) && s.inFlight < window
    requires var t := NextSegment(s, window); Length(t.seg) > 0 && |t.seg.payload| < 1000
    ensures var s1 := Emit(s, NextSegment(s, window)); FillFrom(s1, window) == s1
  {
    hide Chain, Carries, Wrap;
    var t := NextSegment(s, window);
    var s1 := Emit(s, t);
    if s1.inFlight < window {
      assert Length(NextSegment(s1, window).seg) == 0;
    }
  }

  // ---------- Timeouts ----------

  /** The 32-bit clock of the timer reaches the timeout with something outstanding. */
  predicate Expires(s: Sender, ms: nat) {
    && s.timer.running && s.outstanding != []
    && (s.timer.count + ms) % 0x1_0000_0000 >= s.timer.timeout
  }

  function TickEach(s: Sender, n: nat): Sender { if n == 0 then s else Tick(TickEach(s, n - 1), 1) }

  /** `n` more copies of the oldest outstanding segment have gone out, and nothing else of
      the sequence space has changed. */
  predicate OnlyResends(s: Sender, s': Sender, n: nat)
    requires s.outstanding != []
  {
    && s' == s.(out := s'.out, retx := s'.retx, timer := s'.timer, reno := s'.reno)
    && s'.out == s.out + Repeat(s.outstanding[0], n)
    && s'.timer.running
  }

  function Repeat(t: Tagged, n: nat): seq<Tagged> { if n == 0 then [] else Repeat(t, n - 1) + [t] }

  function Rounds(time: nat, timeout: nat): nat
    requires timeout > 0
  {
    time / timeout
  }

  function Rest(time: nat, timeout: nat): nat
    requires timeout > 0
  {
    time % timeout
  }

  /** `s'` is `s` after as many probes as the timeout fits into `time`, with the rest of the
      time on the clock. */
  predicate Paced(s: Sender, s': Sender, time: nat)
    requires s.outstanding != [] && s.timer.timeout > 0
  {
    && OnlyResends(s, s', Rounds(time, s.timer.timeout))
    && s'.timer.count == Rest(time, s.timer.timeout)
    && s'.retx == s.retx && s'.timer.timeout == s.timer.timeout
  }

  /** A closed window is probed at a constant pace: in `n` milliseconds as often as the
      timeout fits, without an end and without counting as a failed attempt. */
  lemma {:induction false} ProbesKeepPace(s: Sender, n: nat)
    requires s.timer.running && s.outstanding != [] && s.window == 0
    requires s.timer.count < s.timer.timeout
    ensures Paced(s, TickEach(s, n), s.timer.count + n)
  {
    hide Paced, Tick;
    if n == 0 {
      PacedFirst(s);
    } else {
      ProbesKeepPace(s, n - 1);
      PacedTick(s, TickEach(s, n - 1), s.timer.count + n - 1);
    }
  }

  lemma PacedFirst(s: Sender)
    requires s.timer.running && s.outstanding != [] && s.timer.count < s.timer.timeout
    ensures Paced(s, s, s.timer.count)
  {
    DivisionIs(s.timer.count, s.timer.timeout, 0, s.timer.count);
    NoResendYet(s);
  }

  lemma PacedTick(s: Sender, s1: Sender, time: nat)
    requires s.outstanding != [] && s.window == 0 && s.timer.timeout > 0 && Paced(s, s1, time)
    ensures Paced(s, Tick(s1, 1), time + 1)
  {
    hide OnlyResends, Tick, Rounds, Rest;
    OneMore(time, s.timer.timeout);
    ProbeTick(s, s1, Rounds(time, s.timer.timeout));
  }

  lemma ProbeTick(s: Sender, s1: Sender, k: nat)
    requires s.outstanding != [] && s.window == 0 && OnlyResends(s, s1, k)
    requires s1.timer.count < s1.timer.timeout
    ensures var s' := Tick(s1, 1);
            && s'.retx == s1.retx && s'.timer.timeout == s1.timer.timeout
            && if s1.timer.count + 1 < s1.timer.timeout
               then OnlyResends(s, s', k) && s'.timer.count == s1.timer.count + 1
               else OnlyResends(s, s', k + 1) && s'.timer.count == 0
  {
    var t := s.outstanding[0];
    assert s.out + Repeat(t, k) + [t] == s.out + (Repeat(t, k) + [t]);
  }

  lemma OneMore(x: nat, y: nat)
    requires y > 0
    ensures Rest(x, y) < y
    ensures if Rest(x, y) + 1 < y then Rounds(x + 1, y) == Rounds(x, y) && Rest(x + 1, y) == Rest(x, y) + 1
            else Rounds(x + 1, y) == Rounds(x, y) + 1 && Rest(x + 1, y) == 0
  {
    var q, m := x / y, x % y;
    assert x == q * y + m;
    if m + 1 < y {
      DivisionIs(x + 1, y, q, m + 1);
    } else {
      assert (q + 1) * y == q * y + y;
      DivisionIs(x + 1, y, q + 1, 0);
    }
  }

  lemma DivisionIs(x: nat, y: nat, q: nat, m: nat)
    requires y > 0 && x == q * y + m && m < y
    ensures x / y == q && x % y == m
  {
    var d := x / y - q;
    assert x == (x / y) * y + x % y;
    assert d * y == m - x % y by { assert d * y == (x / y) * y - q * y; }
    if d > 0 { SenderHistory.ProductMonotone(y, 1, d); }
  }

  /** With the window open every timeout doubles the next: after `n` milliseconds without an
      acknowledgment, `n` is what the timeouts so far and the clock add up to. */
  lemma {:induction false} BackoffSchedule(s: Sender, n: nat)
    requires TimerInv(s) && s.outstanding != [] && s.window > 0 && s.retx == 0 && s.timer.count == 0
    requires 0 < s.initialRto && n < s.initialRto * 65535
    ensures var s' := TickEach(s, n);
            && OnlyResends(s, s', s'.retx) && s'.retx < 16
            && s'.timer.timeout == s.initialRto * Pow2(s'.retx)
            && s'.timer.count < s'.timer.timeout
            && n == s.initialRto * (Pow2(s'.retx) - 1) + s'.timer.count
  {
    hide Pow2;
    assert Pow2(0) == 1 by { PowZero(); }
    if n == 0 {
      SmallMod(s.initialRto);
      NoResendYet(s);
    } else {
      BackoffSchedule(s, n - 1);
      BackoffTick(s, TickEach(s, n - 1), n - 1);
    }
  }

  lemma PowZero()
    ensures Pow2(0) == 1 && Pow2(16) == 65536
  {
    SenderHistory.PowBound(16);
    assert Pow2(4) == 16;
    assert Pow2(8) == 256;
    assert Pow2(12) == 4096;
  }

  lemma SmallMod(rto: u16)
    ensures rto * 1 % TWO_32 == rto
  {
  }

  lemma NoResendYet(s: Sender)
    requires s.outstanding != [] && s.timer.running
    ensures OnlyResends(s, s, 0)
  {
    assert s.out + [] == s.out;
  }

  lemma BackoffTick(s: Sender, s1: Sender, n: nat)
    requires s.outstanding != [] && s.window > 0 && 0 < s.initialRto
    requires OnlyResends(s, s1, s1.retx) && s1.retx < 16 && s1.timer.timeout == s.initialRto * Pow2(s1.retx)
    requires s1.timer.count < s1.timer.timeout && n == s.initialRto * (Pow2(s1.retx) - 1) + s1.timer.count
    requires n + 1 < s.initialRto * 65535
    ensures var s' := Tick(s1, 1);
            && OnlyResends(s, s', s'.retx) && s'.retx < 16
            && s'.timer.timeout == s.initialRto * Pow2(s'.retx)
            && s'.timer.count < s'.timer.timeout
            && n + 1 == s.initialRto * (Pow2(s'.retx) - 1) + s'.timer.count
  {
    hide Pow2, Tick, OnlyResends;
    var rto, k := s.initialRto, s1.retx;
    SenderHistory.PowBound(k);
    SenderHistory.NoOverflow(rto, Pow2(k));
    OpenTick(s, s1, k);
    if s1.timer.count + 1 >= s1.timer.timeout { NextRound(rto, k, s1.timer.count, n); }
  }

  /** One millisecond more, with the window open and the timeout not too large. */
  lemma OpenTick(s: Sender, s1: Sender, k: nat)
    requires s.outstanding != [] && s.window > 0 && OnlyResends(s, s1, k)
    requires s1.timer.count < s1.timer.timeout
    ensures var s' := Tick(s1, 1);
            if s1.timer.count + 1 < s1.timer.timeout
            then && OnlyResends(s, s', k) && s'.timer.count == s1.timer.count + 1
                 && s'.retx == s1.retx && s'.timer.timeout == s1.timer.timeout
            else && OnlyResends(s, s', k + 1) && s'.timer.count == 0
                 && s'.retx == s1.retx + 1 && s'.timer.timeout == s1.timer.timeout * 2 % TWO_32
  {
    var t := s.outstanding[0];
    assert s.out + Repeat(t, k) + [t] == s.out + (Repeat(t, k) + [t]);
  }

  lemma NextRound(rto: nat, k: nat, count: nat, n: nat)
    requires k < 16 && 0 < rto < TWO_16 && count + 1 == rto * Pow2(k)
    requires n == rto * (Pow2(k) - 1) + count && n + 1 < rto * 65535
    ensures k + 1 < 16 && n + 1 == rto * (Pow2(k + 1) - 1)
    ensures rto * Pow2(k) * 2 % TWO_32 == rto * Pow2(k + 1) > 0
  {
    hide Pow2;
    PowDoubles(k);
    SenderHistory.Distribute(rto, Pow2(k));
    if k == 15 { PowZero(); }
    SenderHistory.PowBound(k + 1);
    SenderHistory.NoOverflow(rto, Pow2(k + 1));
    DoubleProduct(rto, Pow2(k));
    SenderHistory.ProductMonotone(rto, 1, Pow2(k + 1));
  }

  lemma PowDoubles(k: nat)
    ensures Pow2(k + 1) == 2 * Pow2(k)
  {
  }

  /** After a timeout the sender starts slowly again, from one segment up to half of what
      the window was: section 3.1 of RFC 5681. */
  lemma SlowStartAfterTimeout(s: Sender, ms: nat, acks: seq<nat>)
    requires RenoInv(s) && Expires(s, ms) && s.reno.enabled
    ensures Tick(s, ms).reno.ssthresh == Max(s.reno.cwnd / 2, 2000) && !Tick(s, ms).reno.inRecovery
    ensures 1000 + SenderHistory.Sum(acks) <= Max(s.reno.cwnd / 2, 2000)
            ==> SenderHistory.AckSeries(Tick(s, ms).reno, acks).cwnd == 1000 + SenderHistory.Sum(acks)
  {
    var r := Tick(s, ms).reno;
    if 1000 + SenderHistory.Sum(acks) <= Max(s.reno.cwnd / 2, 2000) {
      SenderHistory.SlowStartAddsWhatIsAcked(r, acks);
    }
  }

  // ---------- The congestion window ----------

  /** A new sender starts slowly too, and with no threshold that 64 bits can reach. */
  lemma SlowStartFromNew(acks: seq<nat>)
    requires 1000 + SenderHistory.Sum(acks) < 0x1_0000_0000_0000_0000
    ensures SenderHistory.AckSeries(NewReno(true), acks).cwnd == 1000 + SenderHistory.Sum(acks)
  {
    SenderHistory.SlowStartAddsWhatIsAcked(NewReno(true), acks);
  }

  /** From the threshold on, `acked` sequence numbers add the share of a segment that they
      are of the window, rounded down. */
  lemma AvoidanceStep(r: Reno, acked: nat)
    requires !r.inRecovery && 0 < r.ssthresh <= r.cwnd
    ensures var d := OnNewAck(r, acked).cwnd - r.cwnd;
            0 <= d && d * r.cwnd <= 1000 * acked < (d + 1) * r.cwnd
  {
    var x, y := 1000 * acked, r.cwnd;
    var q := x / y;
    assert x == q * y + x % y;
    assert (q + 1) * y == q * y + y;
  }

  /** The third duplicate halves the window, adds the three segments that have left the
      network, and sends the oldest outstanding segment again, before anything new. */
  lemma ThirdDuplicateHalves(s: Sender, ackno: u32, window: u16)
    requires SenderInv(s) && ThirdDuplicate(s, Unwrap(ackno, s.isn, s.next))
    ensures var s' := ReceiveAck(s, ackno, window);
            && s'.reno.ssthresh == Max(s.reno.cwnd / 2, 2000)
            && s'.reno.cwnd == Max(s.reno.cwnd / 2, 2000) + 3000
            && s'.reno.inRecovery
            && s.out + [s.outstanding[0]] <= s'.out
  {
    hide SeqInv, TimerInv, PopAcked, Acknowledge, Unwrap, Fill;
    var ack := Unwrap(ackno, s.isn, s.next);
    AcknowledgeKeeps(s, ack, window);
    SenderHistory.AcknowledgeEffect(s, ack, window);
    SenderHistory.AckEffect(s, ackno, window);
    FillAppends(Acknowledge(s, ack, window));
  }
}
