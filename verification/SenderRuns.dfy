/** Acknowledgments, timeouts and writes keep the sender's invariants; what follows for
    every run of a sender, whatever acknowledgments it is given. */
module SenderRuns {
  import opened FixedWidth
  import opened WrappingIntegers
  import opened ByteStreams
  import opened TcpSegments
  import opened SenderModel
  import opened SenderInvariants

  /** The first number not yet acknowledged. */
  function Unacked(s: Sender): int { s.next - s.inFlight }

  /** Popping removes exactly the segments that end at or before `ack`. */
  lemma {:induction false} PopKeeps(s: Sender, ack: nat)
    requires SeqInv(s)
    ensures var s' := PopAcked(s, ack);
            && SeqInv(s')
            && s' == s.(outstanding := s'.outstanding, inFlight := s'.inFlight)
            && Unacked(s) <= Unacked(s') <= Max(Unacked(s), ack)
            && (s'.outstanding == s.outstanding <==> s'.inFlight == s.inFlight)
            && (s'.outstanding != [] ==> s'.outstanding[0].End() > ack)
            && (s'.outstanding == [] <==> s'.inFlight == 0)
    decreases |s.outstanding|
  {
    ChainLength(s.outstanding, Unacked(s), s.next);
    if s.outstanding != [] {
      var t := s.outstanding[0];
      var s1 := s.(outstanding := s.outstanding[1..], inFlight := s.inFlight - Length(t.seg));
      if t.End() - 1 < ack {
        ChainLength(s.outstanding[1..], t.End(), s.next);
        AllCarried(s, s1, s.outstanding);
        AllCarried(s, s1, s.out);
        PopKeeps(s1, ack);
      }
    }
  }

  lemma RenoKeeps(r: Reno, acked: nat)
    requires r.cwnd >= MAX_PAYLOAD_SIZE && r.ssthresh >= 2 * MAX_PAYLOAD_SIZE
    ensures OnNewAck(r, acked).cwnd >= MAX_PAYLOAD_SIZE && OnNewAck(r, acked).ssthresh == r.ssthresh
    ensures OnDupAck(r).cwnd >= MAX_PAYLOAD_SIZE && OnDupAck(r).ssthresh >= 2 * MAX_PAYLOAD_SIZE
    ensures OnTimeout(r).cwnd >= MAX_PAYLOAD_SIZE && OnTimeout(r).ssthresh >= 2 * MAX_PAYLOAD_SIZE
  {
    hide Increment;
  }

  /** A sender that differs only in what the sequence-space invariant does not mention,
      and whose output grew by copies of outstanding segments. */
  lemma SameSequenceSpace(s: Sender, s': Sender)
    requires SeqInv(s)
    requires s'.isn == s.isn && s'.stream == s.stream && s'.next == s.next && s'.inFlight == s.inFlight
    requires s'.outstanding == s.outstanding && s'.synSent == s.synSent && s'.finSent == s.finSent
    requires s'.initialRto == s.initialRto
    requires s'.out == s.out || (s.outstanding != [] && s'.out == s.out + [s.outstanding[0]])
    ensures SeqInv(s') && Grows(s, s')
  {
    AllCarried(s, s', s.outstanding);
    AllCarried(s, s', s.out);
  }

  lemma FillKeepsAll(s: Sender)
    requires SenderInv(s)
    ensures SenderInv(Fill(s)) && Grows(s, Fill(s))
    ensures Unacked(Fill(s)) == Unacked(s) && Fill(s).stream.all == s.stream.all && Fill(s).window == s.window
  {
    FillKeeps(s, EffectiveWindow(s));
  }

  lemma AckRenoKeeps(s: Sender, ack: nat, acked: nat)
    requires SeqInv(s) && RenoInv(s)
    ensures var s' := AckReno(s, ack, acked);
            && SeqInv(s') && RenoInv(s') && Grows(s, s')
            && s' == s.(reno := s'.reno, out := s'.out)
  {
    hide OnNewAck, OnDupAck;
    RenoKeeps(s.reno, acked);
    SameSequenceSpace(s, AckReno(s, ack, acked));
  }

  lemma AcknowledgeKeeps(s: Sender, ack: nat, window: u16)
    requires SenderInv(s)
    ensures var s' := Acknowledge(s, ack, window);
            && SenderInv(s') && Grows(s, s') && s'.stream == s.stream && s'.next == s.next
            && Unacked(s') == Unacked(PopAcked(s, ack)) && s'.window == window
            && s'.outstanding == PopAcked(s, ack).outstanding && s'.retx <= s.retx
  {
    hide AckReno, SeqInv, TimerInv, PopAcked;
    var s1 := PopAcked(s, ack);
    var acked := s.inFlight - s1.inFlight;
    PopKeeps(s, ack);
    var s2 := AckReno(s1, ack, acked);
    AckRenoKeeps(s1, ack, acked);
    var s3 := AckTimer(s2, acked).(window := window);
    SameSequenceSpace(s2, s3);
    AckTimerKeeps(s, s2, acked, window);
  }

  /** Any 32-bit acknowledgment whatsoever keeps the invariants. */
  lemma AckKeeps(s: Sender, ackno: u32, window: u16)
    requires SenderInv(s)
    ensures var s' := ReceiveAck(s, ackno, window);
            && SenderInv(s') && Grows(s, s') && s'.retx <= s.retx
            && s'.stream == s.stream.(read := s'.stream.read)
            && (var ack := Unwrap(ackno, s.isn, s.next);
                if ack <= s.next then Unacked(s') == Unacked(PopAcked(s, ack)) && s'.window == window else s' == s)
  {
    var ack := Unwrap(ackno, s.isn, s.next);
    if ack <= s.next {
      var s1 := Acknowledge(s, ack, window);
      AcknowledgeKeeps(s, ack, window);
      FillKeeps(s1, EffectiveWindow(s1));
    }
  }

  lemma AckTimerKeeps(s: Sender, s': Sender, acked: int, window: u16)
    requires TimerInv(s)
    requires s'.timer == s.timer && s'.retx == s.retx && s'.initialRto == s.initialRto
    requires acked <= 0 ==> (s'.outstanding == s.outstanding)
    requires s'.inFlight == 0 <==> s'.outstanding == []
    ensures TimerInv(AckTimer(s', acked).(window := window))
  {
    assert Pow2(0) == 1;
    assert s.initialRto % TWO_32 == s.initialRto;
  }

  lemma TickKeeps(s: Sender, ms: nat)
    requires SenderInv(s)
    ensures SenderInv(Tick(s, ms)) && Grows(s, Tick(s, ms))
  {
    var s' := Tick(s, ms);
    RenoKeeps(s.reno, 0);
    SameSequenceSpace(s, s');
    if s'.retx == s.retx + 1 {
      DoubledTimeout(s.initialRto, s.retx);
    }
  }

  lemma DoubledTimeout(rto: nat, n: nat)
    ensures rto * Pow2(n) % TWO_32 * 2 % TWO_32 == rto * Pow2(n + 1) % TWO_32
  {
    ModDouble(rto * Pow2(n));
    DoubleProduct(rto, Pow2(n));
  }

  lemma DoubleProduct(a: nat, b: nat)
    ensures a * (2 * b) == 2 * (a * b)
  {
  }

  lemma ModDouble(x: nat)
    ensures x % TWO_32 * 2 % TWO_32 == 2 * x % TWO_32
  {
  }

  lemma SendEmptyKeeps(s: Sender)
    requires SenderInv(s)
    ensures SenderInv(SendEmpty(s)) && Grows(s, SendEmpty(s))
  {
    var s' := SendEmpty(s);
    AllCarried(s, s', s.outstanding);
    AllCarried(s, s', s.out);
  }

  lemma WriteKeeps(s: Sender, data: seq<byte>)
    requires SenderInv(s) && !TooLate(s, data)
    ensures SenderInv(WriteStream(s, data)) && Grows(s, WriteStream(s, data))
  {
    var s' := WriteStream(s, data);
    AllCarried(s, s', s.outstanding);
    AllCarried(s, s', s.out);
  }

  /** The byte stream accepts writes after its end. Sequence numbers stay sound exactly
      unless such bytes come after the FIN has been sent. */
  lemma WriteIsSoundUnlessTooLate(s: Sender, data: seq<byte>)
    requires SenderInv(s)
    ensures SenderInv(WriteStream(s, data)) <==> !TooLate(s, data)
  {
    if !TooLate(s, data) { WriteKeeps(s, data); }
  }

  lemma EndKeeps(s: Sender)
    requires SenderInv(s)
    ensures SenderInv(EndStream(s)) && Grows(s, EndStream(s))
  {
    var s' := EndStream(s);
    AllCarried(s, s', s.outstanding);
    AllCarried(s, s', s.out);
  }

  lemma DropOutput(s: Sender)
    requires SenderInv(s)
    ensures SenderInv(s.(out := [])) && Grows(s, s.(out := []))
  {
    AllCarried(s, s.(out := []), s.outstanding);
  }

  lemma ErrorKeeps(s: Sender)
    requires SenderInv(s)
    ensures SenderInv(FailStream(s)) && Grows(s, FailStream(s))
  {
    AllCarried(s, FailStream(s), s.outstanding);
    AllCarried(s, FailStream(s), s.out);
  }
}
