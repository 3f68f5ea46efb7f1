/** Which segments that occupy sequence numbers go without any answer. */
module Answers {
  import opened FixedWidth
  import opened WrappingIntegers
  import opened ByteStreams
  import opened Reassembly
  import opened TcpSegments
  import opened Receivers
  import opened SenderModel
  import opened SenderInvariants
  import opened SenderRuns
  import SenderHistory
  import opened ConnectionModel
  import opened Endpoints
  import TwoEndpoints
  import opened Progress

  // ---------- When the sender sends ----------

  /** There is something that has never been sent. */
  predicate HasMore(s: Sender) { !s.synSent || Buffered(s.stream) > 0 || (s.stream.ended && !s.finSent) }

  /** Filling sends something exactly when there is room and something to send. */
  lemma FillSendsIff(s: Sender)
    requires SeqInv(s)
    ensures Fill(s).out != s.out <==> s.inFlight < EffectiveWindow(s) && HasMore(s)
  {
    var window := EffectiveWindow(s);
    FillSendsNext(s, window);
    if s.inFlight < window {
      var t := NextSegment(s, window);
      assert Length(t.seg) > 0 <==> HasMore(s) by { hide Wrap, Chain, Carries; }
      if Length(t.seg) > 0 { FillCons(s, window); }
    }
  }

  /** The third duplicate of the last acknowledgment, outside of recovery. */
  predicate ThirdDuplicate(s: Sender, ack: nat) {
    SenderHistory.Duplicate(s, ack) && s.reno.dupAcks == 2 && !s.reno.inRecovery
  }

  /** The sequence numbers of the segments that end after `ack`. */
  function StillOut(q: seq<Tagged>, ack: nat): nat {
    if q == [] then 0 else (if q[0].End() > ack then Length(q[0].seg) else 0) + StillOut(q[1..], ack)
  }

  /** The congestion window after an acknowledgment that leaves `left` numbers in flight. */
  function CwndAfter(s: Sender, ack: nat, left: nat): nat
    requires RenoInv(s)
  {
    if left < s.inFlight then OnNewAck(s.reno, s.inFlight - left).cwnd
    else if ack == s.reno.lastAck && s.outstanding != [] then OnDupAck(s.reno).cwnd
    else s.reno.cwnd
  }

  /** With what the acknowledgment releases gone, the new window has room. */
  predicate LeavesRoom(s: Sender, ack: nat, window: u16)
    requires RenoInv(s)
  {
    var left := StillOut(s.outstanding, ack);
    left < Max(window, 1) && (s.reno.enabled ==> left < CwndAfter(s, ack, left))
  }

  /** Releasing from the front releases exactly the segments that end at or before `ack`. */
  lemma {:induction false} PopLeaves(s: Sender, ack: nat)
    requires Chain(s.outstanding, Unacked(s), s.next)
    ensures PopAcked(s, ack).inFlight == StillOut(s.outstanding, ack)
    decreases |s.outstanding|
  {
    if s.outstanding == [] {
    } else if s.outstanding[0].End() - 1 < ack {
      PopLeaves(s.(outstanding := s.outstanding[1..], inFlight := s.inFlight - Length(s.outstanding[0].seg)), ack);
    } else {
      AllStillOut(s.outstanding, Unacked(s), s.next, ack);
    }
  }

  lemma {:induction false} AllStillOut(q: seq<Tagged>, lo: int, hi: int, ack: nat)
    requires Chain(q, lo, hi) && (q == [] || q[0].End() > ack)
    ensures StillOut(q, ack) == hi - lo
  {
    if q != [] { AllStillOut(q[1..], q[0].End(), hi, ack); }
  }

  lemma RoomAfter(s: Sender, ack: nat, window: u16)
    requires SenderInv(s) && ack <= s.next
    ensures var s' := Acknowledge(s, ack, window);
            s'.inFlight < EffectiveWindow(s') <==> LeavesRoom(s, ack, window)
  {
    hide TimerInv, Carries, Chain, StillOut, PopAcked, Acknowledge, OnNewAck, OnDupAck;
    PopLeaves(s, ack);
    PopKeeps(s, ack);
    AcknowledgeKeeps(s, ack, window);
    SenderHistory.AcknowledgeEffect(s, ack, window);
    LastAckSet(s.reno, s.inFlight - PopAcked(s, ack).inFlight, ack);
  }

  lemma LastAckSet(r: Reno, acked: int, ack: nat)
    requires r.cwnd > 0 && r.ssthresh > 0 && acked >= 0
    ensures OnNewAck(r, acked).(lastAck := ack).cwnd == OnNewAck(r, acked).cwnd
    ensures OnNewAck(r, acked).enabled == r.enabled && OnDupAck(r).enabled == r.enabled
  {
  }

  predicate AckMakesItSend(s: Sender, ackno: u32, window: u16)
    requires RenoInv(s)
  {
    var ack := Unwrap(ackno, s.isn, s.next);
    ack <= s.next && (ThirdDuplicate(s, ack) || (LeavesRoom(s, ack, window) && HasMore(s)))
  }

  lemma AckSendsIff(s: Sender, ackno: u32, window: u16)
    requires SenderInv(s)
    ensures ReceiveAck(s, ackno, window).out != s.out <==> AckMakesItSend(s, ackno, window)
  {
    hide Fill, Acknowledge, SeqInv, TimerInv, Unwrap, PopAcked, EffectiveWindow, LeavesRoom;
    var ack := Unwrap(ackno, s.isn, s.next);
    if ack <= s.next {
      var s1 := Acknowledge(s, ack, window);
      AcknowledgeKeeps(s, ack, window);
      SenderHistory.AcknowledgeEffect(s, ack, window);
      EntersRecovery(s, ack, window);
      FillSendsIff(s1);
      RoomAfter(s, ack, window);
      FillAppends(s1);
      SameFlags(s, ack, window);
    }
  }

  lemma SameFlags(s: Sender, ack: nat, window: u16)
    requires SenderInv(s)
    ensures HasMore(Acknowledge(s, ack, window)) == HasMore(s)
  {
    hide SeqInv, TimerInv, PopAcked;
    PopKeeps(s, ack);
  }

  lemma EntersRecovery(s: Sender, ack: nat, window: u16)
    requires SenderInv(s) && ack <= s.next
    ensures var r := Acknowledge(s, ack, window).reno;
            r.inRecovery && !s.reno.inRecovery <==> ThirdDuplicate(s, ack)
  {
    hide SeqInv, TimerInv, PopAcked, Acknowledge, Increment;
    SenderHistory.AcknowledgeEffect(s, ack, window);
  }

  lemma FillAppends(s: Sender)
    requires SeqInv(s)
    ensures s.out <= Fill(s).out
  {
    FillSendsNext(s, EffectiveWindow(s));
  }

  // ---------- When the endpoint answers ----------

  lemma FlushGrows(c: Conn)
    ensures Flush(c).out == c.out <==> c.tx.out == []
  {
    if c.tx.out != [] {
      assert |StampAll(c.rx, c.tx.out)| > 0;
      assert |Flush(c).out| > |c.out|;
    } else {
      assert c.out + [] == c.out;
    }
  }

  /** The stream is acknowledged whole, at the latest by this segment. */
  predicate Finishes(s: Sender, seg: Segment) {
    s.finSent && (s.inFlight == 0 || (seg.header.ack && Unwrap(seg.header.ackno, s.isn, s.next) == s.next))
  }

  lemma FinishesIff(c: Conn, seg: Segment)
    requires SenderInv(c.tx)
    ensures AllAcked(TakeAck(c, seg).tx) <==> Finishes(c.tx, seg)
  {
    hide TimerInv, Unwrap, ReceiveAck, Chain, Carries, PopAcked;
    if seg.header.ack {
      var s := c.tx;
      var ack := Unwrap(seg.header.ackno, s.isn, s.next);
      var s' := ReceiveAck(s, seg.header.ackno, seg.header.win);
      AckKeeps(s, seg.header.ackno, seg.header.win);
      PopKeeps(s, ack);
      if ack == s.next { TwoEndpoints.FullAckReleasesAll(s); }
      if AllAcked(s) { AllAckedStays(s, s'); }
      if ack <= s.next { FinNeedsRoom(s, seg.header.ackno, seg.header.win); }
    }
  }

  /** Whatever is sent in reaction to an acknowledgment is in flight. */
  lemma FinNeedsRoom(s: Sender, ackno: u32, window: u16)
    requires SenderInv(s) && Unwrap(ackno, s.isn, s.next) <= s.next
    ensures var s' := ReceiveAck(s, ackno, window);
            s'.inFlight - PopAcked(s, Unwrap(ackno, s.isn, s.next)).inFlight == s'.next - s.next
  {
    hide TimerInv, Unwrap, Chain, Carries, PopAcked;
    AckKeeps(s, ackno, window);
    PopKeeps(s, Unwrap(ackno, s.isn, s.next));
  }

  /** The receiver has seen the SYN, or also the end, of a stream that did not fail. */
  predicate SawStart(r: Receiver) { !r.Out().error && r.isn.Some? && !r.Out().ended }

  predicate SawEnd(r: Receiver) { !r.Out().error && r.isn.Some? && r.Out().ended }

  /** Exactly when a segment gets no answer, from the state before the call and what the
      receiver makes of the segment. A reset and a contradiction of earlier data get none.
      An endpoint that has seen the end of the peer's stream first and is now done with its
      own stops without a word. And the check for packets already queued looks at the
      connection's own queue, so if that was not drained, a segment with an acknowledgment
      is answered only if it makes the sender send. */
  ghost predicate Unanswered(c: Conn, seg: Segment)
    requires RenoInv(c.tx)
  {
    var rx := Receive(c.rx, seg).1;
    || seg.header.rst
    || Contradicts(c.rx, seg)
    || (!c.linger && SawEnd(rx) && !c.tx.stream.error && Finishes(c.tx, seg))
    || (&& seg.header.ack && c.out != [] && c.tx.out == []
        && !AckMakesItSend(c.tx, seg.header.ackno, seg.header.win)
        && !(SawStart(rx) && !c.tx.stream.error && !c.tx.synSent))
  }

  lemma UnansweredSegment(c: Conn, seg: Segment)
    requires SenderInv(c.tx) && Length(seg) > 0
    ensures SegmentReceived(c, seg).1.out == c.out <==> Unanswered(c, seg)
  {
    ThrowsIff(c.rx, seg);
    hide SeqInv, TimerInv, Receive, Respond, TakeAck, AckMakesItSend, Finishes, BothDone, Contradicts;
    if !seg.header.rst && Receive(c.rx, seg).0 == Ok {
      var c1 := c.(sinceLast := 0, rx := Receive(c.rx, seg).1);
      AfterAck(c1, seg);
      RespondSilent(TakeAck(c1, seg), seg);
      SilentIff(c1, seg);
    }
  }

  /** An empty segment is answered when it makes the sender send or starts a handshake, and
      when it repeats the number before the one expected, as a keep-alive does. */
  predicate Answered(c: Conn, seg: Segment)
    requires RenoInv(c.tx)
  {
    var rx := Receive(c.rx, seg).1;
    && !(!c.linger && SawEnd(rx) && !c.tx.stream.error && Finishes(c.tx, seg))
    && (|| c.tx.out != []
        || (seg.header.ack && AckMakesItSend(c.tx, seg.header.ackno, seg.header.win))
        || (SawStart(rx) && !c.tx.stream.error && !c.tx.synSent)
        || Probes(rx, seg))
  }

  /** The segment's number is the one before the number that the receiver waits for. */
  predicate Probes(r: Receiver, seg: Segment) {
    r.isn.Some? && (seg.header.seqno + 1) % TWO_32 == Wrap(AbsoluteAck(r), r.isn.value)
  }

  lemma EmptySegmentAnswered(c: Conn, seg: Segment)
    requires SenderInv(c.tx) && Length(seg) == 0 && !seg.header.rst
    ensures SegmentReceived(c, seg).0 == Ok
    ensures SegmentReceived(c, seg).1.out != c.out <==> Answered(c, seg)
  {
    NeverThrowsEmpty(c.rx, seg);
    hide SeqInv, TimerInv, Receive, Respond, TakeAck, AckMakesItSend, Finishes, BothDone, Probes, NeedsEmptyAck;
    var c1 := c.(sinceLast := 0, rx := Receive(c.rx, seg).1);
    AfterAck(c1, seg);
    RespondSilent(TakeAck(c1, seg), seg);
    SilentIff(c1, seg);
    NeedsProbe(TakeAck(c1, seg), seg);
  }

  lemma NeedsProbe(c: Conn, seg: Segment)
    requires Length(seg) == 0
    ensures NeedsEmptyAck(c, seg) <==> Probes(c.rx, seg)
  {
    hide Wrap, AbsoluteAck;
  }

  lemma NeverThrowsEmpty(r: Receiver, seg: Segment)
    requires Length(seg) == 0
    ensures Receive(r, seg).0 == Ok
  {
    hide Unwrap;
    ThrowsIff(r, seg);
  }

  lemma AfterAck(c: Conn, seg: Segment)
    requires SenderInv(c.tx)
    ensures var c' := TakeAck(c, seg); SenderInv(c'.tx) && c' == c.(tx := c'.tx)
  {
    hide SeqInv, TimerInv, ReceiveAck;
    if seg.header.ack { AckKeeps(c.tx, seg.header.ackno, seg.header.win); }
  }

  /** The peer's SYN has come, and its stream goes on. */
  predicate Handshake(c: Conn) { SawStart(c.rx) && !c.tx.stream.error && !c.tx.synSent }

  /** The summaries that the connection looks at, in flags. */
  lemma SummariesMean(c: Conn)
    requires SenderInv(c.tx)
    ensures SummarizeReceiver(c.rx) == SynReceived && SummarizeSender(c.tx) == Closed <==> Handshake(c)
    ensures BothDone(c) <==> SawEnd(c.rx) && !c.tx.stream.error && AllAcked(c.tx)
    ensures SummarizeReceiver(c.rx) == FinReceived && SummarizeSender(c.tx) == SynAcked
            <==> SawEnd(c.rx) && !c.tx.stream.error && Unacked(c.tx) > 0 && !c.tx.finSent
  {
    if !c.tx.stream.error { SummaryMeaning(c.tx); }
  }

  /** The same for the part after the acknowledgment. */
  lemma RespondSilent(c: Conn, seg: Segment)
    requires SenderInv(c.tx)
    ensures Respond(c, seg).out == c.out <==>
              || (!c.linger && BothDone(c))
              || (!NeedsEmptyAck(c, seg) && c.tx.out == [] && !Handshake(c))
  {
    SummariesMean(c);
    hide SeqInv, TimerInv, RenoInv, Flush, Fill, SummarizeSender, SummarizeReceiver, BothDone, NeedsEmptyAck, Handshake;
    var c1 := NotePassiveClose(c);
    assert NeedsEmptyAck(c1, seg) == NeedsEmptyAck(c, seg) by { SameNeed(c, c1, seg); }
    if Handshake(c) {
      ClosedMeansUnsent(c.tx);
      FirstFillSends(c.tx);
      FlushGrows(c.(tx := Fill(c.tx)));
      NotDone(c);
    } else {
      NoteKeepsDone(c);
      FlushGrows(c1.(tx := SendEmpty(c1.tx)));
      FlushGrows(c1);
    }
  }

  lemma SameNeed(c: Conn, c': Conn, seg: Segment)
    requires c'.out == c.out && c'.rx == c.rx
    ensures NeedsEmptyAck(c', seg) == NeedsEmptyAck(c, seg)
  {
  }

  lemma NotDone(c: Conn)
    requires SenderInv(c.tx) && Handshake(c)
    ensures !BothDone(c)
  {
    SummariesMean(c);
  }

  /** An endpoint that is done with its stream is not one that closes passively just now. */
  lemma NoteKeepsDone(c: Conn)
    requires SenderInv(c.tx)
    ensures var c1 := NotePassiveClose(c); (!c1.linger && BothDone(c1)) <==> (!c.linger && BothDone(c))
  {
    SummariesMean(c);
  }

  lemma SilentIff(c: Conn, seg: Segment)
    requires SenderInv(c.tx)
    ensures var c' := TakeAck(c, seg);
            && (BothDone(c') <==> SawEnd(c.rx) && !c.tx.stream.error && Finishes(c.tx, seg))
            && (c'.tx.out == [] <==>
                  c.tx.out == [] && !(seg.header.ack && AckMakesItSend(c.tx, seg.header.ackno, seg.header.win)))
            && (Handshake(c') ==> Handshake(c))
            && (Handshake(c) && !Handshake(c') ==> c'.tx.out != [])
  {
    hide TimerInv, Unwrap, ReceiveAck, Chain, Carries, PopAcked, AckMakesItSend, Finishes;
    FinishesIff(c, seg);
    var c' := TakeAck(c, seg);
    if seg.header.ack {
      AckKeeps(c.tx, seg.header.ackno, seg.header.win);
      AckSendsIff(c.tx, seg.header.ackno, seg.header.win);
      AckOnlyAppends(c.tx, seg.header.ackno, seg.header.win);
      if Handshake(c) && !Handshake(c') { SentMeansQueued(c.tx, seg.header.ackno, seg.header.win); }
    }
    SummariesMean(c');
  }

  lemma AckOnlyAppends(s: Sender, ackno: u32, window: u16)
    requires SenderInv(s)
    ensures s.out <= ReceiveAck(s, ackno, window).out
  {
    hide Fill, Acknowledge, SeqInv, TimerInv, Unwrap, PopAcked;
    var ack := Unwrap(ackno, s.isn, s.next);
    if ack <= s.next {
      AcknowledgeKeeps(s, ack, window);
      SenderHistory.AcknowledgeEffect(s, ack, window);
      FillAppends(Acknowledge(s, ack, window));
    }
  }

  lemma SentMeansQueued(s: Sender, ackno: u32, window: u16)
    requires SenderInv(s) && ReceiveAck(s, ackno, window).next > s.next
    ensures ReceiveAck(s, ackno, window).out != []
  {
    hide Acknowledge, TimerInv, Unwrap, PopAcked, FillFrom, Chain, Carries;
    var ack := Unwrap(ackno, s.isn, s.next);
    var s1 := Acknowledge(s, ack, window);
    AcknowledgeKeeps(s, ack, window);
    FillSendsNext(s1, EffectiveWindow(s1));
    FillKeeps(s1, EffectiveWindow(s1));
    if Batch(s1, Fill(s1)) == [] {
      assert Fill(s1).outstanding == s1.outstanding;
      ChainLength(s1.outstanding, Unacked(s1), s1.next);
      ChainLength(Fill(s1).outstanding, Unacked(Fill(s1)), Fill(s1).next);
    }
  }
}
