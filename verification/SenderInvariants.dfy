/** What every sender operation keeps: the sequence space, the timer and the
    congestion window. */
module SenderInvariants {
  import opened FixedWidth
  import opened WrappingIntegers
  import opened ByteStreams
  import opened TcpSegments
  import opened SenderModel

  // ---------- Definitions ----------

  /** The queue covers `[lo, hi)` without gaps or overlaps, in order, by non-empty segments. */
  ghost predicate Chain(q: seq<Tagged>, lo: int, hi: int) {
    if q == [] then lo == hi
    else q[0].abs == lo && Length(q[0].seg) > 0 && Chain(q[1..], q[0].End(), hi)
  }

  function TotalLength(q: seq<Tagged>): nat {
    if q == [] then 0 else Length(q[0].seg) + TotalLength(q[1..])
  }

  function Payloads(q: seq<Tagged>): seq<byte> {
    if q == [] then [] else q[0].seg.payload + Payloads(q[1..])
  }

  /** The stream position of the first payload byte. */
  function Index(t: Tagged): int { t.abs - 1 + (if t.seg.header.syn then 1 else 0) }

  /** No port, no option, no urgent data, and no checksum yet. */
  predicate Plain(h: TCPHeader) {
    h.sport == 0 && h.dport == 0 && h.doff == 5 && !h.urg && !h.psh && h.cksum == 0 && h.uptr == 0
  }

  /** `t` tells the truth about the stream of `s`: its payload is the excerpt that its
      number stands for, it has the SYN flag exactly at number zero, and a FIN only at
      the end of the finished stream. */
  ghost predicate Carries(s: Sender, t: Tagged) {
    && t.seg.header.seqno == Wrap(t.abs, s.isn)
    && !t.seg.header.rst && !t.seg.header.ack && Plain(t.seg.header)
    && t.End() <= s.next
    && (Length(t.seg) > 0 ==>
          && (t.seg.header.syn <==> t.abs == 0)
          && Index(t) + |t.seg.payload| <= s.stream.read
          && t.seg.payload == s.stream.all[Index(t)..Index(t) + |t.seg.payload|]
          && (t.seg.header.fin ==> s.finSent && Index(t) + |t.seg.payload| == |s.stream.all|))
  }

  /** The sequence-space invariant. */
  ghost predicate SeqInv(s: Sender) {
    && 0 <= s.inFlight <= s.next
    && Chain(s.outstanding, s.next - s.inFlight, s.next)
    && s.next == (if s.synSent then 1 else 0) + s.stream.read + (if s.finSent then 1 else 0)
    && (!s.synSent ==> s.stream.read == 0 && !s.finSent)
    && (s.finSent ==> Eof(s.stream))
    && (forall t :: t in s.outstanding ==> Carries(s, t))
    && (forall t :: t in s.out ==> Carries(s, t))
  }

  /** The stream, what was sent of it and the flags only ever grow, and once its end has
      been sent the stream stays as it is. */
  ghost predicate Grows(s: Sender, s': Sender) {
    && s'.isn == s.isn && s'.initialRto == s.initialRto
    && s.stream.all <= s'.stream.all && s.stream.read <= s'.stream.read
    && (s.stream.ended ==> s'.stream.ended)
    && (s.finSent ==> s'.stream.all == s.stream.all)
    && s.next <= s'.next
    && (s.synSent ==> s'.synSent)
    && (s.finSent ==> s'.finSent)
  }

  /** The timer runs exactly while something is outstanding, and its timeout has doubled
      once for each consecutive retransmission. */
  ghost predicate TimerInv(s: Sender) {
    && (s.timer.running <==> s.outstanding != [])
    && s.timer.timeout == s.initialRto * Pow2(s.retx) % TWO_32
  }

  /** The congestion window never falls below one maximal segment. */
  ghost predicate RenoInv(s: Sender) {
    s.reno.cwnd >= MAX_PAYLOAD_SIZE && s.reno.ssthresh >= 2 * MAX_PAYLOAD_SIZE
  }

  ghost predicate SenderInv(s: Sender) { SeqInv(s) && TimerInv(s) && RenoInv(s) }

  // ---------- The queue ----------

  lemma {:induction false} ChainAppend(q: seq<Tagged>, lo: int, hi: int, t: Tagged)
    requires Chain(q, lo, hi) && t.abs == hi && Length(t.seg) > 0
    ensures Chain(q + [t], lo, t.End())
  {
    if q == [] {
      assert q + [t] == [t];
      assert Chain([t][1..], t.End(), t.End());
    } else {
      assert (q + [t])[1..] == q[1..] + [t];
      ChainAppend(q[1..], q[0].End(), hi, t);
    }
  }

  /** A chain's total length is the distance it covers. */
  lemma {:induction false} ChainLength(q: seq<Tagged>, lo: int, hi: int)
    requires Chain(q, lo, hi)
    ensures TotalLength(q) == hi - lo
  {
    if q != [] { ChainLength(q[1..], q[0].End(), hi); }
  }

  lemma CarriesGrows(s: Sender, s': Sender, t: Tagged)
    requires Carries(s, t) && Grows(s, s')
    ensures Carries(s', t)
  {
    if Length(t.seg) > 0 {
      var i := Index(t);
      assert s'.stream.all[..|s.stream.all|] == s.stream.all;
      assert s'.stream.all[i..i + |t.seg.payload|] == s.stream.all[i..i + |t.seg.payload|];
    }
  }

  /** What was sent truthfully stays truthful. */
  lemma AllCarried(s: Sender, s': Sender, q: seq<Tagged>)
    requires SeqInv(s) && Grows(s, s')
    requires forall t :: t in q ==> Carries(s, t)
    ensures forall t :: t in q ==> Carries(s', t)
  {
    forall t | t in q ensures Carries(s', t) {
      CarriesGrows(s, s', t);
    }
  }

  // ---------- Filling the window ----------

  lemma NextIsTrue(s: Sender, window: nat)
    requires SeqInv(s) && s.inFlight < window
    ensures var t := NextSegment(s, window);
            && t.abs == s.next
            && (t.seg.header.fin ==> !s.finSent && Eof(Pop(s.stream, |t.seg.payload|)))
            && t.seg.payload == Peek(s.stream, |t.seg.payload|)
            && |t.seg.payload| <= Buffered(s.stream)
            && s.inFlight + Length(t.seg) <= window
            && (Length(t.seg) > 0 ==> Carries(Emit(s, t), t))
            && (s.finSent ==> Length(t.seg) == 0)
            && |t.seg.payload| <= Min(MAX_PAYLOAD_SIZE, window)
  {
  }

  lemma EmitKeeps(s: Sender, window: nat)
    requires SeqInv(s) && s.inFlight < window
    requires Length(NextSegment(s, window).seg) > 0
    ensures var s' := Emit(s, NextSegment(s, window));
            SeqInv(s') && Grows(s, s') && s'.timer.running
  {
    var t := NextSegment(s, window);
    var s' := Emit(s, t);
    NextIsTrue(s, window);
    ChainAppend(s.outstanding, s.next - s.inFlight, s.next, t);
    AllCarried(s, s', s.outstanding);
    AllCarried(s, s', s.out);
  }

  /** The segments that filling adds, as the new tail of the outstanding queue. */
  function Batch(s: Sender, s': Sender): seq<Tagged>
    requires |s.outstanding| <= |s'.outstanding|
  {
    s'.outstanding[|s.outstanding|..]
  }

  /** Filling keeps the sequence-space invariant, starts the timer if it sends, and
      touches nothing else. */
  lemma {:induction false} FillKeeps(s: Sender, window: nat)
    requires SeqInv(s)
    ensures var s' := FillFrom(s, window);
            && SeqInv(s') && Grows(s, s') && s'.stream.all == s.stream.all
            && |s.outstanding| <= |s'.outstanding|
            && s' == s.(stream := s'.stream, next := s'.next, timer := s'.timer, outstanding := s'.outstanding,
                        inFlight := s'.inFlight, synSent := s'.synSent, finSent := s'.finSent, out := s'.out)
            && s'.stream == s.stream.(read := s'.stream.read)
            && s'.timer == (if s.timer.running || |s'.outstanding| == |s.outstanding| then s.timer
                            else s.timer.Restart())
            && s'.next - s'.inFlight == s.next - s.inFlight
    decreases window - s.inFlight
  {
    if s.inFlight < window {
      var t := NextSegment(s, window);
      if Length(t.seg) > 0 {
        EmitKeeps(s, window);
        FillKeeps(Emit(s, t), window);
      }
    }
  }

  /** Filling changes no byte of the stream, whatever the state. */
  lemma FillSameStream(s: Sender)
    ensures Fill(s).stream.all == s.stream.all && Fill(s).stream.ended == s.stream.ended
  {
    FillFromSameStream(s, EffectiveWindow(s));
  }

  lemma {:induction false} FillFromSameStream(s: Sender, window: nat)
    ensures FillFrom(s, window).stream.all == s.stream.all
    ensures FillFrom(s, window).stream.ended == s.stream.ended
    decreases window - s.inFlight
  {
    if s.inFlight < window && Length(NextSegment(s, window).seg) > 0 {
      FillFromSameStream(Emit(s, NextSegment(s, window)), window);
    }
  }

  /** Filling sends the next bytes of the stream, each once and in order: the new
      segments go to both queues and their payloads join up to the bytes read. */
  lemma {:induction false} FillSendsNext(s: Sender, window: nat)
    requires SeqInv(s)
    ensures |s.outstanding| <= |FillFrom(s, window).outstanding|
    ensures s.stream.read <= FillFrom(s, window).stream.read <= |s.stream.all|
    ensures var s' := FillFrom(s, window);
            && s'.outstanding == s.outstanding + Batch(s, s')
            && s'.out == s.out + Batch(s, s')
            && Payloads(Batch(s, s')) == s.stream.all[s.stream.read..s'.stream.read]
    decreases window - s.inFlight
  {
    FillKeeps(s, window);
    if s.inFlight < window {
      var t := NextSegment(s, window);
      if Length(t.seg) > 0 {
        var s1 := Emit(s, t);
        NextIsTrue(s, window);
        EmitKeeps(s, window);
        FillKeeps(s1, window);
        FillSendsNext(s1, window);
        FillBatch(s, t, s1, FillFrom(s, window));
      }
    }
  }

  /** Filling never lifts the bytes in flight above the window and stops only when the
      window is full or there is nothing left to send. */
  lemma {:induction false} FillUsesWindow(s: Sender, window: nat)
    requires SeqInv(s)
    ensures var s' := FillFrom(s, window);
            && s'.inFlight <= Max(s.inFlight, window)
            && (s'.inFlight >= window
                || (s'.synSent && Buffered(s'.stream) == 0 && (s'.stream.ended ==> s'.finSent)))
    decreases window - s.inFlight
  {
    if s.inFlight < window {
      var t := NextSegment(s, window);
      NextIsTrue(s, window);
      if Length(t.seg) > 0 {
        EmitKeeps(s, window);
        FillUsesWindow(Emit(s, t), window);
      }
    }
  }

  /** Only the last segment can have a FIN, it has one exactly when the flag changes, and
      nothing is sent after a FIN; every payload fits one segment and the window. */
  ghost predicate CutWell(batch: seq<Tagged>, finBefore: bool, finAfter: bool, limit: nat) {
    && (finBefore ==> batch == [] && finAfter)
    && (forall i :: 0 <= i < |batch| - 1 ==> !batch[i].seg.header.fin)
    && (if batch == [] then finBefore == finAfter else batch[|batch| - 1].seg.header.fin == finAfter)
    && (forall i :: 0 <= i < |batch| ==> |batch[i].seg.payload| <= limit)
  }

  lemma CutWellCons(t: Tagged, batch: seq<Tagged>, finAfter: bool, limit: nat)
    requires CutWell(batch, t.seg.header.fin, finAfter, limit)
    requires |t.seg.payload| <= limit
    ensures CutWell([t] + batch, false, finAfter, limit)
  {
  }

  lemma FillCons(s: Sender, window: nat)
    requires SeqInv(s) && s.inFlight < window && Length(NextSegment(s, window).seg) > 0
    ensures var t := NextSegment(s, window);
            var s1, s' := Emit(s, t), FillFrom(s, window);
            && s' == FillFrom(s1, window)
            && |s1.outstanding| <= |s'.outstanding|
            && Batch(s, s') == [t] + Batch(s1, s')
  {
    var t := NextSegment(s, window);
    var s1, s' := Emit(s, t), FillFrom(s, window);
    EmitKeeps(s, window);
    assert s' == FillFrom(s1, window);
    hide FillFrom, NextSegment, SeqInv;
    FillSendsNext(s1, window);
    JoinBatch(s.outstanding, t, Batch(s1, s'));
  }

  lemma {:induction false} FillCutsWell(s: Sender, window: nat)
    requires SeqInv(s)
    ensures |s.outstanding| <= |FillFrom(s, window).outstanding|
    ensures var s' := FillFrom(s, window);
            CutWell(Batch(s, s'), s.finSent, s'.finSent, Min(MAX_PAYLOAD_SIZE, window))
    decreases window - s.inFlight
  {
    FillKeeps(s, window);
    if s.inFlight < window {
      var t := NextSegment(s, window);
      NextIsTrue(s, window);
      if Length(t.seg) > 0 {
        var s1, s' := Emit(s, t), FillFrom(s, window);
        EmitKeeps(s, window);
        FillCutsWell(s1, window);
        FillCons(s, window);
        assert s1.finSent == t.seg.header.fin;
        CutWellCons(t, Batch(s1, s'), s'.finSent, Min(MAX_PAYLOAD_SIZE, window));
      }
    }
  }

  lemma FillBatch(s: Sender, t: Tagged, s1: Sender, s': Sender)
    requires s1 == Emit(s, t)
    requires t.seg.payload == Peek(s.stream, |t.seg.payload|) && |t.seg.payload| <= Buffered(s.stream)
    requires |s1.outstanding| <= |s'.outstanding| && s'.outstanding == s1.outstanding + Batch(s1, s')
    requires s'.out == s1.out + Batch(s1, s')
    requires s1.stream.all == s'.stream.all && s1.stream.read <= s'.stream.read
    requires Payloads(Batch(s1, s')) == s1.stream.all[s1.stream.read..s'.stream.read]
    ensures Batch(s, s') == [t] + Batch(s1, s')
    ensures s'.outstanding == s.outstanding + Batch(s, s') && s'.out == s.out + Batch(s, s')
    ensures Payloads(Batch(s, s')) == s.stream.all[s.stream.read..s'.stream.read]
  {
    hide Payloads, Length;
    JoinBatch(s.outstanding, t, Batch(s1, s'));
    JoinBatch(s.out, t, Batch(s1, s'));
    PayloadsCons(t, Batch(s1, s'));
    SplitSlice(s.stream.all, s.stream.read, s1.stream.read, s'.stream.read);
  }

  lemma JoinBatch(q: seq<Tagged>, t: Tagged, batch: seq<Tagged>)
    ensures q + [t] + batch == q + ([t] + batch)
    ensures (q + [t] + batch)[|q|..] == [t] + batch
    ensures (q + [t] + batch)[|q + [t]|..] == batch
  {
  }

  lemma PayloadsCons(t: Tagged, batch: seq<Tagged>)
    ensures Payloads([t] + batch) == t.seg.payload + Payloads(batch)
  {
    assert ([t] + batch)[1..] == batch;
  }

  lemma SplitSlice(all: seq<byte>, i: nat, j: nat, k: nat)
    requires i <= j <= k <= |all|
    ensures all[i..k] == all[i..j] + all[j..k]
  {
  }
}
