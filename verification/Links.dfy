/** One direction of a connection: a sender, the receiver at the other end, and the
    packets between them. */
module Links {
  import opened FixedWidth
  import opened WrappingIntegers
  import opened ByteStreams
  import opened Reassembly
  import opened TcpSegments
  import opened Receivers
  import opened SenderModel
  import opened SenderInvariants
  import opened SenderRuns
  import opened ConnectionModel

  /** Streams stay short enough for 64-bit sequence numbers. */
  const MAX_STREAM: nat := TWO_64 - 4

  /** The bytes that the sender has put into segments. */
  function SentBytes(s: Sender): seq<byte> { s.stream.all[..s.stream.read] }

  /** What the receiver acknowledges; nothing before the SYN. */
  function AckOf(r: Receiver): nat { if r.isn.None? then 0 else AbsoluteAck(r) }

  /** The receiver's view agrees with what the sender sent, and the sender has released
      only what the receiver acknowledged. */
  ghost predicate LinkInv(s: Sender, r: Receiver) {
    && SenderInv(s)
    && |s.stream.all| < MAX_STREAM
    && Agrees(r.reassembler, SentBytes(s))
    && (r.reassembler.eof != NO_EOF ==> s.finSent)
    && (if r.isn.Some? then r.isn.value == s.isn && s.synSent
        else Cur(r.reassembler) == 0 && r.reassembler.eof == NO_EOF)
    && Unacked(s) <= AckOf(r)
    && s.window <= r.Out().capacity
  }

  /** The segment of a packet as its sender made it. */
  function Strip(p: Packet): Tagged {
    Tagged(p.abs, p.seg.(header := p.seg.header.(ack := false, rst := false)))
  }

  /** A packet of an endpoint with sender `s` and receiver `rx`: it carries an excerpt of the
      sender's stream, acknowledges no more than the receiver has, and offers no more than
      the receiver takes. */
  ghost predicate PacketOk(s: Sender, rx: Receiver, p: Packet) {
    && Carries(s, Strip(p))
    && (p.seg.header.rst ==> Length(p.seg) == 0)
    && p.seg.header.win <= rx.Out().capacity
    && (p.seg.header.ack ==>
          && rx.isn.Some?
          && p.seg.header.ackno == Wrap(p.absAck, rx.isn.value)
          && p.absAck <= AbsoluteAck(rx)
          && p.absAck + p.seg.header.win <= RightEdge(rx))
  }

  ghost predicate ReceiverGrows(r: Receiver, r': Receiver) {
    && (r.isn.Some? ==> r'.isn == r.isn)
    && AckOf(r) <= AckOf(r') && RightEdge(r) <= RightEdge(r')
    && r'.Out().capacity == r.Out().capacity
    && (r.Out().ended ==> r'.Out().ended)
    && (r.reassembler.eof != NO_EOF ==> r'.reassembler.eof == r.reassembler.eof)
  }

  // ---------- Consequences ----------

  /** Nothing is acknowledged that was not sent; a finished stream is finished on both
      sides with the same bytes. */
  lemma LinkBounds(s: Sender, r: Receiver)
    requires LinkInv(s, r)
    ensures AckOf(r) <= s.next < TWO_64
    ensures r.Out().all <= s.stream.all
    ensures r.Out().ended ==> s.finSent && Eof(s.stream) && r.Out().all == s.stream.all
    ensures r.Out().ended ==> r.isn.Some? && AckOf(r) == s.next
    ensures AckOf(r) == s.next && s.finSent ==> r.Out().ended
    ensures r.Out().ended ==> r.reassembler.eof != NO_EOF
  {
    var t := SentBytes(s);
    assert r.Out().all == t[..|r.Out().all|];
    assert t == s.stream.all[..|t|];
  }

  // ---------- The sender moves ----------

  lemma AgreesExtends(r: Reassembler, t: seq<byte>, t': seq<byte>)
    requires Agrees(r, t) && t <= t' && |t'| < NO_EOF
    requires r.eof != NO_EOF ==> t' == t
    ensures Agrees(r, t')
  {
    assert t'[..Cur(r)] == t[..Cur(r)];
  }

  /** The sender sends more, or releases what has been acknowledged. */
  lemma SenderMoves(s: Sender, s': Sender, r: Receiver)
    requires LinkInv(s, r)
    requires SenderInv(s') && Grows(s, s') && |s'.stream.all| < MAX_STREAM
    requires Unacked(s') <= AckOf(r) && s'.window <= r.Out().capacity
    ensures LinkInv(s', r)
  {
    var t, t' := SentBytes(s), SentBytes(s');
    assert t <= t' by {
      assert s'.stream.all[..|s.stream.all|] == s.stream.all;
      assert t'[..|t|] == t;
    }
    if s.finSent {
      assert s'.stream.all == s.stream.all;
      assert t == s.stream.all && t' == s.stream.all;
    }
    AgreesExtends(r.reassembler, t, t');
  }

  lemma PacketStaysOk(s: Sender, s': Sender, rx: Receiver, rx': Receiver, p: Packet)
    requires PacketOk(s, rx, p) && SeqInv(s) && Grows(s, s') && ReceiverGrows(rx, rx')
    ensures PacketOk(s', rx', p)
  {
    CarriesGrows(s, s', Strip(p));
  }

  // ---------- The receiver gets a packet ----------

  /** The 32-bit number decodes to the number it was made from. */
  predicate FreshSeq(r: Receiver, p: Packet) {
    Length(p.seg) > 0 ==> Abs(p.abs - Cur(r.reassembler)) < TWO_31
  }

  /** The number decodes to a place outside the receive window, and there is no FIN. */
  predicate Outside(r: Receiver, p: Packet) {
    && r.isn.Some? && !p.seg.header.fin
    && var i := StreamIndex(Unwrap(p.seg.header.seqno, r.isn.value, Cur(r.reassembler)), p.seg.header.syn);
       Min(EndIndex(i, |p.seg.payload|), Min(Edge(r.reassembler), r.reassembler.eof)) <= Max(i, Cur(r.reassembler))
  }

  /** The packet's number is read correctly, or the receiver ignores the packet. */
  predicate SeqHarmless(r: Receiver, p: Packet) {
    FreshSeq(r, p) || Outside(r, p) || (r.isn.None? && !p.seg.header.syn)
  }

  lemma OutsideIsIgnored(s: Sender, r: Receiver, p: Packet)
    requires LinkInv(s, r) && Outside(r, p)
    ensures Receive(r, p.seg) == (Ok, r) && !p.seg.header.fin
  {
    hide SenderInv, Unwrap;
    var i := StreamIndex(Unwrap(p.seg.header.seqno, r.isn.value, Cur(r.reassembler)), p.seg.header.syn);
    PushOutside(r.reassembler, SentBytes(s), p.seg.payload, i);
  }

  lemma PushOutside(r: Reassembler, t: seq<byte>, data: seq<byte>, index: u64)
    requires Agrees(r, t)
    requires Min(EndIndex(index, |data|), Min(Edge(r), r.eof)) <= Max(index, Cur(r))
    ensures Push(r, data, index, false) == (Ok, r)
  {
    assert Write(r.out, []) == r.out;
    assert Assemble(r) == r;
  }

  lemma PushNothing(r: Reassembler, t: seq<byte>, index: u64)
    requires Agrees(r, t)
    ensures Push(r, [], index, false) == (Ok, r)
  {
    assert Write(r.out, []) == r.out;
    assert Assemble(r) == r;
  }

  /** A packet of the sender's with a fresh number is put where it belongs. */
  lemma ReceivePlaces(s: Sender, r: Receiver, p: Packet)
    requires LinkInv(s, r) && Carries(s, Strip(p)) && FreshSeq(r, p) && Length(p.seg) > 0
    requires r.isn.Some? || p.seg.header.syn
    ensures 0 <= Index(Strip(p)) < TWO_64
    ensures var (status, reassembler) := Push(r.reassembler, p.seg.payload, Index(Strip(p)), p.seg.header.fin);
            Receive(r, p.seg) == (status, Receiver(reassembler, Some(s.isn)))
  {
    hide Push, Unwrap;
    LinkBounds(s, r);
    UnwrapInvertsWrap(p.abs, s.isn, Cur(r.reassembler));
    assert Wrap(0, s.isn) == s.isn;
  }

  /** What receiving packet `p` must leave behind. */
  ghost predicate Received(s: Sender, r: Receiver, p: Packet, r': Receiver) {
    && LinkInv(s, r') && ReceiverGrows(r, r')
    && r'.Out().error == r.Out().error
    && (r'.reassembler.eof != NO_EOF <==> r.reassembler.eof != NO_EOF
                                          || (p.seg.header.fin && (r.isn.Some? || p.seg.header.syn)))
  }

  /** Receiving never throws and keeps the link; the end of the stream becomes known
      exactly by a FIN. */
  lemma LinkReceive(s: Sender, r: Receiver, p: Packet)
    requires LinkInv(s, r) && Carries(s, Strip(p)) && SeqHarmless(r, p)
    ensures Receive(r, p.seg).0 == Ok && Received(s, r, p, Receive(r, p.seg).1)
  {
    hide Push, Chain, Outside, Unwrap;
    if r.isn.None? && !p.seg.header.syn {
    } else if Outside(r, p) {
      OutsideIsIgnored(s, r, p);
    } else if Length(p.seg) == 0 {
      var absSeq := Unwrap(p.seg.header.seqno, r.isn.value, Cur(r.reassembler));
      PushNothing(r.reassembler, SentBytes(s), StreamIndex(absSeq, false));
    } else {
      LinkReceiveData(s, r, p);
    }
  }

  lemma LinkReceiveData(s: Sender, r: Receiver, p: Packet)
    requires LinkInv(s, r) && Carries(s, Strip(p)) && FreshSeq(r, p) && Length(p.seg) > 0
    requires r.isn.Some? || p.seg.header.syn
    ensures Receive(r, p.seg).0 == Ok && Received(s, r, p, Receive(r, p.seg).1)
  {
    hide Push, Receive, Chain, TimerInv, RenoInv, Wf;
    ReceivePlaces(s, r, p);
    PushCarried(s, r.reassembler, p);
    LinkBounds(s, r);
  }

  /** The push of a packet's payload, in terms of the bytes sent. */
  lemma PushCarried(s: Sender, r: Reassembler, p: Packet)
    requires SeqInv(s) && Agrees(r, SentBytes(s)) && Carries(s, Strip(p)) && Length(p.seg) > 0
    ensures 0 <= Index(Strip(p)) && Index(Strip(p)) + |p.seg.payload| <= |SentBytes(s)| < NO_EOF
    ensures var i := Index(Strip(p));
            var (status, r') := Push(r, p.seg.payload, i, p.seg.header.fin);
            && status == Ok && Agrees(r', SentBytes(s))
            && (forall k: nat :: Knows(r', k) <==> Knows(r, k) || Accepts(r, i, |p.seg.payload|, k))
            && r'.eof == (if p.seg.header.fin then |SentBytes(s)| else r.eof)
            && r.out.all <= r'.out.all && r'.out.error == r.out.error && (r.out.ended ==> r'.out.ended)
            && r'.out.read == r.out.read && r'.out.capacity == r.out.capacity
  {
    hide Push;
    var i := Index(Strip(p));
    assert p.seg.payload == SentBytes(s)[i..i + |p.seg.payload|];
    PushLearns(r, SentBytes(s), i, |p.seg.payload|, p.seg.header.fin);
    PushOnlyAppends(r, p.seg.payload, i, p.seg.header.fin);
  }

  /** A packet that starts at or before the acknowledgment point and fits the window is
      acknowledged whole. */
  lemma ReceiveCompletes(s: Sender, r: Receiver, p: Packet)
    requires LinkInv(s, r) && Carries(s, Strip(p)) && FreshSeq(r, p) && Length(p.seg) > 0
    requires p.abs <= AckOf(r)
    requires Index(Strip(p)) + |p.seg.payload| <= Edge(r.reassembler)
    ensures Receive(r, p.seg).1.isn.Some? && AckOf(Receive(r, p.seg).1) >= p.abs + Length(p.seg)
  {
    hide Push, Receive, Chain;
    ReceivePlaces(s, r, p);
    PushCarried(s, r.reassembler, p);
    LinkReceive(s, r, p);
    var r' := Receive(r, p.seg).1.reassembler;
    assert !Knows(r', Cur(r'));
    assert !Accepts(r.reassembler, Index(Strip(p)), |p.seg.payload|, Cur(r'));
    LinkBounds(s, r);
    LinkBounds(s, Receive(r, p.seg).1);
  }
}
