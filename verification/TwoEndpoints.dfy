/** Two endpoints joined by a network that may lose, duplicate and reorder packets. The
    network is the set of all packets ever sent in each direction: a packet may be
    delivered at any later time, any number of times, or never. */
module TwoEndpoints {
  import opened FixedWidth
  import opened WrappingIntegers
  import opened ByteStreams
  import opened Reassembly
  import opened Receivers
  import opened SenderModel
  import opened SenderInvariants
  import opened SenderRuns
  import opened ConnectionModel
  import opened Links
  import opened Endpoints

  datatype World = World(a: Conn, b: Conn, fromA: set<Packet>, fromB: set<Packet>)

  datatype Op =
    | OpConnect
    | OpWrite(data: seq<byte>)
    | OpEnd
    | OpRead(n: nat)
    | OpTick(ms: nat)
    | OpTransmit
    | OpDeliver(p: Packet)

  /** An operation of endpoint `a`, or of endpoint `b`. */
  datatype Action = Action(atA: bool, op: Op)

  function Swap(w: World): World { World(w.b, w.a, w.fromB, w.fromA) }

  /** The 32-bit numbers of a packet are less than half their space away from the numbers
      they are compared with. */
  predicate Fresh(c: Conn, p: Packet) {
    FreshSeq(c.rx, p) && (p.seg.header.ack ==> Abs(p.absAck - c.tx.next) < TWO_31)
  }

  /** The number that the acknowledgment is taken for is beyond what was sent, so that it is
      ignored, or the peer does have everything up to it. */
  predicate AckHarmless(s: Sender, r: Receiver, p: Packet) {
    p.seg.header.ack ==>
      var ack := Unwrap(p.seg.header.ackno, s.isn, s.next);
      ack > s.next || ack <= AckOf(r)
  }

  /** Endpoint `x` does not mistake packet `p` of its peer `y`: each of its two numbers is
      read correctly, or the misreading has no bad effect. */
  predicate Harmless(x: Conn, y: Conn, p: Packet) {
    p.seg.header.rst || (SeqHarmless(x.rx, p) && AckHarmless(x.tx, y.rx, p))
  }

  predicate LegalAtA(w: World, op: Op) {
    match op
    case OpWrite(data) => !TooLate(w.a.tx, data) && |w.a.tx.stream.all| + |data| < MAX_STREAM
    case OpDeliver(p) => p in w.fromB && Harmless(w.a, w.b, p)
    case _ => true
  }

  function StepAtA(w: World, op: Op): (PushStatus, World)
    requires RenoInv(w.a.tx)
  {
    match op
    case OpConnect => (Ok, w.(a := Connect(w.a)))
    case OpWrite(data) => (Ok, w.(a := WriteData(w.a, data)))
    case OpEnd => (Ok, w.(a := EndInputStream(w.a)))
    case OpRead(n) => (Ok, w.(a := ReadData(w.a, n)))
    case OpTick(ms) => (Ok, w.(a := TickConn(w.a, ms)))
    case OpTransmit => (Ok, w.(a := w.a.(out := []), fromA := w.fromA + set p | p in w.a.out))
    case OpDeliver(p) => var (status, c) := SegmentReceived(w.a, p.seg); (status, w.(a := c))
  }

  /** An operation changes its own endpoint and what it has sent, and nothing else. */
  lemma OtherSide(w: World, op: Op)
    requires RenoInv(w.a.tx)
    ensures StepAtA(w, op).1.b == w.b && StepAtA(w, op).1.fromB == w.fromB
    ensures !op.OpTransmit? ==> StepAtA(w, op).1.fromA == w.fromA
  {
  }

  // ---------- The invariant ----------

  /** An endpoint that no longer lingers has the whole stream of its peer, every FIN it
      sent acknowledges all of it, and the peer cannot know of the FIN without knowing that. */
  ghost predicate Passive(x: Conn, y: Conn, net: set<Packet>) {
    x.active && !x.linger ==>
      && x.rx.Out().ended
      && (forall p :: (p in net || p in x.out) && p.seg.header.fin ==>
            p.seg.header.ack && p.absAck == AbsoluteAck(x.rx))
      && (y.rx.reassembler.eof != NO_EOF ==> AllAcked(y.tx))
  }

  ghost predicate PacketsOk(x: Conn, net: set<Packet>) {
    forall p :: p in net || p in x.out ==> PacketOk(x.tx, x.rx, p)
  }

  /** What holds of endpoint `x`, its packets and the link to its peer `y`. */
  ghost predicate Half(x: Conn, y: Conn, net: set<Packet>) {
    LinkInv(x.tx, y.rx) && FlagsOk(x) && PacketsOk(x, net) && Passive(x, y, net)
  }

  ghost predicate Inv(w: World) { Half(w.a, w.b, w.fromA) && Half(w.b, w.a, w.fromB) }

  // ---------- Preservation ----------

  lemma PacketsStayOk(x: Conn, x': Conn, net: set<Packet>)
    requires PacketsOk(x, net) && SeqInv(x.tx) && Grows(x.tx, x'.tx) && ReceiverGrows(x.rx, x'.rx)
    requires Queues(x, x')
    ensures PacketsOk(x', net)
  {
    forall p | p in net || p in x'.out ensures PacketOk(x'.tx, x'.rx, p) {
      if p in net || p in x.out {
        PacketStaysOk(x.tx, x'.tx, x.rx, x'.rx, p);
      }
    }
  }

  /** The endpoint's own step keeps its `Passive` clause. */
  lemma PassiveOwnStep(x: Conn, x': Conn, y: Conn, net: set<Packet>)
    requires Passive(x, y, net) && PacketsOk(x', net) && FlagStep(x, x') && Queues(x, x')
    requires LinkInv(y.tx, x.rx) && LinkInv(y.tx, x'.rx) && LinkInv(x'.tx, y.rx)
    requires ReceiverGrows(x.rx, x'.rx)
    ensures Passive(x', y, net)
  {
    hide SenderInv, Agrees;
    if x'.active && !x'.linger {
      if x.linger {
        assert forall p :: p in net || p in x'.out ==> !p.seg.header.fin by {
          forall p | p in net || p in x'.out ensures !p.seg.header.fin {
            assert PacketOk(x'.tx, x'.rx, p);
          }
        }
      } else {
        LinkBounds(y.tx, x.rx);
        LinkBounds(y.tx, x'.rx);
      }
    }
  }

  /** The peer's step keeps it too, as long as a FIN does not come without its acknowledgment. */
  lemma PassivePeerStep(x: Conn, y: Conn, y': Conn, net: set<Packet>)
    requires Passive(x, y, net)
    requires SeqInv(y.tx) && SeqInv(y'.tx) && Grows(y.tx, y'.tx) && Unacked(y.tx) <= Unacked(y'.tx)
    requires x.active && !x.linger && y'.rx.reassembler.eof != NO_EOF && y.rx.reassembler.eof == NO_EOF
             ==> AllAcked(y'.tx)
    ensures Passive(x, y', net)
  {
    if AllAcked(y.tx) { AllAckedStays(y.tx, y'.tx); }
  }

  /** A step that neither receives nor acknowledges anything. */
  lemma OwnStep(x: Conn, x': Conn, y: Conn, netX: set<Packet>, netY: set<Packet>)
    requires Half(x, y, netX) && Half(y, x, netY)
    requires Evolves(x, x') && FlagStep(x, x') && |x'.tx.stream.all| < MAX_STREAM
    requires LinkInv(y.tx, x'.rx) && ReceiverGrows(x.rx, x'.rx) && x'.rx.reassembler.eof == x.rx.reassembler.eof
    ensures Half(x', y, netX) && Half(y, x', netY)
  {
    hide SeqInv, TimerInv, RenoInv, Agrees, Carries;
    SenderMoves(x.tx, x'.tx, y.rx);
    PacketsStayOk(x, x', netX);
    PassiveOwnStep(x, x', y, netX);
    PassivePeerStep(y, x, x', netY);
  }

  lemma SimpleStepKeepsInv(w: World, op: Op)
    requires Inv(w) && LegalAtA(w, op) && !op.OpTransmit? && !op.OpDeliver?
    ensures StepAtA(w, op).0 == Ok && Inv(StepAtA(w, op).1)
  {
    hide SeqInv, TimerInv, RenoInv, Agrees, Passive, PacketsOk, FlagsOk, TickConn, Fill, Flush;
    var c := w.a;
    match op {
      case OpConnect =>
        ConnectEvolves(c);
        OwnStep(c, Connect(c), w.b, w.fromA, w.fromB);
      case OpWrite(data) =>
        WriteEvolves(c, data);
        OwnStep(c, WriteData(c, data), w.b, w.fromA, w.fromB);
      case OpEnd =>
        EndEvolves(c);
        OwnStep(c, EndInputStream(c), w.b, w.fromA, w.fromB);
      case OpRead(n) =>
        ReadEvolves(c, w.b, n);
        OwnStep(c, ReadData(c, n), w.b, w.fromA, w.fromB);
      case OpTick(ms) =>
        TickEvolves(c, ms);
        FailedLink(w.b.tx, c.rx);
        OwnStep(c, TickConn(c, ms), w.b, w.fromA, w.fromB);
    }
  }

  lemma ReadEvolves(c: Conn, peer: Conn, n: nat)
    requires SenderInv(c.tx) && FlagsOk(c) && LinkInv(peer.tx, c.rx)
    ensures var c' := ReadData(c, n);
            && Evolves(c, c') && FlagStep(c, c') && c'.tx == c.tx
            && LinkInv(peer.tx, c'.rx) && ReceiverGrows(c.rx, c'.rx)
            && c'.rx.reassembler.eof == c.rx.reassembler.eof
  {
  }

  lemma FailedLink(s: Sender, r: Receiver)
    requires LinkInv(s, r)
    ensures LinkInv(s, FailReceiver(r)) && ReceiverGrows(r, FailReceiver(r))
    ensures FailReceiver(r).reassembler.eof == r.reassembler.eof
  {
  }

  lemma TransmitKeepsInv(w: World)
    requires Inv(w)
    ensures Inv(StepAtA(w, OpTransmit).1)
  {
    hide SeqInv, Agrees, Carries;
    var w' := StepAtA(w, OpTransmit).1;
    assert forall p :: (p in w'.fromA || p in w'.a.out) <==> (p in w.fromA || p in w.a.out);
  }

  // ---------- Delivery ----------

  /** A fresh acknowledgment decodes to the number it was made from and releases nothing
      that the peer has not acknowledged. */
  lemma AckDecodes(x: Conn, y: Conn, p: Packet)
    requires LinkInv(x.tx, y.rx) && PacketOk(y.tx, y.rx, p) && p.seg.header.ack
    requires Abs(p.absAck - x.tx.next) < TWO_31
    ensures Unwrap(p.seg.header.ackno, x.tx.isn, x.tx.next) == p.absAck <= x.tx.next
  {
    LinkBounds(x.tx, y.rx);
    UnwrapInvertsWrap(p.absAck, x.tx.isn, x.tx.next);
  }

  lemma TakeAckKeepsLink(x: Conn, y: Conn, p: Packet)
    requires LinkInv(x.tx, y.rx) && FlagsOk(x) && PacketOk(y.tx, y.rx, p)
    requires AckHarmless(x.tx, y.rx, p)
    ensures LinkInv(TakeAck(x, p.seg).tx, y.rx)
    ensures p.seg.header.ack && p.absAck == x.tx.next && x.tx.finSent ==> AllAcked(TakeAck(x, p.seg).tx)
    ensures p.seg.header.ack && Abs(p.absAck - x.tx.next) < TWO_31 ==>
              PopAcked(x.tx, p.absAck).inFlight + Unacked(TakeAck(x, p.seg).tx) == x.tx.next
  {
    hide Unwrap, ReceiveAck, Agrees, Carries;
    TakeAckEvolves(x, p.seg);
    if p.seg.header.ack {
      AckKeeps(x.tx, p.seg.header.ackno, p.seg.header.win);
      PopKeeps(x.tx, Unwrap(p.seg.header.ackno, x.tx.isn, x.tx.next));
      if Abs(p.absAck - x.tx.next) < TWO_31 { AckDecodes(x, y, p); }
      if p.absAck == x.tx.next { FullAckReleasesAll(x.tx); }
    }
    SenderMoves(x.tx, TakeAck(x, p.seg).tx, y.rx);
  }

  lemma FullAckReleasesAll(s: Sender)
    requires SeqInv(s)
    ensures PopAcked(s, s.next).inFlight == 0
  {
    PopKeeps(s, s.next);
    var s' := PopAcked(s, s.next);
    if s'.outstanding != [] {
      ChainHead(s'.outstanding, Unacked(s'), s'.next);
    }
  }

  lemma ChainHead(q: seq<Tagged>, lo: int, hi: int)
    requires q != [] && Chain(q, lo, hi)
    ensures q[0].End() <= hi
  {
    ChainLength(q[1..], q[0].End(), hi);
  }

  /** What a delivery without RST comes down to. */
  lemma DeliverUnfolds(w: World, p: Packet)
    requires Inv(w) && LegalAtA(w, OpDeliver(p)) && !p.seg.header.rst
    ensures RenoInv(w.a.tx)
    ensures var x := w.a.(sinceLast := 0);
            StepAtA(w, OpDeliver(p))
            == (Ok, w.(a := Respond(TakeAck(x.(rx := Receive(x.rx, p.seg).1), p.seg), p.seg)))
  {
    hide SeqInv, TimerInv, Agrees, Carries, FlagsOk, Passive, Receive, Respond, TakeAck;
    SentIsOk(w.b, w.fromB, p);
    LinkReceive(w.b.tx, w.a.rx, p);
  }

  /** Once the receiver has the segment, the flags are still in order. */
  lemma ReceivedFlags(w: World, p: Packet)
    requires Inv(w) && LegalAtA(w, OpDeliver(p))
    ensures SenderInv(w.a.tx) && FlagsOk(w.a.(sinceLast := 0, rx := Receive(w.a.rx, p.seg).1))
    ensures Receive(w.a.rx, p.seg).1.Out().capacity == w.a.rx.Out().capacity
  {
    hide SeqInv, TimerInv, RenoInv, Agrees, Carries, Receive;
    SentIsOk(w.b, w.fromB, p);
    LinkReceive(w.b.tx, w.a.rx, p);
  }

  lemma DeliverKeepsInv(w: World, p: Packet)
    requires Inv(w) && LegalAtA(w, OpDeliver(p))
    ensures StepAtA(w, OpDeliver(p)).0 == Ok && Inv(StepAtA(w, OpDeliver(p)).1)
  {
    var x, y := w.a.(sinceLast := 0), w.b;
    hide SeqInv, TimerInv, RenoInv, Agrees, Carries, FlagsOk, Passive, PacketsOk;
    ClockOnly(w.a, x, y, w.fromA, w.fromB);
    SentIsOk(y, w.fromB, p);
    if p.seg.header.rst {
      ResetEvolves(x, false);
      FailedLink(y.tx, x.rx);
      OwnStep(x, SetReset(x, false), y, w.fromA, w.fromB);
    } else {
      DeliverData(x, y, w.fromA, w.fromB, p);
    }
  }

  lemma SentIsOk(x: Conn, net: set<Packet>, p: Packet)
    requires PacketsOk(x, net) && p in net
    ensures PacketOk(x.tx, x.rx, p)
  {
  }

  lemma ClockOnly(c: Conn, x: Conn, y: Conn, netX: set<Packet>, netY: set<Packet>)
    requires x == c.(sinceLast := 0)
    requires Half(c, y, netX) && Half(y, c, netY)
    ensures Half(x, y, netX) && Half(y, x, netY)
  {
  }

  /** A packet without RST: the receiver takes the data, the sender the acknowledgment, and
      the endpoint answers. */
  lemma DeliverData(x: Conn, y: Conn, netX: set<Packet>, netY: set<Packet>, p: Packet)
    requires Half(x, y, netX) && Half(y, x, netY)
    requires p in netY && Harmless(x, y, p) && !p.seg.header.rst
    ensures var (status, rx) := Receive(x.rx, p.seg);
            var x' := Respond(TakeAck(x.(rx := rx), p.seg), p.seg);
            status == Ok && Half(x', y, netX) && Half(y, x', netY)
  {
    hide SeqInv, TimerInv, RenoInv, Agrees, Carries, Receive, Respond, TakeAck;
    assert PacketOk(y.tx, y.rx, p);
    LinkReceive(y.tx, x.rx, p);
    var rx := Receive(x.rx, p.seg).1;
    var x1 := x.(rx := rx);
    var x2 := TakeAck(x1, p.seg);
    var x' := Respond(x2, p.seg);
    TakeAckEvolves(x1, p.seg);
    TakeAckKeepsLink(x1, y, p);
    RespondEvolves(x2, p.seg);
    GrowsTrans(x.tx, x2.tx, x'.tx);
    SenderMoves(x2.tx, x'.tx, y.rx);
    PacketsStayOk(x, x', netX);
    PassiveOwnStep(x, x', y, netX);
    if y.active && !y.linger && rx.reassembler.eof != NO_EOF && x.rx.reassembler.eof == NO_EOF {
      LinkBounds(x.tx, y.rx);
      AllAckedStays(x2.tx, x'.tx);
    }
    PassivePeerStep(y, x, x', netY);
  }

  lemma StepAtAKeepsInv(w: World, op: Op)
    requires Inv(w) && LegalAtA(w, op)
    ensures StepAtA(w, op).0 == Ok && Inv(StepAtA(w, op).1)
  {
    hide Half;
    match op
    case OpTransmit => TransmitKeepsInv(w);
    case OpDeliver(p) => DeliverKeepsInv(w, p);
    case _ => SimpleStepKeepsInv(w, op);
  }

  // ---------- Whole runs ----------

  datatype Config = Config(recvCapacity: nat, sendCapacity: nat, rto: u16, isn: u32, congestionControl: bool) {
    function Endpoint(): Conn { NewConn(recvCapacity, sendCapacity, rto, isn, congestionControl) }
  }

  function Start(a: Config, b: Config): (w: World)
    requires a.recvCapacity > 0 && b.recvCapacity > 0
    ensures Inv(w)
  {
    assert Pow2(0) == 1;
    NewAgrees(a.recvCapacity, []);
    NewAgrees(b.recvCapacity, []);
    World(a.Endpoint(), b.Endpoint(), {}, {})
  }

  predicate Legal(w: World, action: Action) {
    LegalAtA(if action.atA then w else Swap(w), action.op)
  }

  function Step(w: World, action: Action): (PushStatus, World)
    requires RenoInv(w.a.tx) && RenoInv(w.b.tx)
  {
    if action.atA then StepAtA(w, action.op)
    else var (status, w') := StepAtA(Swap(w), action.op); (status, Swap(w'))
  }

  lemma StepKeepsInv(w: World, action: Action)
    requires Inv(w) && Legal(w, action)
    ensures Step(w, action).0 == Ok && Inv(Step(w, action).1)
  {
    hide LinkInv, FlagsOk, PacketsOk, Passive, StepAtA;
    if action.atA { StepAtAKeepsInv(w, action.op); } else { StepAtAKeepsInv(Swap(w), action.op); }
  }

  ghost predicate LegalRun(w: World, actions: seq<Action>)
    requires Inv(w)
    decreases |actions|
  {
    actions == [] ||
    (Legal(w, actions[0]) && (StepKeepsInv(w, actions[0]); LegalRun(Step(w, actions[0]).1, actions[1..])))
  }

  ghost function Run(w: World, actions: seq<Action>): World
    requires Inv(w) && LegalRun(w, actions)
    decreases |actions|
  {
    if actions == [] then w else (StepKeepsInv(w, actions[0]); Run(Step(w, actions[0]).1, actions[1..]))
  }

  lemma {:induction false} RunKeepsInv(w: World, actions: seq<Action>)
    requires Inv(w) && LegalRun(w, actions)
    ensures Inv(Run(w, actions))
    decreases |actions|
  {
    hide Step, Legal, FlagsOk, PacketsOk, Passive;
    if actions != [] {
      StepKeepsInv(w, actions[0]);
      RunKeepsInv(Step(w, actions[0]).1, actions[1..]);
    }
  }

  /** No step of the run throws. */
  ghost predicate NeverThrows(w: World, actions: seq<Action>)
    requires Inv(w) && LegalRun(w, actions)
    decreases |actions|
  {
    actions == [] ||
    (Step(w, actions[0]).0 == Ok
     && (StepKeepsInv(w, actions[0]); NeverThrows(Step(w, actions[0]).1, actions[1..])))
  }

  lemma {:induction false} RunNeverThrows(w: World, actions: seq<Action>)
    requires Inv(w) && LegalRun(w, actions)
    ensures NeverThrows(w, actions)
    decreases |actions|
  {
    hide Step, Legal, FlagsOk, PacketsOk, Passive;
    if actions != [] {
      StepKeepsInv(w, actions[0]);
      RunNeverThrows(Step(w, actions[0]).1, actions[1..]);
    }
  }

  /** While both streams are shorter than half the 32-bit space, every packet ever sent is
      fresh, so nothing at all is assumed about the network. */
  lemma ShortStreamsAreFresh(w: World, p: Packet)
    requires Inv(w) && p in w.fromB
    requires |w.a.tx.stream.all| < TWO_31 - 2 && |w.b.tx.stream.all| < TWO_31 - 2
    ensures Fresh(w.a, p) && Harmless(w.a, w.b, p)
  {
    SentIsOk(w.b, w.fromB, p);
    LinkBounds(w.a.tx, w.b.rx);
    LinkBounds(w.b.tx, w.a.rx);
    FreshIsHarmless(w, p);
  }

  /** A packet whose numbers are read correctly does no harm. */
  lemma FreshIsHarmless(w: World, p: Packet)
    requires Inv(w) && p in w.fromB && Fresh(w.a, p)
    ensures Harmless(w.a, w.b, p)
  {
    hide SenderInv, Agrees, Carries, Unwrap;
    SentIsOk(w.b, w.fromB, p);
    if p.seg.header.ack { AckDecodes(w.a, w.b, p); }
  }

  // ---------- What every reachable world satisfies ----------

  /** What one endpoint has assembled is a prefix of what the other wrote, and its input
      has ended only if it has assembled everything and the other has finished. */
  ghost predicate Delivers(x: Conn, y: Conn) {
    && y.rx.Out().all <= x.tx.stream.all
    && (y.rx.Out().ended ==> x.tx.stream.ended && y.rx.Out().all == x.tx.stream.all)
  }

  ghost predicate FullyDelivered(x: Conn, y: Conn) {
    x.tx.stream.ended && y.rx.Out().ended && y.rx.Out().all == x.tx.stream.all
  }

  lemma DeliveryIsSafe(w: World)
    requires Inv(w)
    ensures Delivers(w.a, w.b) && Delivers(w.b, w.a)
  {
    LinkBounds(w.a.tx, w.b.rx);
    LinkBounds(w.b.tx, w.a.rx);
  }

  /** A sender that believes its stream fully acknowledged is right. */
  lemma CloseAgreement(w: World)
    requires Inv(w)
    ensures SummarizeSender(w.a.tx) == FinAcked ==> FullyDelivered(w.a, w.b)
    ensures SummarizeSender(w.b.tx) == FinAcked ==> FullyDelivered(w.b, w.a)
  {
    CloseAgreementHalf(w.a, w.b);
    CloseAgreementHalf(w.b, w.a);
  }

  lemma CloseAgreementHalf(x: Conn, y: Conn)
    requires LinkInv(x.tx, y.rx)
    ensures SummarizeSender(x.tx) == FinAcked ==> FullyDelivered(x, y)
    ensures AllAcked(x.tx) ==> FullyDelivered(x, y)
  {
    LinkBounds(x.tx, y.rx);
    if !x.tx.stream.error { SummaryMeaning(x.tx); }
  }

  /** An endpoint that is inactive without an error leaves nothing undelivered in either
      direction. */
  lemma CleanShutdownIsComplete(w: World)
    requires Inv(w)
    ensures !w.a.active && !w.a.rx.Out().error ==> FullyDelivered(w.a, w.b) && FullyDelivered(w.b, w.a)
    ensures !w.b.active && !w.b.rx.Out().error ==> FullyDelivered(w.a, w.b) && FullyDelivered(w.b, w.a)
  {
    CloseAgreementHalf(w.a, w.b);
    CloseAgreementHalf(w.b, w.a);
    DeliveryIsSafe(w);
  }

  /** The endpoint that closes second may stop without lingering: when it does, its peer
      has already been told that its whole stream arrived, so nothing will be
      retransmitted to an endpoint that is gone. */
  lemma PassiveCloseIsSafe(w: World, p: Packet)
    requires Inv(w) && LegalAtA(w, OpDeliver(p))
    requires w.a.active && !StepAtA(w, OpDeliver(p)).1.a.active && !p.seg.header.rst
    ensures AllAcked(w.b.tx)
  {
    hide LinkInv, PacketsOk, FlagsOk, StepAtA, Respond, TakeAck, Receive;
    var x, y := w.a.(sinceLast := 0), w.b;
    DeliverUnfolds(w, p);
    ClockOnly(w.a, x, y, w.fromA, w.fromB);
    PassiveExit(x, y, w.fromA, w.fromB, p);
  }

  lemma PassiveExit(x: Conn, y: Conn, netX: set<Packet>, netY: set<Packet>, p: Packet)
    requires Half(x, y, netX) && Half(y, x, netY) && p in netY && Harmless(x, y, p) && x.active
    requires !p.seg.header.rst
    requires !Respond(TakeAck(x.(rx := Receive(x.rx, p.seg).1), p.seg), p.seg).active
    ensures AllAcked(y.tx)
  {
    hide SeqInv, TimerInv, RenoInv, Agrees, Carries, Receive, Respond, TakeAck;
    LinkReceive(y.tx, x.rx, p);
    var x1 := x.(rx := Receive(x.rx, p.seg).1);
    var x2 := TakeAck(x1, p.seg);
    TakeAckEvolves(x1, p.seg);
    TakeAckKeepsLink(x1, y, p);
    RespondEvolves(x2, p.seg);
    FlushedSummary(x2);
    LinkBounds(x2.tx, y.rx);
  }

  /** The end-to-end guarantee, for every run of two fresh endpoints. */
  lemma EndToEnd(a: Config, b: Config, actions: seq<Action>)
    requires a.recvCapacity > 0 && b.recvCapacity > 0
    requires LegalRun(Start(a, b), actions)
    ensures NeverThrows(Start(a, b), actions)
    ensures var w := Run(Start(a, b), actions);
            && Delivers(w.a, w.b) && Delivers(w.b, w.a)
            && (SummarizeSender(w.a.tx) == FinAcked ==> FullyDelivered(w.a, w.b))
            && (SummarizeSender(w.b.tx) == FinAcked ==> FullyDelivered(w.b, w.a))
            && ((!w.a.active && !w.a.rx.Out().error) || (!w.b.active && !w.b.rx.Out().error)
                ==> FullyDelivered(w.a, w.b) && FullyDelivered(w.b, w.a))
  {
    hide Inv, Delivers, FullyDelivered, Start;
    RunKeepsInv(Start(a, b), actions);
    RunNeverThrows(Start(a, b), actions);
    var w := Run(Start(a, b), actions);
    DeliveryIsSafe(w);
    CloseAgreement(w);
    CleanShutdownIsComplete(w);
  }

  /** Writing after the end is what the limit on writes is about: once the peer has seen the
      end, its output is still what was written exactly unless the write came too late. */
  lemma LateWriteIsLost(w: World, data: seq<byte>)
    requires Inv(w) && w.b.rx.Out().ended
    ensures Delivers(WriteData(w.a, data), w.b) <==> !TooLate(w.a.tx, data)
  {
    hide Agrees, Carries, Chain, PacketsOk, Passive, FlagsOk, StampAll;
    LinkBounds(w.a.tx, w.b.rx);
    FillSameStream(WriteStream(w.a.tx, data));
  }

  // ---------- Short streams: no assumption about the network ----------

  predicate Short(w: World) { |w.a.tx.stream.all| < TWO_31 - 2 && |w.b.tx.stream.all| < TWO_31 - 2 }

  /** Any packet ever sent may be delivered; only what is written is limited. */
  predicate LooseAtA(w: World, op: Op) {
    match op
    case OpWrite(data) => !TooLate(w.a.tx, data) && |w.a.tx.stream.all| + |data| < TWO_31 - 2
    case OpDeliver(p) => p in w.fromB
    case _ => true
  }

  predicate Loose(w: World, action: Action) {
    LooseAtA(if action.atA then w else Swap(w), action.op)
  }

  lemma LooseIsLegal(w: World, action: Action)
    requires Inv(w) && Short(w) && Loose(w, action)
    ensures Legal(w, action) && Inv(Step(w, action).1) && Short(Step(w, action).1)
  {
    hide StepAtA, FlagsOk, PacketsOk, Passive, SeqInv, TimerInv, Agrees, Harmless;
    var v := if action.atA then w else Swap(w);
    if action.op.OpDeliver? { ShortStreamsAreFresh(v, action.op.p); }
    StepKeepsInv(w, action);
    StreamStep(v, action.op);
    OtherSide(v, action.op);
  }

  /** Only a write makes the stream longer. */
  lemma StreamStep(w: World, op: Op)
    requires Inv(w) && LegalAtA(w, op)
    ensures |StepAtA(w, op).1.a.tx.stream.all| <= |w.a.tx.stream.all| + if op.OpWrite? then |op.data| else 0
  {
    hide SeqInv, TimerInv, RenoInv, Agrees, Passive, PacketsOk, Fill, Flush, TickConn;
    match op
    case OpConnect => ConnectEvolves(w.a);
    case OpWrite(data) => WriteEvolves(w.a, data);
    case OpEnd => EndEvolves(w.a);
    case OpTick(ms) => TickEvolves(w.a, ms);
    case OpDeliver(p) => DeliverSameStream(w, p);
    case _ =>
  }

  lemma DeliverSameStream(w: World, p: Packet)
    requires Inv(w) && LegalAtA(w, OpDeliver(p))
    ensures StepAtA(w, OpDeliver(p)).1.a.tx.stream.all == w.a.tx.stream.all
  {
    if !p.seg.header.rst {
      hide Half, StepAtA, Respond, TakeAck, Receive, SeqInv, TimerInv;
      DeliverUnfolds(w, p);
      ReceivedFlags(w, p);
      var x := w.a.(sinceLast := 0);
      var x1 := x.(rx := Receive(x.rx, p.seg).1);
      TakeAckEvolves(x1, p.seg);
      RespondEvolves(TakeAck(x1, p.seg), p.seg);
    }
  }

  ghost predicate LooseRun(w: World, actions: seq<Action>)
    requires Inv(w) && Short(w)
    decreases |actions|
  {
    actions == [] ||
    (Loose(w, actions[0]) && (LooseIsLegal(w, actions[0]); LooseRun(Step(w, actions[0]).1, actions[1..])))
  }

  lemma {:induction false} LooseRunIsLegal(w: World, actions: seq<Action>)
    requires Inv(w) && Short(w) && LooseRun(w, actions)
    ensures LegalRun(w, actions)
    decreases |actions|
  {
    hide Step, Legal, Loose, Short, FlagsOk, PacketsOk, Passive;
    if actions != [] {
      LooseIsLegal(w, actions[0]);
      LooseRunIsLegal(Step(w, actions[0]).1, actions[1..]);
    }
  }

  /** The end-to-end guarantee over any network at all, for streams of less than half the
      32-bit space. */
  lemma EndToEndShort(a: Config, b: Config, actions: seq<Action>)
    requires a.recvCapacity > 0 && b.recvCapacity > 0
    requires LooseRun(Start(a, b), actions)
    ensures LegalRun(Start(a, b), actions) && NeverThrows(Start(a, b), actions)
    ensures var w := Run(Start(a, b), actions);
            && Delivers(w.a, w.b) && Delivers(w.b, w.a)
            && (SummarizeSender(w.a.tx) == FinAcked ==> FullyDelivered(w.a, w.b))
            && (SummarizeSender(w.b.tx) == FinAcked ==> FullyDelivered(w.b, w.a))
            && ((!w.a.active && !w.a.rx.Out().error) || (!w.b.active && !w.b.rx.Out().error)
                ==> FullyDelivered(w.a, w.b) && FullyDelivered(w.b, w.a))
  {
    hide Inv, Delivers, FullyDelivered, LegalRun, Run, NeverThrows;
    LooseRunIsLegal(Start(a, b), actions);
    hide Start;
    EndToEnd(a, b, actions);
  }
}
