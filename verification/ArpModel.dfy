/** The network interface: address resolution with a cache, pending requests and datagrams
    that wait for an answer (the packet reception algorithm of RFC 826; section 2.3.2.1 of
    RFC 1122 for timeouts and flood prevention). */
module ArpModel {
  import opened FixedWidth

  type Mac = x: int | 0 <= x < 0x1_0000_0000_0000

  const BROADCAST: Mac := 0xffff_ffff_ffff

  const ENTRY_TTL: nat := 30000

  const REQUEST_TTL: nat := 5000

  /** A datagram in its serialized form. */
  type Datagram = seq<byte>

  datatype ArpMessage = ArpMessage(isRequest: bool, senderMac: Mac, senderIp: u32, targetMac: Mac, targetIp: u32)

  /** What a frame carries; `None` stands for bytes that do not parse. */
  datatype Payload = Ip(dgram: Option<Datagram>) | Arp(msg: Option<ArpMessage>) | Other

  datatype Frame = Frame(src: Mac, dst: Mac, payload: Payload)

  datatype Entry = Entry(mac: Mac, ttl: nat)

  datatype Interface = Interface(
    mac: Mac, ip: u32, table: map<u32, Entry>, requests: map<u32, nat>,
    waiting: map<u32, seq<Datagram>>, out: seq<Frame>)

  function Waiting(s: Interface, hop: u32): seq<Datagram> {
    if hop in s.waiting then s.waiting[hop] else []
  }

  function Request(s: Interface, hop: u32): Frame {
    Frame(s.mac, BROADCAST, Arp(Some(ArpMessage(true, s.mac, s.ip, 0, hop))))
  }

  function SendDatagram(s: Interface, dgram: Datagram, hop: u32): Interface {
    if hop in s.table then s.(out := s.out + [Frame(s.mac, s.table[hop].mac, Ip(Some(dgram)))])
    else
      var s1 := if hop in s.requests then s
                else s.(out := s.out + [Request(s, hop)], requests := s.requests[hop := REQUEST_TTL]);
      s1.(waiting := s1.waiting[hop := Waiting(s1, hop) + [dgram]])
  }

  function FramesTo(src: Mac, dst: Mac, dgrams: seq<Datagram>): seq<Frame> {
    if dgrams == [] then [] else [Frame(src, dst, Ip(Some(dgrams[0])))] + FramesTo(src, dst, dgrams[1..])
  }

  predicate ForUs(s: Interface, frame: Frame) { frame.dst == BROADCAST || frame.dst == s.mac }

  /** The reply to a request for this interface. */
  function Reply(s: Interface, msg: ArpMessage): seq<Frame> {
    if msg.isRequest && msg.targetIp == s.ip
    then
      var answer := ArpMessage(false, s.mac, s.ip, msg.senderMac, msg.senderIp);
      [Frame(s.mac, msg.senderMac, Arp(Some(answer)))]
    else []
  }

  /** Answers a request for our address, learns the sender's address whatever the message
      was for, and sends what was waiting for it. */
  function HandleArp(s: Interface, msg: ArpMessage): Interface {
    var reply := Reply(s, msg);
    s.(out := s.out + reply + FramesTo(s.mac, msg.senderMac, Waiting(s, msg.senderIp)),
       table := s.table[msg.senderIp := Entry(msg.senderMac, ENTRY_TTL)],
       waiting := s.waiting - {msg.senderIp})
  }

  function ReceiveFrame(s: Interface, frame: Frame): (Option<Datagram>, Interface) {
    if !ForUs(s, frame) then (None, s)
    else match frame.payload
      case Ip(dgram) => (dgram, s)
      case Arp(Some(msg)) => (None, HandleArp(s, msg))
      case _ => (None, s)
  }

  function AgeTable(table: map<u32, Entry>, ms: nat): map<u32, Entry> {
    map k | k in table && table[k].ttl > ms :: Entry(table[k].mac, table[k].ttl - ms)
  }

  function AgeRequests(requests: map<u32, nat>, ms: nat): map<u32, nat> {
    map k | k in requests && requests[k] > ms :: requests[k] - ms
  }

  predicate TimesOut(requests: map<u32, nat>, ms: nat, k: u32) { k in requests && requests[k] <= ms }

  /** Datagrams whose request timed out are dropped. */
  function DropWaiting(waiting: map<u32, seq<Datagram>>, requests: map<u32, nat>, ms: nat): map<u32, seq<Datagram>> {
    map k | k in waiting && !TimesOut(requests, ms, k) :: waiting[k]
  }

  function Tick(s: Interface, ms: nat): Interface {
    s.(table := AgeTable(s.table, ms), requests := AgeRequests(s.requests, ms),
       waiting := DropWaiting(s.waiting, s.requests, ms))
  }

  // ---------- Runs with a history ----------

  datatype Op = OpSend(dgram: Datagram, hop: u32) | OpReceive(frame: Frame) | OpTick(ms: nat)

  function Apply(s: Interface, op: Op): Interface {
    match op
    case OpSend(dgram, hop) => SendDatagram(s, dgram, hop)
    case OpReceive(frame) => ReceiveFrame(s, frame).1
    case OpTick(ms) => Tick(s, ms)
  }

  datatype Fate = Sent(dgram: Datagram, mac: Mac) | Dropped(dgram: Datagram)

  datatype Delivery = Delivery(hop: u32, dgram: Datagram, mac: Mac)

  /** The interface with what the program does not keep: the time, when each address was
      last asked for and learned, what was given for each next hop, what became of it,
      and all datagrams sent. The interface's own output queue is left undrained. */
  datatype Log = Log(
    s: Interface, now: nat, asked: u32 -> Option<nat>, learned: u32 -> Option<(nat, Mac)>,
    given: u32 -> seq<Datagram>, fates: u32 -> seq<Fate>, sent: seq<Delivery>)

  function Start(mac: Mac, ip: u32): Log {
    Log(Interface(mac, ip, map[], map[], map[], []), 0,
        (k: u32) => None, (k: u32) => None, (k: u32) => [], (k: u32) => [], [])
  }

  /** The message that this step learns from, if any. */
  function Learns(s: Interface, op: Op): Option<ArpMessage> {
    if op.OpReceive? && ForUs(s, op.frame) && op.frame.payload.Arp? then op.frame.payload.msg else None
  }

  predicate Asks(s: Interface, op: Op, k: u32) {
    op.OpSend? && op.hop == k && k !in s.table && k !in s.requests
  }

  function SentAll(dgrams: seq<Datagram>, mac: Mac): seq<Fate> {
    if dgrams == [] then [] else [Sent(dgrams[0], mac)] + SentAll(dgrams[1..], mac)
  }

  function DroppedAll(dgrams: seq<Datagram>): seq<Fate> {
    if dgrams == [] then [] else [Dropped(dgrams[0])] + DroppedAll(dgrams[1..])
  }

  /** What this step decides about the datagrams for next hop `k`. */
  function Decided(s: Interface, op: Op, k: u32): seq<Fate> {
    match op
    case OpSend(dgram, hop) => if hop == k && k in s.table then [Sent(dgram, s.table[k].mac)] else []
    case OpReceive(_) =>
      var m := Learns(s, op);
      if m.Some? && m.value.senderIp == k then SentAll(Waiting(s, k), m.value.senderMac) else []
    case OpTick(ms) => if TimesOut(s.requests, ms, k) then DroppedAll(Waiting(s, k)) else []
  }

  function Deliveries(hop: u32, fates: seq<Fate>): seq<Delivery> {
    if fates == [] then []
    else (if fates[0].Sent? then [Delivery(hop, fates[0].dgram, fates[0].mac)] else []) + Deliveries(hop, fates[1..])
  }

  /** The next hop that this step may send to. */
  function Target(s: Interface, op: Op): u32 {
    match op
    case OpSend(_, hop) => hop
    case OpReceive(_) => if Learns(s, op).Some? then Learns(s, op).value.senderIp else 0
    case OpTick(_) => 0
  }

  function Step(g: Log, op: Op): Log {
    var k0 := Target(g.s, op);
    Log(Apply(g.s, op),
        if op.OpTick? then g.now + op.ms else g.now,
        (k: u32) => if Asks(g.s, op, k) then Some(g.now) else g.asked(k),
        (k: u32) => var m := Learns(g.s, op);
             if m.Some? && m.value.senderIp == k then Some((g.now, m.value.senderMac)) else g.learned(k),
        (k: u32) => if op.OpSend? && op.hop == k then g.given(k) + [op.dgram] else g.given(k),
        (k: u32) => g.fates(k) + Decided(g.s, op, k),
        if op.OpTick? then g.sent else g.sent + Deliveries(k0, Decided(g.s, op, k0)))
  }

  function Run(g: Log, ops: seq<Op>): Log
    decreases |ops|
  {
    if ops == [] then g else Run(Step(g, ops[0]), ops[1..])
  }

  // ---------- What every run keeps ----------

  function Datagrams(fates: seq<Fate>): seq<Datagram> {
    if fates == [] then [] else [fates[0].dgram] + Datagrams(fates[1..])
  }

  /** The datagrams in the queued IPv4 frames, with their destinations. */
  function IpFrames(out: seq<Frame>): seq<(Datagram, Mac)> {
    if out == [] then []
    else IpFrames(out[..|out| - 1]) +
         (var f := out[|out| - 1];
          if f.payload.Ip? && f.payload.dgram.Some? then [(f.payload.dgram.value, f.dst)] else [])
  }

  function Unlabeled(sent: seq<Delivery>): seq<(Datagram, Mac)> {
    if sent == [] then []
    else Unlabeled(sent[..|sent| - 1]) + [(sent[|sent| - 1].dgram, sent[|sent| - 1].mac)]
  }

  function SentTo(sent: seq<Delivery>, k: u32): seq<Delivery> {
    if sent == [] then []
    else SentTo(sent[..|sent| - 1], k) + if sent[|sent| - 1].hop == k then [sent[|sent| - 1]] else []
  }

  /** Datagrams wait only for an address that is being asked for and is not known. */
  ghost predicate MapsOk(g: Log, k: u32) {
    k in g.s.waiting ==> k in g.s.requests && k !in g.s.table && g.s.waiting[k] != []
  }

  /** A request is pending exactly for the 5000 ms after it was sent. */
  ghost predicate RequestsOk(g: Log, k: u32) {
    && (g.asked(k).Some? ==> g.asked(k).value <= g.now)
    && (k in g.s.requests <==> g.asked(k).Some? && g.now < g.asked(k).value + REQUEST_TTL)
    && (k in g.s.requests ==> g.s.requests[k] == g.asked(k).value + REQUEST_TTL - g.now)
  }

  /** An address is known exactly for the 30000 ms after it was last learned, and it is the
      one learned then. */
  ghost predicate TableOk(g: Log, k: u32) {
    && (g.learned(k).Some? ==> g.learned(k).value.0 <= g.now)
    && (k in g.s.table <==> g.learned(k).Some? && g.now < g.learned(k).value.0 + ENTRY_TTL)
    && (k in g.s.table ==>
          g.s.table[k] == Entry(g.learned(k).value.1, g.learned(k).value.0 + ENTRY_TTL - g.now))
  }

  /** Conservation, in order of arrival: what was given for a next hop is what has been
      decided, sent or dropped, followed by what still waits; and what was decided to be sent
      was sent. */
  ghost predicate FatesOk(g: Log, k: u32) {
    && g.given(k) == Datagrams(g.fates(k)) + Waiting(g.s, k)
    && Deliveries(k, g.fates(k)) == SentTo(g.sent, k)
  }

  ghost predicate Inv(g: Log) {
    && (forall k: u32 :: MapsOk(g, k) && RequestsOk(g, k) && TableOk(g, k) && FatesOk(g, k))
    && IpFrames(g.s.out) == Unlabeled(g.sent)
  }

  // ---------- Lists ----------

  lemma {:induction false} DatagramsConcat(a: seq<Fate>, b: seq<Fate>)
    ensures Datagrams(a + b) == Datagrams(a) + Datagrams(b)
  {
    if a == [] {
      assert a + b == b;
    } else {
      assert (a + b)[1..] == a[1..] + b;
      DatagramsConcat(a[1..], b);
    }
  }

  lemma {:induction false} DeliveriesConcat(k: u32, a: seq<Fate>, b: seq<Fate>)
    ensures Deliveries(k, a + b) == Deliveries(k, a) + Deliveries(k, b)
  {
    if a == [] {
      assert a + b == b;
    } else {
      assert (a + b)[1..] == a[1..] + b;
      DeliveriesConcat(k, a[1..], b);
    }
  }

  lemma {:induction false} AllOfThem(dgrams: seq<Datagram>, mac: Mac, k: u32)
    ensures Datagrams(SentAll(dgrams, mac)) == dgrams && Datagrams(DroppedAll(dgrams)) == dgrams
    ensures Deliveries(k, DroppedAll(dgrams)) == []
  {
    if dgrams != [] { AllOfThem(dgrams[1..], mac, k); }
  }

  lemma {:induction false} SentToConcat(a: seq<Delivery>, b: seq<Delivery>, k: u32)
    ensures SentTo(a + b, k) == SentTo(a, k) + SentTo(b, k)
    ensures Unlabeled(a + b) == Unlabeled(a) + Unlabeled(b)
  {
    if b == [] {
      assert a + b == a;
    } else {
      assert (a + b)[..|a + b| - 1] == a + b[..|b| - 1];
      SentToConcat(a, b[..|b| - 1], k);
    }
  }

  lemma {:induction false} SentToOwn(hop: u32, fates: seq<Fate>, k: u32)
    ensures SentTo(Deliveries(hop, fates), k) == if hop == k then Deliveries(hop, fates) else []
  {
    if fates != [] {
      var first := if fates[0].Sent? then [Delivery(hop, fates[0].dgram, fates[0].mac)] else [];
      SentToOwn(hop, fates[1..], k);
      SentToConcat(first, Deliveries(hop, fates[1..]), k);
      assert SentTo(first, k) == if hop == k then first else [];
    }
  }

  lemma {:induction false} IpFramesConcat(a: seq<Frame>, b: seq<Frame>)
    ensures IpFrames(a + b) == IpFrames(a) + IpFrames(b)
  {
    if b == [] {
      assert a + b == a;
    } else {
      assert (a + b)[..|a + b| - 1] == a + b[..|b| - 1];
      IpFramesConcat(a, b[..|b| - 1]);
    }
  }

  /** The frames for waiting datagrams carry exactly those, in order. */
  lemma {:induction false} FramesCarryThem(src: Mac, dst: Mac, hop: u32, dgrams: seq<Datagram>)
    ensures IpFrames(FramesTo(src, dst, dgrams)) == Unlabeled(Deliveries(hop, SentAll(dgrams, dst)))
  {
    if dgrams != [] {
      FramesCarryThem(src, dst, hop, dgrams[1..]);
      var f := Frame(src, dst, Ip(Some(dgrams[0])));
      var d := Delivery(hop, dgrams[0], dst);
      IpFramesConcat([f], FramesTo(src, dst, dgrams[1..]));
      SentToConcat([d], Deliveries(hop, SentAll(dgrams[1..], dst)), hop);
      assert SentAll(dgrams, dst)[1..] == SentAll(dgrams[1..], dst);
      assert IpFrames([f]) == [(dgrams[0], dst)] == Unlabeled([d]);
    }
  }

  // ---------- Preservation ----------

  lemma StepKeepsMaps(g: Log, op: Op, k: u32)
    requires MapsOk(g, k) && RequestsOk(g, k) && TableOk(g, k)
    ensures MapsOk(Step(g, op), k) && RequestsOk(Step(g, op), k) && TableOk(Step(g, op), k)
  {
    hide MapsOk, RequestsOk, TableOk, Step;
    StepKeepsWaiting(g, op, k);
    StepKeepsRequests(g, op, k);
    StepKeepsTable(g, op, k);
  }

  lemma StepKeepsWaiting(g: Log, op: Op, k: u32)
    requires MapsOk(g, k)
    ensures MapsOk(Step(g, op), k)
  {
    hide Decided, Deliveries, FramesTo;
  }

  lemma StepKeepsRequests(g: Log, op: Op, k: u32)
    requires RequestsOk(g, k)
    ensures RequestsOk(Step(g, op), k)
  {
    hide Decided, Deliveries, FramesTo, AgeTable, DropWaiting;
  }

  lemma StepKeepsTable(g: Log, op: Op, k: u32)
    requires TableOk(g, k)
    ensures TableOk(Step(g, op), k)
  {
    hide Decided, Deliveries, FramesTo, AgeRequests, DropWaiting;
  }

  lemma StepKeepsFates(g: Log, op: Op, k: u32)
    requires MapsOk(g, k) && FatesOk(g, k)
    ensures FatesOk(Step(g, op), k)
  {
    hide Apply, Decided, Deliveries, Datagrams, SentTo;
    GivenStep(g, op, k);
    SentStep(g, op, k);
  }

  lemma GivenStep(g: Log, op: Op, k: u32)
    requires MapsOk(g, k) && g.given(k) == Datagrams(g.fates(k)) + Waiting(g.s, k)
    ensures var g' := Step(g, op);
            g'.given(k) == Datagrams(g'.fates(k)) + Waiting(g'.s, k)
  {
    hide Apply, Decided, Datagrams, Waiting;
    DatagramsConcat(g.fates(k), Decided(g.s, op, k));
    DecidedIsRemoved(g.s, op, k);
    Regroup(Datagrams(g.fates(k)), Waiting(g.s, k), if op.OpSend? && op.hop == k then [op.dgram] else []);
    Regroup(Datagrams(g.fates(k)), Datagrams(Decided(g.s, op, k)), Waiting(Apply(g.s, op), k));
  }

  lemma Regroup(a: seq<Datagram>, b: seq<Datagram>, c: seq<Datagram>)
    ensures a + b + c == a + (b + c)
    ensures c == [] ==> a + b + c == a + b
  {
  }

  lemma SentStep(g: Log, op: Op, k: u32)
    requires Deliveries(k, g.fates(k)) == SentTo(g.sent, k)
    ensures var g' := Step(g, op);
            Deliveries(k, g'.fates(k)) == SentTo(g'.sent, k)
  {
    hide Apply, Deliveries, SentTo;
    var hop := Target(g.s, op);
    DeliveriesConcat(k, g.fates(k), Decided(g.s, op, k));
    NothingSentByTick(g.s, op, k);
    SentToConcat(g.sent, Deliveries(hop, Decided(g.s, op, hop)), k);
    SentToOwn(hop, Decided(g.s, op, hop), k);
    DecidedElsewhere(g.s, op, k);
  }

  lemma NothingSentByTick(s: Interface, op: Op, k: u32)
    ensures op.OpTick? ==> Deliveries(k, Decided(s, op, k)) == []
    ensures Deliveries(k, []) == []
  {
    AllOfThem(Waiting(s, k), 0, k);
  }

  lemma DecidedElsewhere(s: Interface, op: Op, k: u32)
    ensures !op.OpTick? && k != Target(s, op) ==> Decided(s, op, k) == []
  {
  }

  /** What a step decides about leaves the front of the line. */
  lemma DecidedIsRemoved(s: Interface, op: Op, k: u32)
    requires k in s.waiting ==> k !in s.table
    ensures Waiting(s, k) + (if op.OpSend? && op.hop == k then [op.dgram] else [])
            == Datagrams(Decided(s, op, k)) + Waiting(Apply(s, op), k)
  {
    hide FramesTo, Reply, SentAll, DroppedAll, AgeTable, AgeRequests;
    match op
    case OpSend(dgram, hop) =>
    case OpReceive(_) =>
      AllOfThem(Waiting(s, k), if Learns(s, op).Some? then Learns(s, op).value.senderMac else 0, k);
    case OpTick(_) => AllOfThem(Waiting(s, k), 0, k);
  }

  lemma StepKeepsFrames(g: Log, op: Op)
    requires IpFrames(g.s.out) == Unlabeled(g.sent)
    ensures IpFrames(Step(g, op).s.out) == Unlabeled(Step(g, op).sent)
  {
    hide IpFrames, Unlabeled, Deliveries, Decided, SendDatagram, ReceiveFrame, Target;
    var s, hop := g.s, Target(g.s, op);
    SentToConcat(g.sent, Deliveries(hop, Decided(s, op, hop)), hop);
    match op {
      case OpSend(dgram, h) =>
        SendFrames(s, dgram, h);
        assert hop == h by { TargetOfSend(s, dgram, h); }
      case OpReceive(frame) =>
        ReceiveFrames(s, frame);
      case OpTick(ms) =>
    }
  }

  lemma TargetOfSend(s: Interface, dgram: Datagram, hop: u32)
    ensures Target(s, OpSend(dgram, hop)) == hop
  {
  }

  lemma ReceiveFrames(s: Interface, frame: Frame)
    ensures var op := OpReceive(frame);
            var hop := Target(s, op);
            IpFrames(ReceiveFrame(s, frame).1.out) == IpFrames(s.out) + Unlabeled(Deliveries(hop, Decided(s, op, hop)))
  {
    hide IpFrames, Unlabeled, HandleArp;
    var op := OpReceive(frame);
    var m := Learns(s, op);
    if m.Some? {
      ArpFrames(s, m.value);
    } else {
      assert Decided(s, op, Target(s, op)) == [];
      NothingDelivered(s);
    }
  }

  lemma NothingDelivered(s: Interface)
    ensures Deliveries(0, []) == [] && Unlabeled([]) == []
    ensures IpFrames(s.out) + [] == IpFrames(s.out)
  {
  }

  lemma SendFrames(s: Interface, dgram: Datagram, hop: u32)
    ensures IpFrames(SendDatagram(s, dgram, hop).out)
            == IpFrames(s.out) + Unlabeled(Deliveries(hop, Decided(s, OpSend(dgram, hop), hop)))
  {
    if hop in s.table {
      var mac := s.table[hop].mac;
      var fates := [Sent(dgram, mac)];
      assert Deliveries(hop, fates) == [Delivery(hop, dgram, mac)] + Deliveries(hop, fates[1..]);
    }
  }

  lemma ArpFrames(s: Interface, msg: ArpMessage)
    ensures IpFrames(HandleArp(s, msg).out)
            == IpFrames(s.out) + Unlabeled(Deliveries(msg.senderIp, SentAll(Waiting(s, msg.senderIp), msg.senderMac)))
  {
    hide FramesTo, SentAll, Deliveries, Unlabeled, Waiting;
    var frames := FramesTo(s.mac, msg.senderMac, Waiting(s, msg.senderIp));
    var reply := Reply(s, msg);
    IpFramesConcat(s.out + reply, frames);
    IpFramesConcat(s.out, reply);
    assert IpFrames(reply) == [];
    FramesCarryThem(s.mac, msg.senderMac, msg.senderIp, Waiting(s, msg.senderIp));
  }

  lemma StartInv(mac: Mac, ip: u32)
    ensures Inv(Start(mac, ip))
  {
  }

  lemma StepKeepsInv(g: Log, op: Op)
    requires Inv(g)
    ensures Inv(Step(g, op))
  {
    hide MapsOk, RequestsOk, TableOk, FatesOk;
    forall k: u32
      ensures MapsOk(Step(g, op), k) && RequestsOk(Step(g, op), k) && TableOk(Step(g, op), k) && FatesOk(Step(g, op), k)
    {
      StepKeepsMaps(g, op, k);
      StepKeepsFates(g, op, k);
    }
    StepKeepsFrames(g, op);
  }

  /** The invariant holds after any sequence of sends, frames and ticks. */
  lemma {:induction false} RunKeepsInv(g: Log, ops: seq<Op>)
    requires Inv(g)
    ensures Inv(Run(g, ops))
    decreases |ops|
  {
    if ops != [] {
      StepKeepsInv(g, ops[0]);
      RunKeepsInv(Step(g, ops[0]), ops[1..]);
    }
  }

  // ---------- Consequences ----------

  /** Requests for the same address are at least 5000 ms apart, on every run. */
  lemma RequestsAreSpaced(g: Log, dgram: Datagram, hop: u32)
    requires Inv(g)
    ensures var request := Frame(g.s.mac, 0xffff_ffff_ffff, Arp(Some(ArpMessage(true, g.s.mac, g.s.ip, 0, hop))));
            request in SendDatagram(g.s, dgram, hop).out[|g.s.out|..]
            <==> hop !in g.s.table && (g.asked(hop).None? || g.now >= g.asked(hop).value + 5000)
  {
    assert RequestsOk(g, hop);
    var added := SendDatagram(g.s, dgram, hop).out[|g.s.out|..];
    if hop in g.s.table {
      assert added == [Frame(g.s.mac, g.s.table[hop].mac, Ip(Some(dgram)))];
    } else if hop in g.s.requests {
      assert added == [];
    } else {
      assert added == [Request(g.s, hop)];
    }
  }

  /** A datagram is sent at once exactly when the address was learned less than 30000 ms
      ago, and then to the address learned last. */
  lemma OnlyFreshMappingsAreUsed(g: Log, dgram: Datagram, hop: u32)
    requires Inv(g)
    ensures SendDatagram(g.s, dgram, hop).waiting == g.s.waiting
            <==> g.learned(hop).Some? && g.now < g.learned(hop).value.0 + 30000
    ensures g.learned(hop).Some? && g.now < g.learned(hop).value.0 + 30000
            ==> SendDatagram(g.s, dgram, hop).out == g.s.out + [Frame(g.s.mac, g.learned(hop).value.1, Ip(Some(dgram)))]
  {
    assert TableOk(g, hop) && MapsOk(g, hop);
    if hop !in g.s.table {
      assert |SendDatagram(g.s, dgram, hop).waiting[hop]| == |Waiting(g.s, hop)| + 1;
    }
  }
}
