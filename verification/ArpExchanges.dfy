/** What an interface hands up and what it puts on the wire, and how two interfaces on one
    network find each other. */
module ArpExchanges {
  import opened FixedWidth
  import opened ArpModel

  // ---------- Frames in ----------

  /** A datagram is handed up exactly if it came whole in a frame for this interface or for
      all; apart from an ARP message for it, no frame changes the interface. */
  lemma HandsUpIff(s: Interface, frame: Frame, dgram: Datagram)
    ensures var (up, s') := ReceiveFrame(s, frame);
            var ours := frame.dst == 0xffff_ffff_ffff || frame.dst == s.mac;
            && (up == Some(dgram) <==> ours && frame.payload == Ip(Some(dgram)))
            && (s' != s ==> ours && frame.payload.Arp? && frame.payload.msg.Some?)
  {
  }

  /** The datagrams handed up in a run, in order. */
  function HandedUp(s: Interface, ops: seq<Op>): seq<Datagram>
    decreases |ops|
  {
    if ops == [] then []
    else
      var rest := HandedUp(Apply(s, ops[0]), ops[1..]);
      if ops[0].OpReceive? && ReceiveFrame(s, ops[0].frame).0.Some?
      then [ReceiveFrame(s, ops[0].frame).0.value] + rest else rest
  }

  /** The datagrams of a run's frames to `mac` or to all. */
  function Addressed(mac: Mac, ops: seq<Op>): seq<Datagram>
    decreases |ops|
  {
    if ops == [] then []
    else if && ops[0].OpReceive? && ops[0].frame.dst in {mac, 0xffff_ffff_ffff}
            && ops[0].frame.payload.Ip? && ops[0].frame.payload.dgram.Some?
    then [ops[0].frame.payload.dgram.value] + Addressed(mac, ops[1..])
    else Addressed(mac, ops[1..])
  }

  /** In every run an interface hands up the datagrams addressed to it, every one, once, in
      order and unchanged, whatever else it is doing. */
  lemma {:induction false} HandsUpWhatIsAddressed(s: Interface, ops: seq<Op>)
    ensures HandedUp(s, ops) == Addressed(s.mac, ops)
    decreases |ops|
  {
    if ops != [] {
      assert Apply(s, ops[0]).mac == s.mac;
      HandsUpWhatIsAddressed(Apply(s, ops[0]), ops[1..]);
    }
  }

  // ---------- Frames out ----------

  /** A frame of the interface's own: a datagram, a request to all, or a reply to the one
      that asked, with its own addresses. */
  predicate Honest(mac: Mac, ip: u32, f: Frame) {
    && f.src == mac
    && match f.payload
       case Ip(dgram) => dgram.Some?
       case Arp(Some(m)) =>
         && m.senderMac == mac && m.senderIp == ip
         && (if m.isRequest then f.dst == 0xffff_ffff_ffff && m.targetMac == 0 else f.dst == m.targetMac)
       case _ => false
  }

  ghost predicate AllHonest(s: Interface) { forall f :: f in s.out ==> Honest(s.mac, s.ip, f) }

  lemma {:induction false} FramesToAreHonest(mac: Mac, ip: u32, dst: Mac, dgrams: seq<Datagram>, f: Frame)
    requires f in FramesTo(mac, dst, dgrams)
    ensures Honest(mac, ip, f)
  {
    if f != Frame(mac, dst, Ip(Some(dgrams[0]))) { FramesToAreHonest(mac, ip, dst, dgrams[1..], f); }
  }

  lemma StepIsHonest(s: Interface, op: Op)
    requires AllHonest(s)
    ensures AllHonest(Apply(s, op)) && Apply(s, op).mac == s.mac && Apply(s, op).ip == s.ip
  {
    hide FramesTo, AgeTable, AgeRequests, DropWaiting;
    var m := Learns(s, op);
    if m.Some? {
      var dgrams := Waiting(s, m.value.senderIp);
      forall f | f in FramesTo(s.mac, m.value.senderMac, dgrams) ensures Honest(s.mac, s.ip, f) {
        FramesToAreHonest(s.mac, s.ip, m.value.senderMac, dgrams, f);
      }
    }
  }

  /** An interface never speaks for another: in every run, all that it queues is its own. */
  lemma {:induction false} SpeaksForItself(g: Log, ops: seq<Op>)
    requires AllHonest(g.s)
    ensures AllHonest(Run(g, ops).s) && Run(g, ops).s.mac == g.s.mac && Run(g, ops).s.ip == g.s.ip
    decreases |ops|
  {
    hide AllHonest, Apply;
    if ops != [] {
      StepIsHonest(g.s, ops[0]);
      SpeaksForItself(Step(g, ops[0]), ops[1..]);
    }
  }

  /** A frame makes the interface reply exactly if it asks for the interface's address, and
      then the reply comes before everything else that the frame sets free. */
  lemma RepliesIff(s: Interface, frame: Frame)
    ensures var s' := ReceiveFrame(s, frame).1;
            var added := s'.out[|s.out|..];
            var asked := && frame.dst in {s.mac, 0xffff_ffff_ffff} && frame.payload.Arp? && frame.payload.msg.Some?
                         && frame.payload.msg.value.isRequest && frame.payload.msg.value.targetIp == s.ip;
            && (asked ==> var m := frame.payload.msg.value;
                          && added != []
                          && added[0] == Frame(s.mac, m.senderMac, Arp(Some(
                                           ArpMessage(false, s.mac, s.ip, m.senderMac, m.senderIp)))))
            && (forall f :: f in (if asked then added[1..] else added) ==> f.payload.Ip?)
  {
    hide FramesTo;
    var s' := ReceiveFrame(s, frame).1;
    var m := Learns(s, OpReceive(frame));
    if m.Some? {
      var rest := FramesTo(s.mac, m.value.senderMac, Waiting(s, m.value.senderIp));
      assert s'.out[|s.out|..] == Reply(s, m.value) + rest;
      OnlyDatagrams(s.mac, m.value.senderMac, Waiting(s, m.value.senderIp));
    }
  }

  lemma {:induction false} OnlyDatagrams(src: Mac, dst: Mac, dgrams: seq<Datagram>)
    ensures forall f :: f in FramesTo(src, dst, dgrams) ==> f.payload.Ip?
  {
    if dgrams != [] { OnlyDatagrams(src, dst, dgrams[1..]); }
  }

  // ---------- Two interfaces ----------

  function SendAll(s: Interface, dgrams: seq<Datagram>, hop: u32): Interface
    decreases |dgrams|
  {
    if dgrams == [] then s
    else SendDatagram(SendAll(s, dgrams[..|dgrams| - 1], hop), dgrams[|dgrams| - 1], hop)
  }

  /** `a1` is `a` after it asked for `hop`, with `dgrams` waiting for the answer. */
  predicate AskedFor(a: Interface, a1: Interface, dgrams: seq<Datagram>, hop: u32) {
    && a1.out == a.out + [Frame(a.mac, 0xffff_ffff_ffff, Arp(Some(ArpMessage(true, a.mac, a.ip, 0, hop))))]
    && a1.mac == a.mac && a1.ip == a.ip && a1.table == a.table
    && hop in a1.requests && hop in a1.waiting && a1.waiting[hop] == dgrams
  }

  lemma FirstSend(a: Interface, dgram: Datagram, hop: u32)
    requires hop !in a.table && hop !in a.requests && hop !in a.waiting
    ensures AskedFor(a, SendDatagram(a, dgram, hop), [dgram], hop)
  {
  }

  lemma NextSend(a: Interface, a1: Interface, dgrams: seq<Datagram>, dgram: Datagram, hop: u32)
    requires hop !in a.table && AskedFor(a, a1, dgrams, hop)
    ensures AskedFor(a, SendDatagram(a1, dgram, hop), dgrams + [dgram], hop)
  {
  }

  /** Datagrams for an unknown address wait in order behind a single request. */
  lemma {:induction false} OneRequestForAll(a: Interface, dgrams: seq<Datagram>, hop: u32)
    requires dgrams != [] && hop !in a.table && hop !in a.requests && hop !in a.waiting
    ensures AskedFor(a, SendAll(a, dgrams, hop), dgrams, hop)
    decreases |dgrams|
  {
    hide AskedFor, SendDatagram;
    var front, last := dgrams[..|dgrams| - 1], dgrams[|dgrams| - 1];
    assert dgrams == front + [last];
    if front == [] {
      FirstSend(a, last, hop);
    } else {
      OneRequestForAll(a, front, hop);
      NextSend(a, SendAll(a, front, hop), front, last, hop);
    }
  }

  lemma {:induction false} FramesInOrder(src: Mac, dst: Mac, dgrams: seq<Datagram>, i: nat)
    requires i < |dgrams|
    ensures |FramesTo(src, dst, dgrams)| == |dgrams|
    ensures FramesTo(src, dst, dgrams)[i] == Frame(src, dst, Ip(Some(dgrams[i])))
  {
    if i > 0 { FramesInOrder(src, dst, dgrams[1..], i - 1); }
    else if |dgrams| > 1 { FramesInOrder(src, dst, dgrams[1..], 0); }
  }

  /** RFC 826 end to end. Interface `a` sends datagrams to `b`, whose Ethernet address it does
      not know and has not asked for. Its one request makes `b` reply; the reply makes `a` put
      out exactly those datagrams; and `b` hands up each of them, in order and unchanged. From
      then on each knows the other. */
  lemma Resolution(a: Interface, b: Interface, dgrams: seq<Datagram>, i: nat)
    requires b.ip !in a.table && b.ip !in a.requests && b.ip !in a.waiting
    requires i < |dgrams|
    ensures var a1 := SendAll(a, dgrams, b.ip);
            && |a1.out| == |a.out| + 1
            && var (up, b1) := ReceiveFrame(b, a1.out[|a.out|]);
               && up == None && |b1.out| > |b.out|
               && var (up', a2) := ReceiveFrame(a1, b1.out[|b.out|]);
                  && up' == None && |a2.out| == |a1.out| + |dgrams|
                  && ReceiveFrame(b1, a2.out[|a1.out| + i]) == (Some(dgrams[i]), b1)
                  && b.ip in a2.table && a2.table[b.ip].mac == b.mac
                  && a.ip in b1.table && b1.table[a.ip].mac == a.mac
  {
    hide FramesTo, SendAll;
    OneRequestForAll(a, dgrams, b.ip);
    var a1 := SendAll(a, dgrams, b.ip);
    RepliesIff(b, a1.out[|a.out|]);
    FramesInOrder(a.mac, b.mac, dgrams, i);
  }
}
