/** The network interface's program: three maps and an output queue, changed in place. */
module NetworkInterfaces {
  import opened FixedWidth
  import opened ArpModel

  class NetworkInterface {
    const mac: Mac
    const ip: u32
    var table: map<u32, Entry>
    var requests: map<u32, nat>
    var waiting: map<u32, seq<Datagram>>
    var framesOut: seq<Frame>

    ghost function View(): Interface
      reads this
    {
      Interface(mac, ip, table, requests, waiting, framesOut)
    }

    constructor (mac: Mac, ip: u32)
      ensures View() == Interface(mac, ip, map[], map[], map[], [])
    {
      this.mac, this.ip := mac, ip;
      table, requests, waiting, framesOut := map[], map[], map[], [];
    }

    method Send(dst: Mac, payload: Payload)
      modifies this`framesOut
      ensures framesOut == old(framesOut) + [Frame(mac, dst, payload)]
    {
      framesOut := framesOut + [Frame(mac, dst, payload)];
    }

    method SendDatagramTo(dgram: Datagram, nextHop: u32)
      modifies this
      ensures View() == SendDatagram(old(View()), dgram, nextHop)
    {
      if nextHop in table {
        Send(table[nextHop].mac, Ip(Some(dgram)));
      } else {
        if nextHop !in requests {
          Send(BROADCAST, Arp(Some(ArpMessage(true, mac, ip, 0, nextHop))));
          requests := requests[nextHop := REQUEST_TTL];
        }
        var queue := if nextHop in waiting then waiting[nextHop] else [];
        waiting := waiting[nextHop := queue + [dgram]];
      }
    }

    method RecvFrame(frame: Frame) returns (dgram: Option<Datagram>)
      modifies this
      ensures (dgram, View()) == ReceiveFrame(old(View()), frame)
      ensures dgram.Some? <==> && frame.dst in {0xffff_ffff_ffff, mac}
                               && frame.payload.Ip? && frame.payload.dgram.Some?
      ensures dgram.Some? ==> dgram == frame.payload.dgram
    {
      if frame.dst != BROADCAST && frame.dst != mac {
        return None;
      }
      if frame.payload.Ip? {
        return frame.payload.dgram;
      }
      if frame.payload.Arp? && frame.payload.msg.Some? {
        Learn(frame.payload.msg.value);
      }
      return None;
    }

    method Learn(msg: ArpMessage)
      modifies this
      ensures View() == HandleArp(old(View()), msg)
    {
      if msg.isRequest && msg.targetIp == ip {
        Send(msg.senderMac, Arp(Some(ArpMessage(false, mac, ip, msg.senderMac, msg.senderIp))));
      }
      table := table[msg.senderIp := Entry(msg.senderMac, ENTRY_TTL)];
      if msg.senderIp in waiting {
        SendAllTo(msg.senderMac, waiting[msg.senderIp]);
        waiting := waiting - {msg.senderIp};
      }
    }

    method SendAllTo(dst: Mac, dgrams: seq<Datagram>)
      modifies this`framesOut
      ensures framesOut == old(framesOut) + FramesTo(mac, dst, dgrams)
    {
      var i := 0;
      while i < |dgrams|
        invariant 0 <= i <= |dgrams|
        invariant framesOut + FramesTo(mac, dst, dgrams[i..]) == old(framesOut) + FramesTo(mac, dst, dgrams)
      {
        assert dgrams[i..][1..] == dgrams[i + 1..];
        Send(dst, Ip(Some(dgrams[i])));
        i := i + 1;
      }
    }

    method TickClock(ms: nat)
      modifies this
      ensures View() == Tick(old(View()), ms)
    {
      ExpireTable(ms);
      ExpireRequests(ms);
    }

    /** Visits every entry, erasing it or lowering its time to live. */
    method ExpireTable(ms: nat)
      modifies this`table
      ensures table == AgeTable(old(table), ms)
    {
      ghost var before := table;
      var rest := table.Keys;
      while rest != {}
        invariant rest <= before.Keys
        invariant forall k: u32 :: k in table <==> k in before && (k in rest || before[k].ttl > ms)
        invariant forall k: u32 :: k in table ==>
                    table[k] == if k in rest then before[k] else Entry(before[k].mac, before[k].ttl - ms)
        decreases |rest|
      {
        var k :| k in rest;
        if table[k].ttl <= ms {
          table := table - {k};
        } else {
          table := table[k := Entry(table[k].mac, table[k].ttl - ms)];
        }
        rest := rest - {k};
      }
    }

    /** Visits every pending request, erasing it with what waits for it or lowering its time. */
    method ExpireRequests(ms: nat)
      modifies this`requests, this`waiting
      ensures requests == AgeRequests(old(requests), ms)
      ensures waiting == DropWaiting(old(waiting), old(requests), ms)
    {
      ghost var before, queued := requests, waiting;
      var rest := requests.Keys;
      while rest != {}
        invariant rest <= before.Keys
        invariant forall k: u32 :: k in requests <==> k in before && (k in rest || before[k] > ms)
        invariant forall k: u32 :: k in requests ==> requests[k] == if k in rest then before[k] else before[k] - ms
        invariant forall k: u32 :: k in waiting <==> k in queued && (k in rest || !TimesOut(before, ms, k))
        invariant forall k: u32 :: k in waiting ==> waiting[k] == queued[k]
        decreases |rest|
      {
        var k :| k in rest;
        if requests[k] <= ms {
          if k in waiting {
            waiting := waiting - {k};
          }
          requests := requests - {k};
        } else {
          requests := requests[k := requests[k] - ms];
        }
        rest := rest - {k};
      }
    }
  }
}
