/** The receiving half of a TCP endpoint. */
module Receivers {
  import opened FixedWidth
  import opened WrappingIntegers
  import opened ByteStreams
  import opened Reassembly
  import opened StreamReassemblers
  import opened TcpSegments

  datatype Receiver = Receiver(reassembler: Reassembler, isn: Option<u32>) {
    function Out(): Stream { reassembler.out }
  }

  function NewReceiver(capacity: nat): Receiver {
    Receiver(NewReassembler(capacity), None)
  }

  /** The position in the byte stream of the first payload byte; 64-bit arithmetic. */
  function StreamIndex(absSeq: u64, syn: bool): u64 {
    (absSeq - 1 + (if syn then 1 else 0)) % TWO_64
  }

  /** Segments before the first SYN are dropped. */
  function Receive(r: Receiver, seg: Segment): (PushStatus, Receiver) {
    if r.isn.None? && !seg.header.syn then (Ok, r)
    else
      var isn := if r.isn.None? then seg.header.seqno else r.isn.value;
      var absSeq := Unwrap(seg.header.seqno, isn, Cur(r.reassembler));
      var (status, reassembler) :=
        Push(r.reassembler, seg.payload, StreamIndex(absSeq, seg.header.syn), seg.header.fin);
      (status, Receiver(reassembler, Some(isn)))
  }

  /** The absolute number of the next byte wanted; the SYN, and the FIN once the stream
      has ended, count for one each. */
  function AbsoluteAck(r: Receiver): nat {
    |r.Out().all| + 1 + (if r.Out().ended then 1 else 0)
  }

  function Ackno(r: Receiver): Option<u32> {
    if r.isn.None? then None else Some(Wrap(AbsoluteAck(r), r.isn.value))
  }

  function WindowSize(r: Receiver): nat { Room(r.Out()) }

  /** The window as it fits the 16-bit header field. */
  function AdvertisedWindow(r: Receiver): u16 { Min(TWO_16 - 1, WindowSize(r)) }

  // ---------- When receiving throws ----------

  /** The segment says where the stream ends and another end is known, or it brings another
      byte for an index inside the window that is already stored. */
  ghost predicate Contradicts(r: Receiver, seg: Segment) {
    && (r.isn.Some? || seg.header.syn)
    && var isn := if r.isn.None? then seg.header.seqno else r.isn.value;
       var i := StreamIndex(Unwrap(seg.header.seqno, isn, Cur(r.reassembler)), seg.header.syn);
       var end := EndIndex(i, |seg.payload|);
       || (seg.header.fin && r.reassembler.eof != NO_EOF && r.reassembler.eof != end)
       || (exists k :: && Max(i, Cur(r.reassembler)) <= k < Min(end, Min(Edge(r.reassembler), r.reassembler.eof))
                       && k in r.reassembler.pending && r.reassembler.pending[k] != seg.payload[k - i])
  }

  lemma ThrowsIff(r: Receiver, seg: Segment)
    ensures Receive(r, seg).0 != Ok <==> Contradicts(r, seg)
  {
    hide Unwrap, StreamIndex, Assemble, Store;
    if r.isn.Some? || seg.header.syn {
      var isn := if r.isn.None? then seg.header.seqno else r.isn.value;
      var i := StreamIndex(Unwrap(seg.header.seqno, isn, Cur(r.reassembler)), seg.header.syn);
      var lo, hi := Max(i, Cur(r.reassembler)),
                    Min(EndIndex(i, |seg.payload|), Min(Edge(r.reassembler), r.reassembler.eof));
      FirstConflictSpec(r.reassembler.pending, seg.payload, i, lo, hi);
    }
  }

  // ---------- The right edge of the window never retreats ----------

  datatype ReceiverOp = OpSegment(seg: Segment) | OpRead(n: nat)

  function Step(r: Receiver, op: ReceiverOp): Receiver {
    match op
    case OpSegment(seg) => Receive(r, seg).1
    case OpRead(n) => r.(reassembler := ReadOut(r.reassembler, n))
  }

  function Run(r: Receiver, ops: seq<ReceiverOp>): Receiver
    decreases |ops|
  {
    if ops == [] then r else Run(Step(r, ops[0]), ops[1..])
  }

  function RightEdge(r: Receiver): nat { AbsoluteAck(r) + AdvertisedWindow(r) }

  /** A push only ever appends to the output and may end it. */
  lemma PushOnlyAppends(r: Reassembler, data: seq<byte>, index: u64, eof: bool)
    ensures var out' := Push(r, data, index, eof).1.out;
            && r.out.all <= out'.all
            && out'.read == r.out.read && out'.capacity == r.out.capacity && out'.error == r.out.error
            && (r.out.ended ==> out'.ended)
  {
  }

  lemma StepAdvances(r: Receiver, op: ReceiverOp)
    ensures AbsoluteAck(r) <= AbsoluteAck(Step(r, op))
    ensures RightEdge(r) <= RightEdge(Step(r, op))
    ensures r.isn.Some? ==> Step(r, op).isn == r.isn
  {
    if op.OpSegment? && !(r.isn.None? && !op.seg.header.syn) {
      var header := op.seg.header;
      var isn := if r.isn.None? then header.seqno else r.isn.value;
      var absSeq := Unwrap(header.seqno, isn, Cur(r.reassembler));
      PushOnlyAppends(r.reassembler, op.seg.payload, StreamIndex(absSeq, header.syn), header.fin);
    }
  }

  /** Whatever segments arrive, consistent or not, and however the output is read, the
      acknowledgment number and the right edge of the advertised window never go back. */
  lemma {:induction false} RightEdgeNeverRetreats(r: Receiver, ops: seq<ReceiverOp>)
    ensures AbsoluteAck(r) <= AbsoluteAck(Run(r, ops))
    ensures RightEdge(r) <= RightEdge(Run(r, ops))
    decreases |ops|
  {
    if ops != [] {
      StepAdvances(r, ops[0]);
      RightEdgeNeverRetreats(Step(r, ops[0]), ops[1..]);
    }
  }

  class TCPReceiver {
    const reassembler: StreamReassembler
    const capacity: nat
    var isn: Option<u32>

    ghost predicate Valid()
      reads this, reassembler, reassembler.output, reassembler.ring
    {
      reassembler.Valid() && reassembler.capacity == capacity
    }

    ghost function View(): (r: Receiver)
      reads this, reassembler, reassembler.output, reassembler.ring
      requires Valid()
      ensures Wf(r.reassembler)
    {
      Receiver(reassembler.View(), isn)
    }

    constructor (capacity: nat)
      requires capacity > 0
      ensures Valid() && View() == NewReceiver(capacity)
      ensures fresh(reassembler) && fresh(reassembler.output) && fresh(reassembler.ring)
    {
      this.capacity := capacity;
      reassembler := new StreamReassembler(capacity);
      isn := None;
    }

    method SegmentReceived(seg: Segment) returns (status: PushStatus)
      requires Valid()
      modifies this, reassembler, reassembler.output, reassembler.ring
      ensures Valid()
      ensures (status, View()) == Receive(old(View()), seg)
    {
      if isn.None? {
        if !seg.header.syn {
          return Ok;
        }
        isn := Some(seg.header.seqno);
      }
      var checkpoint := reassembler.output.written;
      var absSeq := Unwrap(seg.header.seqno, isn.value, checkpoint);
      status := reassembler.PushSubstring(seg.payload, StreamIndex(absSeq, seg.header.syn), seg.header.fin);
    }

    /** Reads from the assembled stream. */
    method Read(n: nat) returns (data: seq<byte>)
      requires Valid()
      modifies reassembler.output
      ensures Valid() && View() == old(View()).(reassembler := ReadOut(old(View()).reassembler, n))
      ensures data == Peek(old(View()).Out(), n)
    {
      data := reassembler.Read(n);
    }

    method GetAckno() returns (ackno: Option<u32>)
      requires Valid()
      ensures ackno == Ackno(View())
    {
      if isn.None? {
        return None;
      }
      var absSeq := reassembler.output.written + 1 + (if reassembler.output.inputEnded then 1 else 0);
      return Some(Wrap(absSeq, isn.value));
    }

    method GetWindowSize() returns (size: nat)
      requires Valid()
      ensures size == WindowSize(View())
    {
      size := capacity - reassembler.output.BufferSize();
    }
  }
}
