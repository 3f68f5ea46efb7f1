/** The flow-controlled byte stream: a flat queue with a history, and the class
    that stores it as a queue of chunks. */
module ByteStreams {
  import opened FixedWidth

  /** `all` is every byte ever accepted; the first `read` of them have been popped. */
  datatype StreamState = Stream(capacity: nat, all: seq<byte>, read: nat, ended: bool, error: bool)

  type Stream = s: StreamState | s.read <= |s.all| <= s.read + s.capacity
    witness Stream(0, [], 0, false, false)

  function EmptyStream(capacity: nat): Stream {
    Stream(capacity, [], 0, false, false)
  }

  function Buffered(s: Stream): nat { |s.all| - s.read }

  function Room(s: Stream): nat { s.capacity - Buffered(s) }

  predicate Eof(s: Stream) { s.ended && Buffered(s) == 0 }

  /** Accepts the longest prefix of `data` that fits. */
  function Write(s: Stream, data: seq<byte>): Stream {
    s.(all := s.all + data[..Min(|data|, Room(s))])
  }

  function Peek(s: Stream, n: nat): seq<byte> {
    s.all[s.read..s.read + Min(n, Buffered(s))]
  }

  function Pop(s: Stream, n: nat): Stream {
    s.(read := s.read + Min(n, Buffered(s)))
  }

  function EndInput(s: Stream): Stream { s.(ended := true) }

  function SetError(s: Stream): Stream { s.(error := true) }

  // ---------- Every interleaving of writes and reads ----------

  datatype StreamOp = OpWrite(data: seq<byte>) | OpRead(n: nat)

  function Apply(s: Stream, op: StreamOp): Stream {
    match op
    case OpWrite(data) => Write(s, data)
    case OpRead(n) => Pop(s, n)
  }

  function Run(s: Stream, ops: seq<StreamOp>): Stream
    decreases |ops|
  {
    if ops == [] then s else Run(Apply(s, ops[0]), ops[1..])
  }

  /** What the reads of a run hand out, in order. */
  function Output(s: Stream, ops: seq<StreamOp>): seq<byte>
    decreases |ops|
  {
    if ops == [] then []
    else (if ops[0].OpRead? then Peek(s, ops[0].n) else []) + Output(Apply(s, ops[0]), ops[1..])
  }

  /** What the writes of a run put in, in order. */
  function Input(s: Stream, ops: seq<StreamOp>): seq<byte>
    decreases |ops|
  {
    if ops == [] then []
    else (if ops[0].OpWrite? then ops[0].data[..Min(|ops[0].data|, Room(s))] else [])
         + Input(Apply(s, ops[0]), ops[1..])
  }

  /** First in, first out, nothing lost and nothing invented: the bytes read so far
      followed by the bytes still buffered are the bytes that were buffered at the
      start followed by the bytes accepted since. */
  lemma {:induction false} RunIsFifo(s: Stream, ops: seq<StreamOp>)
    ensures Output(s, ops) + Run(s, ops).all[Run(s, ops).read..] == s.all[s.read..] + Input(s, ops)
    ensures Buffered(Run(s, ops)) <= s.capacity
    decreases |ops|
  {
    if ops == [] {
      assert Input(s, ops) == [];
    } else {
      RunIsFifo(Apply(s, ops[0]), ops[1..]);
      FifoStep(s, ops[0], Output(Apply(s, ops[0]), ops[1..]), Run(s, ops), Input(Apply(s, ops[0]), ops[1..]));
    }
  }

  lemma FifoStep(s: Stream, op: StreamOp, output: seq<byte>, last: Stream, input: seq<byte>)
    requires output + last.all[last.read..] == Apply(s, op).all[Apply(s, op).read..] + input
    ensures (if op.OpRead? then Peek(s, op.n) else []) + output + last.all[last.read..]
            == s.all[s.read..] + ((if op.OpWrite? then op.data[..Min(|op.data|, Room(s))] else []) + input)
  {
    match op
    case OpWrite(data) => FifoWrite(s, data, output, last.all[last.read..], input);
    case OpRead(n) => FifoRead(s, n, output, last.all[last.read..], input);
  }

  lemma FifoWrite(s: Stream, data: seq<byte>, output: seq<byte>, rest: seq<byte>, input: seq<byte>)
    requires output + rest == Write(s, data).all[s.read..] + input
    ensures [] + output + rest == s.all[s.read..] + (data[..Min(|data|, Room(s))] + input)
  {
    var taken := data[..Min(|data|, Room(s))];
    assert Write(s, data).all[s.read..] == s.all[s.read..] + taken;
    assert [] + output == output;
    JoinChunk(s.all[s.read..], taken, input);
  }

  lemma FifoRead(s: Stream, n: nat, output: seq<byte>, rest: seq<byte>, input: seq<byte>)
    requires output + rest == Pop(s, n).all[Pop(s, n).read..] + input
    ensures Peek(s, n) + output + rest == s.all[s.read..] + ([] + input)
  {
    var left := Pop(s, n).all[Pop(s, n).read..];
    assert s.all[s.read..] == Peek(s, n) + left;
    assert [] + input == input;
    JoinChunk(Peek(s, n), output, rest);
    JoinChunk(Peek(s, n), left, input);
  }

  // ---------- The chunked representation ----------

  function Flatten(chunks: seq<seq<byte>>): seq<byte> {
    if chunks == [] then [] else chunks[0] + Flatten(chunks[1..])
  }

  lemma {:induction false} FlattenAppend(a: seq<seq<byte>>, b: seq<seq<byte>>)
    ensures Flatten(a + b) == Flatten(a) + Flatten(b)
  {
    if a == [] {
      assert a + b == b;
    } else {
      FlattenAppend(a[1..], b);
      assert (a + b)[0] == a[0] && (a + b)[1..] == a[1..] + b;
      JoinChunk(a[0], Flatten(a[1..]), Flatten(b));
    }
  }

  lemma FlattenStep(chunks: seq<seq<byte>>, i: nat)
    requires i < |chunks|
    ensures Flatten(chunks[i..]) == chunks[i] + Flatten(chunks[i + 1..])
  {
    assert chunks[i..][1..] == chunks[i + 1..];
  }

  lemma JoinChunk(done: seq<byte>, chunk: seq<byte>, rest: seq<byte>)
    ensures done + (chunk + rest) == done + chunk + rest
  {
  }

  lemma TakePart(done: seq<byte>, chunk: seq<byte>, rest: seq<byte>, n: nat)
    requires n <= |chunk|
    ensures (done + (chunk + rest))[..|done| + n] == done + chunk[..n]
  {
  }

  class ByteStream {
    var buffer: seq<seq<byte>>
    const capacity: nat
    var written: nat
    var readCount: nat
    var inputEnded: bool
    var errorFlag: bool
    ghost var accepted: seq<byte>

    ghost predicate Valid()
      reads this
    {
      && written == |accepted|
      && readCount <= written <= readCount + capacity
      && Flatten(buffer) == accepted[readCount..]
    }

    ghost function View(): Stream
      reads this
      requires Valid()
    {
      Stream(capacity, accepted, readCount, inputEnded, errorFlag)
    }

    constructor (capacity: nat)
      ensures Valid() && View() == EmptyStream(capacity)
    {
      this.capacity := capacity;
      buffer, written, readCount, accepted := [], 0, 0, [];
      inputEnded, errorFlag := false, false;
    }

    function BufferSize(): nat
      reads this
      requires Valid()
      ensures BufferSize() == Buffered(View()) == |Flatten(buffer)|
    {
      written - readCount
    }

    function RemainingCapacity(): nat
      reads this
      requires Valid()
      ensures RemainingCapacity() == Room(View())
    {
      capacity - BufferSize()
    }

    method WriteBytes(data: seq<byte>) returns (count: nat)
      requires Valid()
      modifies this
      ensures Valid() && View() == Write(old(View()), data)
      ensures count == |View().all| - |old(View()).all|
    {
      count := Min(|data|, RemainingCapacity());
      FlattenAppend(buffer, [data[..count]]);
      buffer := buffer + [data[..count]];
      written := written + count;
      accepted := accepted + data[..count];
      assert Flatten([data[..count]]) == data[..count];
    }

    method PeekOutput(len: nat) returns (ret: seq<byte>)
      requires Valid()
      ensures ret == Peek(View(), len)
    {
      ret := [];
      var n: nat := Min(len, BufferSize());
      ghost var want := n;
      var i := 0;
      while i < |buffer|
        invariant 0 <= i <= |buffer|
        invariant |ret| + n == want
        invariant ret + Flatten(buffer[i..]) == Flatten(buffer)
      {
        FlattenStep(buffer, i);
        if n >= |buffer[i]| {
          JoinChunk(ret, buffer[i], Flatten(buffer[i + 1..]));
          n := n - |buffer[i]|;
          ret := ret + buffer[i];
        } else {
          TakePart(ret, buffer[i], Flatten(buffer[i + 1..]), n);
          ret := ret + buffer[i][..n];
          return;
        }
        i := i + 1;
      }
      assert ret == Flatten(buffer);
    }

    method PopOutput(len: nat)
      requires Valid()
      modifies this
      ensures Valid() && View() == Pop(old(View()), len)
    {
      var n: nat := Min(len, BufferSize());
      readCount := readCount + n;
      while n > 0
        invariant n <= |Flatten(buffer)|
        invariant Flatten(buffer)[n..] == accepted[readCount..]
        modifies `buffer
        decreases |buffer|, n
      {
        assert buffer != [];
        if n >= |buffer[0]| {
          n := n - |buffer[0]|;
          buffer := buffer[1..];
        } else {
          assert Flatten(buffer)[n..] == buffer[0][n..] + Flatten(buffer[1..]);
          buffer := [buffer[0][n..]] + buffer[1..];
          n := 0;
        }
      }
      assert Flatten(buffer)[0..] == Flatten(buffer);
    }

    method ReadBytes(len: nat) returns (ret: seq<byte>)
      requires Valid()
      modifies this
      ensures Valid() && View() == Pop(old(View()), len)
      ensures ret == Peek(old(View()), len)
      ensures ret + Flatten(buffer) == old(Flatten(buffer))
    {
      ret := PeekOutput(len);
      PopOutput(len);
    }

    method End()
      requires Valid()
      modifies this
      ensures Valid() && View() == EndInput(old(View()))
    {
      inputEnded := true;
    }

    method Fail()
      requires Valid()
      modifies this
      ensures Valid() && View() == SetError(old(View()))
    {
      errorFlag := true;
    }
  }
}
