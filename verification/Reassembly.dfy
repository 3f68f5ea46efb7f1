/** Reassembly of a byte stream from overlapping, reordered excerpts: a sparse map
    from absolute index to byte, and what every sequence of pushes makes of it. */
module Reassembly {
  import opened FixedWidth
  import opened ByteStreams

  /** The value of the end-of-stream index while it is unknown. */
  const NO_EOF: nat := TWO_64 - 1

  /** `pending` holds the bytes received but not yet contiguous with `out`. */
  datatype Reassembler = Reassembler(out: Stream, pending: map<nat, byte>, eof: nat)

  datatype PushStatus = Ok | InconsistentEof | InconsistentSubstrings

  function NewReassembler(capacity: nat): Reassembler {
    Reassembler(EmptyStream(capacity), map[], NO_EOF)
  }

  /** The first index not yet written to the output. */
  function Cur(r: Reassembler): nat { |r.out.all| }

  /** The first index beyond the acceptance window. */
  function Edge(r: Reassembler): nat { r.out.read + r.out.capacity }

  ghost predicate Wf(r: Reassembler) {
    && r.out.capacity > 0
    && forall k :: k in r.pending ==> Cur(r) <= k < Edge(r)
  }

  /** The least index in `[i, hi)` at which `data` contradicts `pending`; `hi` if there is none. */
  function FirstConflict(pending: map<nat, byte>, data: seq<byte>, index: nat, i: nat, hi: nat): (stop: nat)
    requires index <= i && hi <= index + |data|
    ensures stop <= hi
    decreases hi - i
  {
    if i >= hi then hi
    else if i in pending && pending[i] != data[i - index] then i
    else FirstConflict(pending, data, index, i + 1, hi)
  }

  /** Appends to `acc` the run of pending bytes that starts at `k` and stops before
      `limit`, and removes it from `pending`. */
  function TakeRun(pending: map<nat, byte>, k: nat, limit: nat, acc: seq<byte>): (seq<byte>, map<nat, byte>)
    decreases limit - k
  {
    if k < limit && k in pending then TakeRun(pending - {k}, k + 1, limit, acc + [pending[k]])
    else (acc, pending)
  }

  lemma {:induction false} TakeRunSpec(pending: map<nat, byte>, k: nat, limit: nat, acc: seq<byte>)
    ensures acc <= TakeRun(pending, k, limit, acc).0
    ensures var (run, rest) := TakeRun(pending, k, limit, acc);
            var end := k + |run| - |acc|;
            && (forall i :: k <= i < end ==> i in pending && run[|acc| + i - k] == pending[i])
            && (end < limit ==> end !in pending)
            && (end == k || end <= limit)
            && (forall i :: i in rest <==> i in pending && !(k <= i < end))
            && (forall i :: i in rest ==> rest[i] == pending[i])
    decreases limit - k
  {
    if k < limit && k in pending {
      var acc' := acc + [pending[k]];
      TakeRunSpec(pending - {k}, k + 1, limit, acc');
      var (run, rest) := TakeRun(pending, k, limit, acc);
      assert run[..|acc|] == acc'[..|acc|] == acc;
      assert run[|acc|] == acc'[|acc|];
      forall i | k <= i < k + |run| - |acc| ensures i in pending && run[|acc| + i - k] == pending[i] {
        assert i > k ==> i in pending - {k} && run[|acc'| + i - (k + 1)] == (pending - {k})[i];
      }
    }
  }

  /** Moves the leading run of pending bytes to the output stream. */
  function Assemble(r: Reassembler): Reassembler {
    var (run, rest) := TakeRun(r.pending, Cur(r), r.eof, []);
    var out := Write(r.out, run);
    Reassembler(if Cur(r) + |run| == r.eof then EndInput(out) else out, rest, r.eof)
  }

  /** `pending` with the bytes of `data` at the indices `[lo, hi)`. */
  function Store(pending: map<nat, byte>, data: seq<byte>, index: nat, lo: nat, hi: nat): map<nat, byte>
    requires index <= lo && hi <= index + |data|
    decreases hi - lo
  {
    if lo >= hi then pending
    else Store(pending, data, index, lo, hi - 1)[hi - 1 := data[hi - 1 - index]]
  }

  lemma {:induction false} StoredByte(pending: map<nat, byte>, data: seq<byte>, index: nat, lo: nat, hi: nat, k: nat)
    requires index <= lo && hi <= index + |data|
    ensures var stored := Store(pending, data, index, lo, hi);
            && (k in stored <==> k in pending || lo <= k < hi)
            && (k in stored ==> stored[k] == if lo <= k < hi then data[k - index] else pending[k])
    decreases hi - lo
  {
    if lo < hi { StoredByte(pending, data, index, lo, hi - 1, k); }
  }

  lemma StoreSpec(pending: map<nat, byte>, data: seq<byte>, index: nat, lo: nat, hi: nat)
    requires index <= lo && hi <= index + |data|
    ensures var stored := Store(pending, data, index, lo, hi);
            forall k: nat ::
              && (k in stored <==> k in pending || lo <= k < hi)
              && (k in stored ==> stored[k] == if lo <= k < hi then data[k - index] else pending[k])
  {
    hide Store;
    var stored := Store(pending, data, index, lo, hi);
    forall k: nat
      ensures k in stored <==> k in pending || lo <= k < hi
      ensures k in stored ==> stored[k] == if lo <= k < hi then data[k - index] else pending[k]
    {
      StoredByte(pending, data, index, lo, hi, k);
    }
  }

  /** Stores the bytes of `data` at `[lo, hi)`, stopping at the first contradiction. */
  function PushRange(r: Reassembler, data: seq<byte>, index: nat, lo: nat, hi: nat, eof: nat): (PushStatus, Reassembler)
    requires index <= lo && hi <= index + |data|
  {
    var stop := FirstConflict(r.pending, data, index, lo, hi);
    var stored := r.(pending := Store(r.pending, data, index, lo, stop), eof := eof);
    if stop < hi then (InconsistentSubstrings, stored) else (Ok, Assemble(stored))
  }

  /** The index after an excerpt, in 64-bit arithmetic. */
  function EndIndex(index: u64, len: nat): (end: u64)
    ensures end <= index + len
    ensures index + len < TWO_64 ==> end == index + len
  {
    (index + len) % TWO_64
  }

  /** The stored part of `data` is what lies inside the window `[Cur, Edge)` and below
      the end index known before the push. `index + |data|` wraps around at 64 bits. */
  function Push(r: Reassembler, data: seq<byte>, index: u64, eof: bool): (PushStatus, Reassembler) {
    var end := EndIndex(index, |data|);
    if eof && r.eof != NO_EOF && r.eof != end then (InconsistentEof, r)
    else PushRange(r, data, index, Max(index, Cur(r)), Min(end, Min(Edge(r), r.eof)),
                   if eof && r.eof == NO_EOF then end else r.eof)
  }

  function ReadOut(r: Reassembler, n: nat): Reassembler { r.(out := Pop(r.out, n)) }

  // ---------- What every push keeps ----------

  lemma {:induction false} FirstConflictSpec(pending: map<nat, byte>, data: seq<byte>, index: nat, i: nat, hi: nat)
    requires index <= i && hi <= index + |data|
    ensures var stop := FirstConflict(pending, data, index, i, hi);
            && stop <= hi
            && (stop < hi ==> i <= stop && stop in pending && pending[stop] != data[stop - index])
            && (forall k :: i <= k < stop && k in pending ==> pending[k] == data[k - index])
    decreases hi - i
  {
    if i < hi && !(i in pending && pending[i] != data[i - index]) {
      FirstConflictSpec(pending, data, index, i + 1, hi);
    }
  }

  /** Every output write is accepted in full. */
  lemma AssembleKeepsWf(r: Reassembler)
    requires Wf(r)
    ensures Wf(Assemble(r))
    ensures Assemble(r).out.read == r.out.read && Assemble(r).out.capacity == r.out.capacity
    ensures Assemble(r).out.error == r.out.error
    ensures Assemble(r).out.all == r.out.all + TakeRun(r.pending, Cur(r), r.eof, []).0
  {
    var run := TakeRun(r.pending, Cur(r), r.eof, []).0;
    TakeRunSpec(r.pending, Cur(r), r.eof, []);
    assert run != [] ==> Cur(r) + |run| - 1 in r.pending;
    assert |run| <= Room(r.out);
    assert run[..|run|] == run;
  }

  lemma PushKeepsWf(r: Reassembler, data: seq<byte>, index: u64, eof: bool)
    requires Wf(r)
    ensures Wf(Push(r, data, index, eof).1)
  {
    var end := EndIndex(index, |data|);
    PushRangeKeepsWf(r, data, index, Max(index, Cur(r)), Min(end, Min(Edge(r), r.eof)),
                     if eof && r.eof == NO_EOF then end else r.eof);
  }

  lemma PushRangeKeepsWf(r: Reassembler, data: seq<byte>, index: nat, lo: nat, hi: nat, eof: nat)
    requires Wf(r)
    requires index <= lo && Cur(r) <= lo && hi <= index + |data| && hi <= Edge(r)
    ensures Wf(PushRange(r, data, index, lo, hi, eof).1)
  {
    var stop := FirstConflict(r.pending, data, index, lo, hi);
    StoreSpec(r.pending, data, index, lo, stop);
    AssembleKeepsWf(r.(pending := Store(r.pending, data, index, lo, stop), eof := eof));
  }

  /** `pending'` is `pending` with the bytes of `data` from index `lo` up to `stop`, where the
      two contradict each other. */
  ghost predicate StoredUpTo(pending: map<nat, byte>, pending': map<nat, byte>, data: seq<byte>, index: nat,
                             lo: nat, stop: nat)
  {
    && index <= lo <= stop < index + |data| && stop in pending && pending[stop] != data[stop - index]
    && (forall k: nat :: k in pending' <==> k in pending || lo <= k < stop)
    && (forall k: nat :: k in pending ==> pending'[k] == pending[k])
    && (forall k: nat :: lo <= k < stop ==> pending'[k] == data[k - index])
  }

  /** An excerpt that contradicts a stored byte leaves what it brought before that byte, and
      adds nothing to the output. */
  lemma ConflictLeavesPrefix(r: Reassembler, data: seq<byte>, index: u64, eof: bool)
    requires Push(r, data, index, eof).0 == InconsistentSubstrings
    ensures var r' := Push(r, data, index, eof).1;
            && r'.out == r.out && r'.eof == (if eof then EndIndex(index, |data|) else r.eof)
            && exists stop: nat :: StoredUpTo(r.pending, r'.pending, data, index, Max(index, Cur(r)), stop)
  {
    hide FirstConflict, Store, Assemble, StoredUpTo;
    var lo, hi := Max(index, Cur(r)), Min(EndIndex(index, |data|), Min(Edge(r), r.eof));
    var stop := FirstConflict(r.pending, data, index, lo, hi);
    ConflictStored(r.pending, data, index, lo, hi);
    assert StoredUpTo(r.pending, Store(r.pending, data, index, lo, stop), data, index, lo, stop);
  }

  lemma ConflictStored(pending: map<nat, byte>, data: seq<byte>, index: nat, lo: nat, hi: nat)
    requires index <= lo && hi <= index + |data| && FirstConflict(pending, data, index, lo, hi) < hi
    ensures var stop := FirstConflict(pending, data, index, lo, hi);
            StoredUpTo(pending, Store(pending, data, index, lo, stop), data, index, lo, stop)
  {
    hide FirstConflict, Store;
    FirstConflictSpec(pending, data, index, lo, hi);
    StoreSpec(pending, data, index, lo, FirstConflict(pending, data, index, lo, hi));
  }

  lemma {:induction false} IntervalSize(lo: nat, hi: nat, s: set<nat>)
    requires lo <= hi && forall k :: k in s ==> lo <= k < hi
    ensures |s| <= hi - lo
    decreases hi - lo
  {
    if lo < hi {
      IntervalSize(lo, hi - 1, s - {hi - 1});
    } else {
      assert s == {};
    }
  }

  /** Assembled but unread bytes and unassembled ones together fit the capacity. */
  lemma WithinCapacity(r: Reassembler)
    requires Wf(r)
    ensures Buffered(r.out) + |r.pending| <= r.out.capacity
  {
    IntervalSize(Cur(r), Edge(r), r.pending.Keys);
    assert |r.pending| == |r.pending.Keys|;
  }

  // ---------- Pushes of excerpts of one stream ----------

  /** `r` is a correct partial view of the stream `s`: the output is a prefix of `s`,
      every pending byte is the byte of `s` at its index, the first missing index is
      missing, and the input has ended exactly when the end is known and reached. */
  ghost predicate Agrees(r: Reassembler, s: seq<byte>) {
    && Wf(r)
    && |s| < NO_EOF
    && Cur(r) <= |s| && r.out.all == s[..Cur(r)]
    && (forall k :: k in r.pending ==> k < |s| && r.pending[k] == s[k])
    && Cur(r) !in r.pending
    && (r.eof == NO_EOF || r.eof == |s|)
    && (r.out.ended <==> Cur(r) == r.eof)
  }

  /** The byte at index `k` has been received and kept. */
  ghost predicate Knows(r: Reassembler, k: nat) {
    k < Cur(r) || k in r.pending
  }

  /** Index `k` of an excerpt falls inside the acceptance window. */
  predicate Accepts(r: Reassembler, index: nat, len: nat, k: nat) {
    index <= k < index + len && k < Edge(r)
  }

  /** A push of an excerpt of `s` never throws, and what is known afterwards is what
      was known before together with the part of the excerpt inside the window. */
  lemma PushLearns(r: Reassembler, s: seq<byte>, index: nat, len: nat, eof: bool)
    requires Agrees(r, s)
    requires index + len <= |s|
    requires eof ==> index + len == |s|
    ensures Push(r, s[index..index + len], index, eof).0 == Ok
    ensures var r' := Push(r, s[index..index + len], index, eof).1;
            && Agrees(r', s)
            && (forall k: nat :: Knows(r', k) <==> Knows(r, k) || Accepts(r, index, len, k))
            && r'.eof == (if eof then |s| else r.eof)
            && r'.out.read == r.out.read && r'.out.capacity == r.out.capacity
            && r'.out.error == r.out.error
  {
    var lo := Max(index, Cur(r));
    var hi := Min(index + len, Edge(r));
    var stored := r.(pending := Store(r.pending, s[index..index + len], index, lo, hi),
                     eof := if eof then |s| else r.eof);
    PushStores(r, s, index, len, eof, stored);
    StoreLearns(r, s, index, len, lo, hi);
    AssembleAgrees(stored, s);
    AssembleKeepsWf(stored);
  }

  lemma PushStores(r: Reassembler, s: seq<byte>, index: nat, len: nat, eof: bool, stored: Reassembler)
    requires Agrees(r, s) && index + len <= |s| && (eof ==> index + len == |s|)
    requires stored == r.(pending := Store(r.pending, s[index..index + len], index,
                                           Max(index, Cur(r)), Min(index + len, Edge(r))),
                          eof := if eof then |s| else r.eof)
    ensures Push(r, s[index..index + len], index, eof) == (Ok, Assemble(stored))
  {
    var lo, hi := Max(index, Cur(r)), Min(index + len, Edge(r));
    NoConflict(r, s, index, len, lo, hi);
    PushInRange(r, s[index..index + len], index, eof, stored.eof);
  }

  /** Away from the 64-bit boundary and from the known end, only the window clips a push. */
  lemma PushInRange(r: Reassembler, data: seq<byte>, index: nat, eof: bool, eof': nat)
    requires index + |data| < NO_EOF && index + |data| <= r.eof
    requires eof ==> index + |data| == eof' && (r.eof == NO_EOF || r.eof == eof')
    requires !eof ==> eof' == r.eof
    ensures Push(r, data, index, eof)
            == PushRange(r, data, index, Max(index, Cur(r)), Min(index + |data|, Edge(r)), eof')
  {
  }

  lemma NoConflict(r: Reassembler, s: seq<byte>, index: nat, len: nat, lo: nat, hi: nat)
    requires Agrees(r, s)
    requires index <= lo && hi <= index + len <= |s|
    ensures FirstConflict(r.pending, s[index..index + len], index, lo, hi) == hi
  {
    FirstConflictSpec(r.pending, s[index..index + len], index, lo, hi);
  }

  lemma StoreLearns(r: Reassembler, s: seq<byte>, index: nat, len: nat, lo: nat, hi: nat)
    requires Agrees(r, s) && index + len <= |s|
    requires lo == Max(index, Cur(r)) && hi == Min(index + len, Edge(r))
    ensures var pending := Store(r.pending, s[index..index + len], index, lo, hi);
            && (forall k :: k in pending ==> Cur(r) <= k < Edge(r) && k < |s| && pending[k] == s[k])
            && (forall k: nat :: k < Cur(r) || k in pending <==> Knows(r, k) || Accepts(r, index, len, k))
  {
    StoreSpec(r.pending, s[index..index + len], index, lo, hi);
  }

  lemma AssembleAgrees(r: Reassembler, s: seq<byte>)
    requires Wf(r)
    requires |s| < NO_EOF
    requires Cur(r) <= |s| && r.out.all == s[..Cur(r)]
    requires forall k :: k in r.pending ==> k < |s| && r.pending[k] == s[k]
    requires r.eof == NO_EOF || r.eof == |s|
    requires r.out.ended ==> Cur(r) == r.eof
    ensures Agrees(Assemble(r), s)
    ensures forall k: nat :: Knows(Assemble(r), k) <==> Knows(r, k)
  {
    AssembleKeepsWf(r);
    var run := TakeRun(r.pending, Cur(r), r.eof, []).0;
    TakeRunSpec(r.pending, Cur(r), r.eof, []);
    assert run != [] ==> Cur(r) + |run| - 1 in r.pending;
    assert Assemble(r).out.all == s[..Cur(r) + |run|];
  }

  lemma ReadKeepsAgreement(r: Reassembler, s: seq<byte>, n: nat)
    requires Agrees(r, s)
    ensures Agrees(ReadOut(r, n), s)
    ensures forall k: nat :: Knows(ReadOut(r, n), k) <==> Knows(r, k)
    ensures Edge(r) <= Edge(ReadOut(r, n))
  {
  }

  // ---------- Every run of pushes and reads ----------

  /** An excerpt of the stream, or a read of the output. */
  datatype Op = OpPush(index: nat, len: nat, eof: bool) | OpRead(n: nat)

  predicate LegalOp(op: Op, s: seq<byte>) {
    op.OpPush? ==> op.index + op.len <= |s| && (op.eof ==> op.index + op.len == |s|)
  }

  function Step(r: Reassembler, s: seq<byte>, op: Op): (PushStatus, Reassembler)
    requires |s| < NO_EOF && LegalOp(op, s)
  {
    if op.OpPush? then Push(r, s[op.index..op.index + op.len], op.index, op.eof)
    else (Ok, ReadOut(r, op.n))
  }

  function Run(r: Reassembler, s: seq<byte>, ops: seq<Op>): Reassembler
    requires |s| < NO_EOF && forall op :: op in ops ==> LegalOp(op, s)
    decreases |ops|
  {
    if ops == [] then r else Run(Step(r, s, ops[0]).1, s, ops[1..])
  }

  /** Some push of the run covered index `k` while it was inside the window. */
  ghost predicate Received(r: Reassembler, s: seq<byte>, ops: seq<Op>, k: nat)
    requires |s| < NO_EOF && forall op :: op in ops ==> LegalOp(op, s)
    decreases |ops|
  {
    ops != [] &&
    (|| (ops[0].OpPush? && Accepts(r, ops[0].index, ops[0].len, k))
     || Received(Step(r, s, ops[0]).1, s, ops[1..], k))
  }

  /** Order, overlap and repetition do not matter: after any run the output is the stream
      up to the least index not received, and the pending bytes are the rest of what was
      received. */
  lemma {:induction false} RunAssemblesWhatWasReceived(r: Reassembler, s: seq<byte>, ops: seq<Op>)
    requires Agrees(r, s)
    requires forall op :: op in ops ==> LegalOp(op, s)
    ensures Agrees(Run(r, s, ops), s)
    ensures forall k: nat :: Knows(Run(r, s, ops), k) <==> Knows(r, k) || Received(r, s, ops, k)
    decreases |ops|
  {
    if ops != [] {
      assert LegalOp(ops[0], s);
      StepLearns(r, s, ops[0]);
      RunAssemblesWhatWasReceived(Step(r, s, ops[0]).1, s, ops[1..]);
    }
  }

  lemma StepLearns(r: Reassembler, s: seq<byte>, op: Op)
    requires Agrees(r, s) && LegalOp(op, s)
    ensures Step(r, s, op).0 == Ok
    ensures Agrees(Step(r, s, op).1, s)
    ensures forall k: nat :: Knows(Step(r, s, op).1, k)
              <==> Knows(r, k) || (op.OpPush? && Accepts(r, op.index, op.len, k))
  {
    if op.OpPush? {
      PushLearns(r, s, op.index, op.len, op.eof);
    } else {
      ReadKeepsAgreement(r, s, op.n);
    }
  }

  lemma NewAgrees(capacity: nat, s: seq<byte>)
    requires capacity > 0 && |s| < NO_EOF
    ensures Agrees(NewReassembler(capacity), s)
    ensures forall k: nat :: !Knows(NewReassembler(capacity), k)
  {
  }
}
