/** The reassembler's storage: a ring of slots indexed modulo the capacity. */
module StreamReassemblers {
  import opened FixedWidth
  import opened ByteStreams
  import opened Reassembly

  datatype Slot = Slot(data: byte, present: bool)

  const EMPTY_SLOT := Slot(0, false)

  /** The slot that holds absolute index `k`. */
  function At(ring: seq<Slot>, k: nat): Slot
    requires |ring| > 0
  {
    ring[k % |ring|]
  }

  /** Over one turn of the ring from `cur` on, the slots hold exactly the bytes of `pending`. */
  ghost predicate Holds(ring: seq<Slot>, cur: nat, pending: map<nat, byte>)
    requires |ring| > 0
  {
    forall k: nat {:trigger At(ring, k)} :: cur <= k < cur + |ring| ==>
      && (At(ring, k).present <==> k in pending)
      && (k in pending ==> At(ring, k).data == pending[k])
  }

  lemma SameResidue(i: nat, j: nat, n: nat)
    requires n > 0 && i % n == j % n
    requires i < j + n && j < i + n
    ensures i == j
  {
    assert i - j == n * (i / n - j / n);
    ZeroMultiple(n, i / n - j / n);
  }

  lemma OneTurn(k: nat, n: nat)
    requires n > 0
    ensures (k + n) % n == k % n
  {
    assert n * (k / n + 1 - (k + n) / n) == (k + n) % n - k % n;
    ZeroMultiple(n, k / n + 1 - (k + n) / n);
  }

  /** No aliasing: filling the slot of `i` adds exactly `i`. */
  lemma FillSlot(ring: seq<Slot>, cur: nat, pending: map<nat, byte>, i: nat, b: byte)
    requires |ring| > 0 && cur <= i < cur + |ring|
    requires Holds(ring, cur, pending)
    ensures Holds(ring[i % |ring| := Slot(b, true)], cur, pending[i := b])
  {
    var ring' := ring[i % |ring| := Slot(b, true)];
    forall k: nat | cur <= k < cur + |ring| && k != i ensures At(ring', k) == At(ring, k) {
      if k % |ring| == i % |ring| { SameResidue(k, i, |ring|); }
    }
  }

  /** Clearing the slot of `cur` and moving past it removes exactly `cur`. */
  lemma ClearSlot(ring: seq<Slot>, cur: nat, pending: map<nat, byte>)
    requires |ring| > 0 && cur + |ring| !in pending
    requires Holds(ring, cur, pending)
    ensures Holds(ring[cur % |ring| := EMPTY_SLOT], cur + 1, pending - {cur})
  {
    var ring' := ring[cur % |ring| := EMPTY_SLOT];
    forall k: nat | cur < k < cur + |ring| ensures At(ring', k) == At(ring, k) {
      if k % |ring| == cur % |ring| { SameResidue(k, cur, |ring|); }
    }
    OneTurn(cur, |ring|);
  }

  lemma PushUnfolds(r: Reassembler, data: seq<byte>, index: u64, eof: bool, end: nat, lo: nat, hi: nat)
    requires end == EndIndex(index, |data|)
    requires lo == Max(index, Cur(r)) && hi == Min(end, Min(Edge(r), r.eof))
    requires eof ==> r.eof == NO_EOF || r.eof == end
    ensures var r' := if eof then r.(eof := end) else r;
            Push(r, data, index, eof) == PushRange(r', data, index, lo, hi, r'.eof)
  {
  }

  lemma StoreAt(pending: map<nat, byte>, data: seq<byte>, index: nat, lo: nat, i: nat)
    requires index <= lo <= i <= index + |data|
    ensures i in Store(pending, data, index, lo, i) <==> i in pending
    ensures i in pending ==> Store(pending, data, index, lo, i)[i] == pending[i]
  {
    StoreSpec(pending, data, index, lo, i);
  }

  lemma StoreKeepsWf(r: Reassembler, data: seq<byte>, index: nat, lo: nat, hi: nat)
    requires Wf(r) && index <= lo && Cur(r) <= lo && hi <= index + |data| && hi <= Edge(r)
    ensures Wf(r.(pending := Store(r.pending, data, index, lo, hi)))
  {
    StoreSpec(r.pending, data, index, lo, hi);
  }

  class StreamReassembler {
    const output: ByteStream
    const capacity: nat
    const ring: array<Slot>
    var curIndex: nat
    var eofIndex: nat
    var unassembled: nat
    ghost var pending: map<nat, byte>

    ghost predicate RingValid()
      reads this, ring
    {
      && ring.Length == capacity > 0
      && Holds(ring[..], curIndex, pending)
      && unassembled == |pending|
    }

    ghost predicate Valid()
      reads this, output, ring
    {
      && output.Valid() && output.capacity == capacity
      && curIndex == output.written
      && RingValid()
      && Wf(Reassembler(output.View(), pending, eofIndex))
    }

    ghost function View(): (r: Reassembler)
      reads this, output, ring
      requires Valid()
      ensures Wf(r)
    {
      Reassembler(output.View(), pending, eofIndex)
    }

    /** The slot of index `k`, which holds what is pending there. */
    function Find(k: nat): (t: Slot)
      reads this, ring
      requires RingValid() && curIndex <= k < curIndex + capacity
      ensures t.present <==> k in pending
      ensures t.present ==> t.data == pending[k]
    {
      assert ring[k % capacity] == At(ring[..], k);
      ring[k % capacity]
    }

    constructor (capacity: nat)
      requires capacity > 0
      ensures Valid() && View() == NewReassembler(capacity)
      ensures fresh(output) && fresh(ring)
    {
      this.capacity := capacity;
      output := new ByteStream(capacity);
      ring := new Slot[capacity](_ => EMPTY_SLOT);
      curIndex, eofIndex, unassembled, pending := 0, NO_EOF, 0, map[];
    }

    /** The number of distinct indices waiting to be assembled. */
    method UnassembledBytes() returns (n: nat)
      requires Valid()
      ensures n == |View().pending|
    {
      n := unassembled;
    }

    /** Reads from the output, which moves the window on. */
    method Read(n: nat) returns (data: seq<byte>)
      requires Valid()
      modifies output
      ensures Valid() && View() == ReadOut(old(View()), n)
      ensures data == Peek(old(View()).out, n)
    {
      data := output.ReadBytes(n);
    }

    method PushSubstring(data: seq<byte>, index: u64, eof: bool) returns (status: PushStatus)
      requires Valid()
      modifies this, output, ring
      ensures Valid()
      ensures (status, View()) == Push(old(View()), data, index, eof)
    {
      var st := Max(index, curIndex);
      var end := EndIndex(index, |data|);
      var ed := Min(end, Min(curIndex + capacity - output.BufferSize(), eofIndex));
      if eof {
        if eofIndex == NO_EOF {
          eofIndex := end;
        } else if eofIndex != end {
          return InconsistentEof;
        }
      }
      ghost var r0, r1 := old(View()), View();
      PushUnfolds(r0, data, index, eof, end, st, ed);
      assert r1 == if eof then r0.(eof := end) else r0;
      status := PushInRange(data, index, st, ed);
    }

    /** The two loops of a push. */
    method PushInRange(data: seq<byte>, index: nat, st: nat, ed: nat) returns (status: PushStatus)
      requires Valid()
      requires index <= st && curIndex <= st && ed <= index + |data| && ed <= Edge(View())
      modifies this, output, ring
      ensures Valid()
      ensures (status, View()) == PushRange(old(View()), data, index, st, ed, old(eofIndex))
    {
      StoreKeepsWf(View(), data, index, st, FirstConflict(pending, data, index, st, ed));
      status := StoreRange(data, index, st, ed);
      if status.Ok? {
        AssembleRun();
      }
    }

    /** The storing loop. */
    method StoreRange(data: seq<byte>, index: nat, st: nat, ed: nat) returns (status: PushStatus)
      requires RingValid()
      requires index <= st && curIndex <= st && ed <= index + |data| && ed <= curIndex + capacity
      modifies this`unassembled, this`pending, ring
      ensures RingValid()
      ensures var stop := FirstConflict(old(pending), data, index, st, ed);
              && status == (if stop < ed then InconsistentSubstrings else Ok)
              && pending == Store(old(pending), data, index, st, stop)
    {
      var i := st;
      ghost var p0 := pending;
      while i < ed
        invariant st <= i && (i <= ed || i == st)
        invariant RingValid()
        invariant pending == Store(p0, data, index, st, Min(i, ed))
        invariant FirstConflict(p0, data, index, st, ed) == FirstConflict(p0, data, index, i, ed)
      {
        assert Min(i, ed) == i && Min(i + 1, ed) == i + 1;
        StoreAt(p0, data, index, st, i);
        var conflict := StoreByte(i, data[i - index]);
        if conflict {
          assert FirstConflict(p0, data, index, i, ed) == i;
          return InconsistentSubstrings;
        }
        i := i + 1;
      }
      assert FirstConflict(p0, data, index, i, ed) == ed == Min(i, ed);
      status := Ok;
    }

    /** One iteration of the storing loop. */
    method StoreByte(i: nat, b: byte) returns (conflict: bool)
      requires RingValid() && curIndex <= i < curIndex + capacity
      modifies this`unassembled, this`pending, ring
      ensures RingValid()
      ensures conflict <==> i in old(pending) && old(pending)[i] != b
      ensures pending == if conflict then old(pending) else old(pending)[i := b]
    {
      var t := Find(i);
      if t.present {
        conflict := t.data != b;
      } else {
        conflict := false;
        Fill(i, b);
      }
    }

    /** Fills the free slot of index `i`. */
    method Fill(i: nat, b: byte)
      requires RingValid() && curIndex <= i < curIndex + capacity && i !in pending
      modifies this`unassembled, this`pending, ring
      ensures RingValid() && pending == old(pending)[i := b]
    {
      FillSlot(ring[..], curIndex, pending, i, b);
      ghost var ring' := ring[..][i % capacity := Slot(b, true)];
      ring[i % capacity] := Slot(b, true);
      assert ring[..] == ring';
      unassembled := unassembled + 1;
      pending := pending[i := b];
    }

    /** Empties the slot of `curIndex` and moves on. */
    method Take() returns (b: byte)
      requires RingValid() && curIndex in pending && curIndex + capacity !in pending
      modifies this`unassembled, this`pending, this`curIndex, ring
      ensures RingValid() && curIndex == old(curIndex) + 1
      ensures b == old(pending)[old(curIndex)] && pending == old(pending) - {old(curIndex)}
    {
      b := Find(curIndex).data;
      ClearSlot(ring[..], curIndex, pending);
      ghost var ring' := ring[..][curIndex % capacity := EMPTY_SLOT];
      ring[curIndex % capacity] := EMPTY_SLOT;
      assert ring[..] == ring';
      unassembled := unassembled - 1;
      pending := pending - {curIndex};
      curIndex := curIndex + 1;
    }

    /** The assembling loop. */
    method CollectRun() returns (str: seq<byte>)
      requires RingValid()
      requires forall k :: k in pending ==> k < curIndex + capacity
      modifies this`curIndex, this`unassembled, this`pending, ring
      ensures RingValid()
      ensures (str, pending) == TakeRun(old(pending), old(curIndex), eofIndex, [])
      ensures curIndex == old(curIndex) + |str|
    {
      str := [];
      while curIndex < eofIndex && Find(curIndex).present
        invariant RingValid()
        invariant forall k :: k in pending ==> k < curIndex + capacity
        invariant curIndex == old(curIndex) + |str|
        invariant TakeRun(pending, curIndex, eofIndex, str) == TakeRun(old(pending), old(curIndex), eofIndex, [])
        decreases eofIndex - curIndex
      {
        var b := Take();
        str := str + [b];
      }
    }

    /** Assembles the leading run and writes it to the output. */
    method AssembleRun()
      requires Valid()
      modifies this, output, ring
      ensures Valid()
      ensures View() == Assemble(old(View()))
    {
      ghost var r0 := View();
      AssembleKeepsWf(r0);
      var str := CollectRun();
      var _ := output.WriteBytes(str);
      assert output.View() == Write(r0.out, str);
      if curIndex == eofIndex {
        output.End();
      }
      assert output.View() == Assemble(r0).out && pending == Assemble(r0).pending;
    }
  }
}
