/** 32-bit relative sequence numbers and their 64-bit absolute counterparts
    (section 3.3 of RFC 793). */
module WrappingIntegers {
  import opened FixedWidth

  /** The relative sequence number of absolute number `n`. */
  function Wrap(n: nat, isn: u32): u32 {
    (n + isn) % TWO_32
  }

  /** Clears the low 32 bits of `x` after reducing it to 64 bits. */
  function HighPart(x: int): (high: u64)
    ensures high + TWO_32 <= TWO_64
  {
    x % TWO_64 / TWO_32 * TWO_32
  }

  /** The two candidates are built from `checkpoint - 2^31` and
      `checkpoint + 2^31`; both sums wrap around at 64 bits. */
  function Unwrap(n: u32, isn: u32, checkpoint: nat): u64 {
    var low := (n - isn) % TWO_32;
    var res1 := low + HighPart(checkpoint - TWO_31);
    var res2 := low + HighPart(checkpoint + TWO_31);
    if Abs(res1 - checkpoint) < Abs(res2 - checkpoint) then res1 else res2
  }

  /** `u` is the 64-bit number closest to `checkpoint` among those that wrap to
      `n`; of two equally close ones it is the larger. */
  ghost predicate IsNearest(u: int, n: u32, isn: u32, checkpoint: u64) {
    && 0 <= u < TWO_64
    && Wrap(u, isn) == n
    && forall v: nat :: v < TWO_64 && Wrap(v, isn) == n ==>
         && Abs(u - checkpoint) <= Abs(v - checkpoint)
         && (Abs(u - checkpoint) == Abs(v - checkpoint) ==> v <= u)
  }

  /** Two numbers that wrap to the same value differ by a multiple of 2^32. */
  lemma SameWrap(v: nat, n: u32, isn: u32)
    requires Wrap(v, isn) == n
    ensures v % TWO_32 == (n - isn) % TWO_32
  {
  }

  /** The high parts of the two candidates, case by case. */
  lemma HighParts(q: int, r: int)
    requires 0 <= q < TWO_32 && 0 <= r < TWO_32
    ensures HighPart(q * TWO_32 + r - TWO_31)
            == (if r >= TWO_31 then q else if q > 0 then q - 1 else TWO_32 - 1) * TWO_32
    ensures HighPart(q * TWO_32 + r + TWO_31)
            == (if r < TWO_31 then q else if q < TWO_32 - 1 then q + 1 else 0) * TWO_32
  {
    hide HighPart;
    if r >= TWO_31 {
      HighOf(q, r - TWO_31, 0);
      if q < TWO_32 - 1 { HighOf(q + 1, r - TWO_31, 0); } else { HighOf(0, r - TWO_31, 1); }
    } else {
      HighOf(q, r + TWO_31, 0);
      if q > 0 { HighOf(q - 1, r + TWO_31, 0); } else { HighOf(TWO_32 - 1, r + TWO_31, -1); }
    }
  }

  lemma HighOf(k: int, low: int, turns: int)
    requires 0 <= k < TWO_32 && 0 <= low < TWO_32
    ensures HighPart(turns * TWO_64 + k * TWO_32 + low) == k * TWO_32
  {
    assert (turns * TWO_64 + (k * TWO_32 + low)) % TWO_64 == k * TWO_32 + low;
  }

  /** The low 32 bits of the result are those that wrap to `n`. */
  lemma UnwrapWraps(n: u32, isn: u32, checkpoint: u64)
    ensures Wrap(Unwrap(n, isn, checkpoint), isn) == n
  {
    UnwrapValue(n, isn, checkpoint);
    hide Unwrap;
  }

  lemma UnwrapValue(n: u32, isn: u32, checkpoint: u64)
    ensures var q, r, low := checkpoint / TWO_32, checkpoint % TWO_32, (n - isn) % TWO_32;
            Unwrap(n, isn, checkpoint) == low + TWO_32 *
              (if q > 0 && r < TWO_31 && low - r > TWO_31 then q - 1
               else if q < TWO_32 - 1 && r >= TWO_31 && r - low >= TWO_31 then q + 1
               else q)
  {
    HighParts(checkpoint / TWO_32, checkpoint % TWO_32);
  }

  lemma UnwrapIsNearest(n: u32, isn: u32, checkpoint: u64)
    ensures IsNearest(Unwrap(n, isn, checkpoint), n, isn, checkpoint)
  {
    var u := Unwrap(n, isn, checkpoint);
    UnwrapValue(n, isn, checkpoint);
    UnwrapWraps(n, isn, checkpoint);
    forall v: nat | v < TWO_64 && Wrap(v, isn) == n
      ensures Abs(u - checkpoint) <= Abs(v - checkpoint)
      ensures Abs(u - checkpoint) == Abs(v - checkpoint) ==> v <= u
    {
      SameWrap(v, n, isn);
      NoneNearer((n - isn) % TWO_32, checkpoint / TWO_32, checkpoint % TWO_32, v / TWO_32);
    }
  }

  lemma NoneNearer(low: int, q: int, r: int, k: int)
    requires 0 <= low < TWO_32 && 0 <= q < TWO_32 && 0 <= r < TWO_32 && 0 <= k < TWO_32
    ensures var checkpoint := q * TWO_32 + r;
            var u := low + TWO_32 *
              (if q > 0 && r < TWO_31 && low - r > TWO_31 then q - 1
               else if q < TWO_32 - 1 && r >= TWO_31 && r - low >= TWO_31 then q + 1
               else q);
            var v := low + TWO_32 * k;
            && Abs(u - checkpoint) <= Abs(v - checkpoint)
            && (Abs(u - checkpoint) == Abs(v - checkpoint) ==> v <= u)
  {
  }

  /** Exactly when an absolute number survives the trip through 32 bits: it is neither half
      the 32-bit space or more below the checkpoint nor more than half above it, except at
      the ends of the 64-bit range, where no nearer number exists. */
  lemma UnwrapExact(v: u64, isn: u32, checkpoint: u64)
    ensures Unwrap(Wrap(v, isn), isn, checkpoint) == v <==>
              && (v - checkpoint > -TWO_31 || v >= TWO_64 - TWO_32)
              && (v - checkpoint <= TWO_31 || v < TWO_32)
  {
    hide Unwrap, Wrap;
    var n := Wrap(v, isn);
    var u := Unwrap(n, isn, checkpoint);
    UnwrapIsNearest(n, isn, checkpoint);
    Neighbours(v, u, isn);
  }

  lemma Neighbours(v: u64, u: u64, isn: u32)
    requires Wrap(u, isn) == Wrap(v, isn)
    ensures u == v || u >= v + TWO_32 || u <= v - TWO_32
    ensures Wrap(v + TWO_32, isn) == Wrap(v, isn)
    ensures v >= TWO_32 ==> Wrap(v - TWO_32, isn) == Wrap(v, isn)
  {
    hide Wrap;
    SameWrap(v, Wrap(v, isn), isn);
    SameWrap(u, Wrap(v, isn), isn);
    WholeTurn(v, isn);
    if v >= TWO_32 { WholeTurn(v - TWO_32, isn); }
  }

  lemma WholeTurn(v: nat, isn: u32)
    ensures Wrap(v + TWO_32, isn) == Wrap(v, isn)
  {
    assert v + TWO_32 + isn == (v + isn) + TWO_32;
  }

  /** Absolute numbers less than half the 32-bit space away from the checkpoint
      survive the trip through 32 bits. */
  lemma UnwrapInvertsWrap(v: nat, isn: u32, checkpoint: nat)
    requires v < TWO_64 && checkpoint < TWO_64
    requires Abs(v - checkpoint) < TWO_31
    ensures Unwrap(Wrap(v, isn), isn, checkpoint) == v
  {
    hide Unwrap, Wrap;
    UnwrapExact(v, isn, checkpoint);
  }
}
