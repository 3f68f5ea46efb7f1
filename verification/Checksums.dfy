/** The Internet checksum (section 1 of RFC 1071). */
module Checksums {
  import opened FixedWidth

  /** The running sum is 32 bits wide and wraps around; `odd` says that the next byte is the
      low half of a 16-bit word. */
  datatype Checksum = Checksum(sum: u32, odd: bool)

  function Weight(b: byte, odd: bool): nat { if odd then b else b * 256 }

  function AddByte(c: Checksum, b: byte): Checksum {
    Checksum((c.sum + Weight(b, c.odd)) % TWO_32, !c.odd)
  }

  function AddBytes(c: Checksum, data: seq<byte>): Checksum
    decreases |data|
  {
    if data == [] then c else AddBytes(AddByte(c, data[0]), data[1..])
  }

  /** Adds the high half to the low half until nothing is left above 16 bits. */
  function Fold(x: nat): (r: nat)
    ensures r < TWO_16
  {
    if x < TWO_16 then x else FoldStep(x); Fold(x / TWO_16 + x % TWO_16)
  }

  /** Folding is taking the remainder modulo 65535, with 65535 standing for the multiples
      other than zero. */
  lemma {:induction false} FoldSpec(x: nat)
    ensures Fold(x) % 65535 == x % 65535
    ensures Fold(x) == 0 <==> x == 0
  {
    if x >= TWO_16 {
      FoldStep(x);
      FoldSpec(x / TWO_16 + x % TWO_16);
    }
  }

  lemma FoldStep(x: nat)
    requires x >= TWO_16
    ensures 0 < x / TWO_16 + x % TWO_16 < x
    ensures (x / TWO_16 + x % TWO_16) % 65535 == x % 65535
  {
    assert x == 65535 * (x / TWO_16) + (x / TWO_16 + x % TWO_16);
    ModPlusMultiple(x / TWO_16 + x % TWO_16, x / TWO_16);
  }

  lemma ModPlusMultiple(r: nat, q: nat)
    ensures (65535 * q + r) % 65535 == r % 65535
  {
  }

  function Value(c: Checksum): u16 { 65535 - Fold(c.sum) }

  // ---------- However the bytes are split ----------

  /** Adding in pieces is adding all at once, odd lengths included. */
  lemma {:induction false} AddInPieces(c: Checksum, a: seq<byte>, b: seq<byte>)
    ensures AddBytes(c, a + b) == AddBytes(AddBytes(c, a), b)
    decreases |a|
  {
    if a == [] {
      assert a + b == b;
    } else {
      assert (a + b)[1..] == a[1..] + b;
      AddInPieces(AddByte(c, a[0]), a[1..], b);
    }
  }

  // ---------- The sum without wrap-around ----------

  function Total(data: seq<byte>, odd: bool): nat {
    if data == [] then 0 else Weight(data[0], odd) + Total(data[1..], !odd)
  }

  lemma {:induction false} TotalConcat(a: seq<byte>, b: seq<byte>, odd: bool)
    ensures Total(a + b, odd) == Total(a, odd) + Total(b, if |a| % 2 == 0 then odd else !odd)
    decreases |a|
  {
    if a == [] {
      assert a + b == b;
    } else {
      assert (a + b)[1..] == a[1..] + b;
      TotalConcat(a[1..], b, !odd);
    }
  }

  lemma {:induction false} TotalBound(data: seq<byte>, odd: bool)
    ensures Total(data, odd) <= (|data| + 1) * 32768
    ensures !odd && |data| % 2 == 0 ==> Total(data, odd) <= |data| / 2 * 65535
    decreases |data|
  {
    if |data| >= 2 {
      assert data[1..][1..] == data[2..];
      TotalBound(data[2..], odd);
    } else if |data| == 1 {
      assert Total(data[1..], !odd) == 0;
    }
  }

  /** As long as the 32-bit sum does not overflow, it is the initial sum plus the total. */
  lemma {:induction false} SumIsTotal(c: Checksum, data: seq<byte>)
    requires c.sum + Total(data, c.odd) < TWO_32
    ensures AddBytes(c, data).sum == c.sum + Total(data, c.odd)
    decreases |data|
  {
    if data != [] { SumIsTotal(AddByte(c, data[0]), data[1..]); }
  }

  /** Every packet of at most 65535 bytes is short enough. */
  lemma NoOverflow(initial: u32, data: seq<byte>)
    requires |data| <= 65535 && initial < 0x100_0000
    ensures initial + Total(data, false) < TWO_32
    ensures AddBytes(Checksum(initial, false), data).sum == initial + Total(data, false)
  {
    TotalBound(data, false);
    SumIsTotal(Checksum(initial, false), data);
  }

  /** A checksum is right exactly when the total is a positive multiple of 65535. */
  lemma ZeroValue(c: Checksum)
    ensures Value(c) == 0 <==> c.sum > 0 && c.sum % 65535 == 0
  {
    FoldSpec(c.sum);
  }

  function BigEndian16(x: u16): seq<byte> { [x / 256, x % 256] }

  lemma TotalOfWord(x: u16)
    ensures Total(BigEndian16(x), false) == x
  {
    assert BigEndian16(x)[1..] == [x % 256];
    assert Total([x % 256], true) == x % 256;
  }

  /** The checksum over data with a zero field at an even place, written into that field,
      makes the checksum of the whole zero. */
  lemma InsertedChecksumVerifies(initial: u32, before: seq<byte>, after: seq<byte>)
    requires |before| % 2 == 0 && |before| + 2 + |after| <= 65535 && initial < 0x100_0000
    ensures var c := Checksum(initial, false);
            var v := Value(AddBytes(c, before + BigEndian16(0) + after));
            Value(AddBytes(c, before + BigEndian16(v) + after)) == 0
  {
    hide Fold, AddBytes, Total, BigEndian16, Value;
    var c := Checksum(initial, false);
    var x := initial + Total(before, false) + Total(after, false);
    SumAround(initial, before, 0, after);
    var v := Value(AddBytes(c, before + BigEndian16(0) + after));
    assert v == 65535 - Fold(x) by { ValueOf(AddBytes(c, before + BigEndian16(0) + after)); }
    SumAround(initial, before, v, after);
    ValueOf(AddBytes(c, before + BigEndian16(v) + after));
    Complement(x);
  }

  lemma ValueOf(c: Checksum)
    ensures Value(c) == 65535 - Fold(c.sum)
  {
  }

  lemma SumAround(initial: u32, before: seq<byte>, x: u16, after: seq<byte>)
    requires |before| % 2 == 0 && |before| + 2 + |after| <= 65535 && initial < 0x100_0000
    ensures AddBytes(Checksum(initial, false), before + BigEndian16(x) + after).sum
            == initial + Total(before, false) + Total(after, false) + x
  {
    hide AddBytes, Total;
    TotalAround(before, x, after);
    NoOverflow(initial, before + BigEndian16(x) + after);
  }

  lemma TotalAround(before: seq<byte>, x: u16, after: seq<byte>)
    requires |before| % 2 == 0
    ensures Total(before + BigEndian16(x) + after, false) == Total(before, false) + x + Total(after, false)
  {
    TotalConcat(before + BigEndian16(x), after, false);
    TotalConcat(before, BigEndian16(x), false);
    TotalOfWord(x);
  }

  lemma Complement(x: nat)
    ensures Fold(x + (65535 - Fold(x))) == 65535
  {
    var y := x + (65535 - Fold(x));
    FoldSpec(x);
    FoldSpec(y);
    assert y % 65535 == 0 by { SameRemainder(x, Fold(x)); }
  }

  lemma SameRemainder(x: nat, f: nat)
    requires f <= 65535 && f % 65535 == x % 65535
    ensures (x + (65535 - f)) % 65535 == 0
  {
  }

  class InternetChecksum {
    var sum: u32
    var parity: bool

    ghost function View(): Checksum
      reads this
    {
      Checksum(sum, parity)
    }

    constructor (initial: u32)
      ensures View() == Checksum(initial, false)
    {
      sum, parity := initial, false;
    }

    method Add(data: seq<byte>)
      modifies this
      ensures View() == AddBytes(old(View()), data)
    {
      var i := 0;
      while i < |data|
        invariant 0 <= i <= |data|
        invariant AddBytes(View(), data[i..]) == AddBytes(old(View()), data)
      {
        var val: int := data[i];
        if !parity {
          val := val * 256;
        }
        assert data[i..][1..] == data[i + 1..];
        sum := (sum + val) % TWO_32;
        parity := !parity;
        i := i + 1;
      }
    }

    method GetValue() returns (value: u16)
      ensures value == Value(View())
    {
      var ret: nat := sum;
      while ret > 0xffff
        invariant Fold(ret) == Fold(sum)
      {
        FoldStep(ret);
        ret := ret / TWO_16 + ret % TWO_16;
      }
      value := 65535 - ret;
    }
  }
}
