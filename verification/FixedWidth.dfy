/** The fixed-width unsigned integers of the program, as subset types of `int`.
    Arithmetic on them is unbounded in Dafny, so every place where the program
    wraps around says so with an explicit `%`. */
module FixedWidth {

  const TWO_8: int := 0x100
  const TWO_16: int := 0x1_0000
  const TWO_31: int := 0x8000_0000
  const TWO_32: int := 0x1_0000_0000
  const TWO_64: int := 0x1_0000_0000_0000_0000

  type byte = x: int | 0 <= x < TWO_8
  type u16 = x: int | 0 <= x < TWO_16
  type u32 = x: int | 0 <= x < TWO_32
  type u64 = x: int | 0 <= x < TWO_64

  datatype Option<+T> = None | Some(value: T)

  function Min(a: int, b: int): int { if a <= b then a else b }

  function Max(a: int, b: int): int { if a <= b then b else a }

  function Abs(a: int): nat { if a < 0 then -a else a }

  function Pow2(n: nat): (p: nat)
    ensures p > 0
  {
    if n == 0 then 1 else 2 * Pow2(n - 1)
  }

  lemma ZeroMultiple(n: int, q: int)
    requires -n < n * q < n
    ensures q == 0
  {
  }

  function Div(x: nat, p: nat): nat
    requires p > 0
  {
    DivIsNat(x, p);
    x / p
  }

  lemma DivIsNat(x: nat, p: nat)
    requires p > 0
    ensures 0 <= x / p
  {
    var q := x / p;
    assert x == p * q + x % p;
    if q < 0 { NegativeProduct(p, q); }
  }

  lemma NegativeProduct(p: nat, q: int)
    requires q < 0
    ensures p * q <= -(p as int)
  {
  }

  lemma DivideTwice(x: nat, p: nat, m: nat)
    requires p > 0 && m > 0
    ensures Div(Div(x, p), m) == Div(x, m * p)
  {
    var a := Div(x, p);
    var b := Div(a, m);
    assert x == p * a + x % p;
    assert a == m * b + a % m;
    Expand(p, m, b, a % m);
    var rest := p * (a % m) + x % p;
    RestBound(p, m, a % m, x % p);
    QuotientUnique(x, m * p, b, rest);
  }

  lemma Expand(p: nat, m: nat, b: nat, r: nat)
    ensures p * (m * b + r) == (m * p) * b + p * r
  {
  }

  lemma RestBound(p: nat, m: nat, r: nat, t: nat)
    requires r < m && t < p
    ensures p * r + t < m * p
  {
    assert p * r <= p * (m - 1);
  }

  lemma QuotientUnique(x: nat, d: nat, q: nat, r: nat)
    requires d > 0 && r < d && x == d * q + r
    ensures x / d == q
  {
    assert d * (x / d - q) == r - x % d;
    ZeroMultiple(d, x / d - q);
  }
}
