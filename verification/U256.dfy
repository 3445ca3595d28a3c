/** Fixed-width unsigned arithmetic.
    A `u256` is a natural number below 2^256; the source's overflow flags become
    explicit comparisons with `TWO256`, and its 64-bit wrap-around becomes `Wrap64`. */
module U256 {

  const TWO32: nat := 0x1_0000_0000
  const TWO64: nat := 0x1_0000_0000_0000_0000
  const TWO248: nat := 0x1_0000_0000_0000_0000_0000_0000_0000_0000_0000_0000_0000_0000_0000_0000_0000_00
  const TWO256: nat := 0x1_0000_0000_0000_0000_0000_0000_0000_0000_0000_0000_0000_0000_0000_0000_0000_0000

  type u64 = n: nat | n < TWO64
  type u256 = n: nat | n < TWO256

  const MAX: u256 := TWO256 - 1

  /** The low 64 bits of a natural number: what a `uint64` expression keeps. */
  function Wrap64(n: nat): u64 {
    n % TWO64
  }

  lemma WrapZero()
    ensures Wrap64(0) == 0
  {
  }

  /** Wrapping early or late is the same sum. */
  lemma WrapAbsorbs(a: nat, b: nat)
    ensures Wrap64(Wrap64(a) + b) == Wrap64(a + b)
  {
  }

  function Min(a: nat, b: nat): nat {
    if a < b then a else b
  }

  function Max(a: nat, b: nat): nat {
    if a > b then a else b
  }

  /** The point of an interval nearest to x. */
  ghost predicate NearestTo(y: int, x: int, lo: int, hi: int) {
    lo <= y <= hi && (x < lo ==> y == lo) && (x > hi ==> y == hi) && (lo <= x <= hi ==> y == x)
  }

  function SatAdd(u: u256, v: u256): u256 {
    if u + v >= TWO256 then MAX else u + v
  }

  function SatSub(u: u256, v: u256): u256 {
    if v > u then 0 else u - v
  }

  /** Truncating division of naturals. */
  function Quot(a: nat, d: nat): (q: nat)
    requires d > 0
    ensures q <= a
  {
    QuotBound(a, d);
    a / d
  }

  lemma QuotBound(a: nat, d: nat)
    requires d > 0
    ensures a / d <= a
  {
    assert d * (a / d) <= a;
    assert a < d * (a + 1) by { MulGrows(d, a + 1); }
    MulCancels(d, a / d, a + 1);
  }

  lemma MulGrows(d: nat, x: nat)
    requires d > 0
    ensures x <= d * x
  {
    assert (d - 1) * x >= 0;
  }

  function Product(a: nat, b: nat): nat {
    a * b
  }

  /** `u*m/d` computed without intermediate overflow, saturating at `MAX`. */
  function MulDiv64(u: u256, m: u64, d: u64): u256
    requires d != 0
  {
    var q := Quot(Product(u, m), d);
    if q < TWO256 then q else MAX
  }

  /** A ratio of at most one never enlarges its operand. */
  lemma MulDivShrinks(u: u256, m: u64, d: u64)
    requires d != 0 && m <= d
    ensures MulDiv64(u, m, d) <= u
  {
    assert u * m <= u * d;
    DivMonotone(u * m, u * d, d);
    assert u * d / d == u by { DivCancels(u, d); }
  }

  lemma MulCancels(d: nat, x: int, y: int)
    requires d > 0 && d * x < d * y
    ensures x < y
  {
    assert d * (y - x) > 0;
  }

  lemma DivMonotone(a: nat, b: nat, d: nat)
    requires d > 0 && a <= b
    ensures a / d <= b / d
  {
    assert d * (a / d) <= a && b < d * (b / d + 1);
    MulCancels(d, a / d, b / d + 1);
  }

  lemma DivCancels(u: nat, d: nat)
    requires d > 0
    ensures u * d / d == u
  {
    var q := u * d / d;
    assert d * q <= d * u < d * (q + 1);
    MulCancels(d, u, q + 1);
    assert d * q < d * (u + 1);
    MulCancels(d, q, u + 1);
  }

  lemma ProductSwap(a: nat, b: nat)
    ensures Product(a, b) == Product(b, a)
  {
  }

  lemma Scales(k: nat, a: int, b: int)
    requires a <= b
    ensures k * a <= k * b
  {
    assert k * (b - a) >= 0;
  }

  lemma QuotientIs(total: nat, d: nat, k: nat)
    requires d > 0
    ensures total / d == k <==> d * k <= total < d * (k + 1)
  {
    var j := total / d;
    assert d * j <= total < d * (j + 1);
    if d * k <= total < d * (k + 1) {
      MulCancels(d, j, k + 1);
      MulCancels(d, k, j + 1);
    }
  }

  /** Dividing twice is dividing by the product. */
  lemma TwoDivisions(x: nat, a: nat, b: nat)
    requires a > 0 && b > 0
    ensures
      var q := x / a / b;
      a * b * q <= x < a * b * (q + 1)
  {
    var y := x / a;
    var q := y / b;
    assert a * y <= x < a * (y + 1);
    assert b * q <= y < b * (q + 1);
    Scales(a, b * q, y);
    Scales(a, y + 1, b * (q + 1));
    assert a * (b * q) == a * b * q;
    assert a * (b * (q + 1)) == a * b * (q + 1);
  }

  // ------------------------------------------------- residues of any modulus

  lemma ResidueUnique(x: nat, m: nat, q: nat, r: nat)
    requires m > 0 && x == m * q + r && r < m
    ensures x % m == r
  {
    assert m * (x / m) <= x < m * (x / m + 1);
    assert m * (x / m) < m * (q + 1);
    MulCancels(m, x / m, q + 1);
    MulCancels(m, q, x / m + 1);
    assert x / m == q;
  }

  lemma SmallMod(x: nat, m: nat)
    requires x < m
    ensures x % m == x
  {
    ResidueUnique(x, m, 0, x);
  }

  lemma ModPeriod(x: nat, m: nat)
    requires m > 0
    ensures (x + m) % m == x % m
  {
    ResidueUnique(x + m, m, x / m + 1, x % m);
  }

  /** Two naturals less than a period apart have different residues. */
  lemma ModDiffers(x: nat, y: nat, m: nat)
    requires x < y < x + m
    ensures y % m != x % m
  {
    var d := y - x;
    if x % m + d < m {
      ResidueUnique(y, m, x / m, x % m + d);
    } else {
      ResidueUnique(y, m, x / m + 1, x % m + d - m);
    }
  }
}
