/** Arithmetic modulo 2^255 - 19 (core/crypto/edwards.go), on big integers
    changed in place through shared scratch values. */
module Fields {
  import opened U256

  const TWO255: nat := 0x8000_0000_0000_0000_0000_0000_0000_0000_0000_0000_0000_0000_0000_0000_0000_0000
  const P: nat := TWO255 - 19

  /** A reduced field element. */
  type felt = n: nat | n < P

  // ------------------------------------------------------------- congruence

  /** The residue of an integer, negative ones included. */
  function Mod(z: int): felt
    decreases if z < 0 then P - z else z
  {
    if z < 0 then Mod(z + P) else if z < P then z else Mod(z - P)
  }

  lemma {:induction false} ModQuotient(z: int) returns (q: int)
    ensures z == P * q + Mod(z)
    decreases if z < 0 then P - z else z
  {
    if z < 0 {
      q := ModQuotient(z + P);
      q := q - 1;
    } else if z >= P {
      q := ModQuotient(z - P);
      q := q + 1;
    } else {
      q := 0;
    }
  }

  lemma ModIs(z: int)
    ensures Mod(z) == z % P
  {
    hide Mod;
    var q := ModQuotient(z);
    assert P * (z / P) <= z < P * (z / P + 1);
    assert z / P == q;
  }

  lemma ModOf(z: int, q: int, r: int)
    requires z == P * q + r && 0 <= r < P
    ensures Mod(z) == r
  {
    hide Mod;
    ModIs(z);
    assert P * (z / P) <= z < P * (z / P + 1);
    assert z / P == q;
  }

  /** Adding a multiple of the modulus changes nothing. */
  lemma ModShift(z: int, k: int)
    ensures Mod(z + P * k) == Mod(z)
  {
    hide Mod;
    ModIs(z);
    ModOf(z + P * k, z / P + k, Mod(z));
  }

  lemma ModSame(a: int, b: int)
    requires Mod(a) == Mod(b)
    ensures a == b + P * (a / P - b / P)
  {
    hide Mod;
    ModIs(a);
    ModIs(b);
  }

  lemma ModAdd(a: int, b: int)
    ensures Mod(Mod(a) + Mod(b)) == Mod(a + b)
  {
    hide Mod;
    ModIs(a);
    ModIs(b);
    ModShift(Mod(a) + Mod(b), a / P + b / P);
  }

  lemma ModSub(a: int, b: int)
    ensures Mod(Mod(a) as int - Mod(b) as int) == Mod(a - b)
  {
    hide Mod;
    ModIs(a);
    ModIs(b);
    ModShift(Mod(a) as int - Mod(b) as int, a / P - b / P);
  }

  /** The product of two integers, by repeated addition: the field laws below are
      stated with it so that they stay linear. */
  function Times(x: int, y: int): int
    decreases if y < 0 then -y else y
  {
    if y == 0 then 0 else if y > 0 then Times(x, y - 1) + x else Times(x, y + 1) - x
  }

  lemma {:induction false} TimesIs(x: int, y: int)
    ensures Times(x, y) == x * y
    decreases if y < 0 then -y else y
  {
    if y > 0 {
      TimesIs(x, y - 1);
      assert x * (y - 1) == x * y - x;
    } else if y < 0 {
      TimesIs(x, y + 1);
      assert x * (y + 1) == x * y + x;
    }
  }

  lemma ModMul(a: int, b: int)
    ensures Mod(Times(Mod(a), Mod(b))) == Mod(Times(a, b))
  {
    hide Mod, Times;
    ModIs(a);
    ModIs(b);
    var q, r: int := a / P, Mod(a);
    var u, w: int := b / P, Mod(b);
    TimesIs(r, w);
    TimesIs(a, b);
    MulShift(P, q, r, u, w);
    ModShift(r * w, P * q * u + q * w + r * u);
  }

  lemma MulShift(m: int, q: int, r: int, u: int, w: int)
    ensures (m * q + r) * (m * u + w) == r * w + m * (m * q * u + q * w + r * u)
  {
    assert (m * q + r) * (m * u + w) == (m * q + r) * (m * u) + (m * q + r) * w;
    assert (m * q + r) * w == m * (q * w) + r * w;
    assert (m * q + r) * (m * u) == m * (m * q * u) + m * (r * u);
  }

  // --------------------------------------------------------------- reduction

  /** One folding step: the bits above 2^255 come back multiplied by 19. */
  function Fold(z: nat): nat {
    z % TWO255 + 19 * (z / TWO255)
  }

  lemma FoldIsCongruent(z: nat)
    ensures Mod(Fold(z)) == Mod(z)
    ensures z >= TWO255 ==> Fold(z) < z
  {
    hide Mod;
    var q := z / TWO255;
    assert z == Fold(z) + P * q;
    ModShift(Fold(z), q);
  }

  function FoldOnce(z: nat): nat {
    if z >= TWO255 then Fold(z) else z
  }

  lemma ThreeFoldsOf(z: nat)
    requires z <= (P - 1) * (P - 1)
    ensures FoldOnce(FoldOnce(FoldOnce(z))) < TWO255
  {
    assert z / TWO255 < TWO255;
    assert FoldOnce(z) < 20 * TWO255;
    assert FoldOnce(FoldOnce(z)) < TWO255 + 380;
  }

  lemma ProductBelow(a: felt, b: felt)
    ensures Times(a, b) <= (P - 1) * (P - 1)
  {
    hide Times;
    TimesIs(a, b);
    SquareBound(a, b, P - 1);
  }

  lemma SquareBound(a: nat, b: nat, m: nat)
    requires a <= m && b <= m
    ensures a * b <= m * m
  {
    assert (m - a) * b >= 0 && m * (m - b) >= 0;
  }

  /** Three folds bring any product of two reduced elements under 2^255. */
  lemma ThreeFoldsSuffice(a: felt, b: felt)
    ensures Times(a, b) >= 0 && FoldOnce(FoldOnce(FoldOnce(Times(a, b)))) < TWO255
  {
    hide Times, FoldOnce;
    TimesIs(a, b);
    assert a * b >= 0;
    ProductBelow(a, b);
    ThreeFoldsOf(Times(a, b));
  }

  /** A mutable big integer.  The ghost label tells distinct variables apart. */
  class Int {
    var v: nat
    ghost const id: int

    constructor (n: nat, ghost tag: int)
      ensures v == n && id == tag
    {
      v, id := n, tag;
    }
  }

  /** Brings a value below the modulus without dividing by it. */
  method Reduce(z: Int, scratch: Int)
    requires z != scratch
    modifies z, scratch
    ensures z.v == Mod(old(z.v))
  {
    hide Mod, Fold;
    while z.v >= TWO255
      invariant Mod(z.v) == Mod(old(z.v))
      decreases z.v
    {
      FoldIsCongruent(z.v);
      FoldParts(z.v);
      scratch.v := z.v / TWO255;
      z.v := z.v % TWO255;
      scratch.v := scratch.v * 19;
      z.v := z.v + scratch.v;
    }
    while z.v >= P
      invariant Mod(z.v) == Mod(old(z.v))
      decreases z.v
    {
      ModShift(z.v - P, 1);
      z.v := z.v - P;
    }
    SmallIsReduced(z.v);
  }

  lemma FoldParts(z: nat)
    ensures Fold(z) == z % TWO255 + z / TWO255 * 19
  {
  }

  lemma SmallIsReduced(z: nat)
    requires z < P
    ensures Mod(z) == z
  {
    ModOf(z, 0, z);
  }

  // ---------------------------------------------------- the field operations

  function Mul(x: felt, y: felt): felt {
    Mod(Times(x, y))
  }

  function Add(x: felt, y: felt): felt {
    Mod(x + y)
  }

  function Sub(x: felt, y: felt): felt {
    Mod(x - y)
  }

  lemma ZeroDifference(x: nat, y: felt)
    requires x <= P
    ensures Mod(x - y) == 0 <==> x == y || (x == P && y == 0)
  {
    hide Mod;
    if x < y {
      ModOf(x - y, -1, P + x - y);
    } else if x - y < P {
      ModOf(x - y, 0, x - y);
    } else {
      ModOf(x - y, 1, 0);
    }
  }

  /** The temporaries of the point operations. */
  class Scratch {
    const a: Int
    const b: Int
    const c: Int
    const d: Int
    const e: Int
    const f: Int
    const g: Int
    const h: Int
    const t0: Int
    const t1: Int
    const t2: Int

    ghost predicate Valid() {
      && a.id == 0 && b.id == 1 && c.id == 2 && d.id == 3 && e.id == 4 && f.id == 5 && g.id == 6 && h.id == 7
      && t0.id == 8 && t1.id == 9 && t2.id == 10
    }

    ghost function Cells(): set<Int> {
      {a, b, c, d, e, f, g, h, t0, t1, t2}
    }

    constructor ()
      ensures Valid() && fresh(Cells())
    {
      a := new Int(0, 0);
      b := new Int(0, 1);
      c := new Int(0, 2);
      d := new Int(0, 3);
      e := new Int(0, 4);
      f := new Int(0, 5);
      g := new Int(0, 6);
      h := new Int(0, 7);
      t0 := new Int(0, 8);
      t1 := new Int(0, 9);
      t2 := new Int(0, 10);
    }

    /** Whatever the operands alias, the destination gets the product. */
    method MulInto(dst: Int, x: Int, y: Int)
      requires Valid() && dst != t0 && x.v < P && y.v < P
      modifies dst, t0
      ensures dst.v == Mul(old(x.v), old(y.v))
    {
      TimesIs(x.v, y.v);
      dst.v := x.v * y.v;
      Reduce(dst, t0);
    }

    method AddInto(dst: Int, x: Int, y: Int)
      requires Valid() && dst != t1 && x.v < P && y.v < P
      modifies dst, t1
      ensures dst.v == Add(old(x.v), old(y.v))
    {
      dst.v := x.v + y.v;
      Reduce(dst, t1);
    }

    /** Twice the modulus goes in first, so nothing is ever negative.  The
        destination may alias the minuend; aliasing the subtrahend reads the
        overwritten value and leaves zero, which is the difference exactly when the
        operands were equal residues. */
    method SubInto(dst: Int, x: Int, y: Int)
      requires Valid() && dst != t1 && x.v <= P && y.v < P
      modifies dst, t1
      ensures dst != y ==> dst.v == Mod(old(x.v) as int - old(y.v) as int)
      ensures dst == y ==> dst.v == 0
      ensures dst.v == Mod(old(x.v) as int - old(y.v) as int) <==>
                dst != y || old(x.v) == old(y.v) || (old(x.v) == P && old(y.v) == 0)
    {
      ZeroDifference(x.v, y.v);
      ModShift(x.v as int - y.v as int, 2);
      dst.v := x.v + 2 * P;
      dst.v := dst.v - y.v;
      Reduce(dst, t1);
    }

    /** The same, with a shared constant as the second factor. */
    method MulConst(dst: Int, x: Int, k: felt)
      requires Valid() && dst != t0 && x.v < P
      modifies dst, t0
      ensures dst.v == Mul(old(x.v), k)
    {
      TimesIs(x.v, k);
      dst.v := x.v * k;
      Reduce(dst, t0);
    }

    /** Subtraction from the modulus itself: the negative. */
    method NegInto(dst: Int, y: Int)
      requires Valid() && dst != t1 && dst != y && y.v < P
      modifies dst, t1
      ensures dst.v == Mod(-(old(y.v) as int))
    {
      ModShift(-(y.v as int), 3);
      dst.v := P + 2 * P;
      dst.v := dst.v - y.v;
      Reduce(dst, t1);
    }
  }

  /** Five less three, written over the three, is not two. */
  method AliasedSubtraction() returns (wrong: nat)
    ensures wrong == 0 && Mod(5 - 3) == 2
  {
    var s := new Scratch();
    var x := new Int(5, 11);
    var y := new Int(3, 12);
    s.SubInto(y, x, y);
    wrong := y.v;
    SmallIsReduced(2);
  }
}
