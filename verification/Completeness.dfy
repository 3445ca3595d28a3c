/** The addition law of core/crypto/edwards.go is complete: d is not a square, so
    the sum of two finite points of the curve is finite, with no exceptional pair
    to test for. */
module Completeness {
  import opened Primes
  import opened Fields
  import opened Curve
  import opened Doubling
  import opened Closure
  import opened Encodings
  import opened Roots

  // ---------------------------------------------------------- d is not a square

  /** i*d and a root of it.  That it has one is why d has none: i has none. */
  const ROOT_OF_I_D: felt := 0x05b35558f47beb977534549973eb6e15cdbca92d0eea6daa75302acb4a5c1ba8

  const I_TIMES_D: felt := 0x024aee07b32c1ab4f4c5ce99bbcb7c34498008497fbcc19e71c41b459e451edd

  lemma RootOfTurned()
    ensures ROOT_OF_I_D * ROOT_OF_I_D % P == I_TIMES_D
  {
  }

  lemma TurnedIs()
    ensures SQRT_M1 * D % P == I_TIMES_D
  {
  }

  lemma RootIs(r: felt, i: felt)
    requires r == ROOT_OF_I_D && i == SQRT_M1
    ensures Mul(r, r) == Mul(i, D)
  {
    RootOfTurned();
    TurnedIs();
    hide Mod, Times;
    TimesIs(r, r);
    TimesIs(i, D);
    ModIs(r * r);
    ModIs(i * D);
  }

  lemma UnitSquaresToMinusOne(i: felt)
    requires i == SQRT_M1
    ensures Mul(i, i) == P - 1
  {
    RootSquares(i);
    hide Mod, Times;
    ModIs(-1);
  }

  lemma MulSquares(a: felt, b: felt)
    ensures Mul(Mul(a, b), Mul(a, b)) == Mul(Mul(a, a), Mul(b, b))
  {
    hide Mul;
    MulSwap(a, b, a, b);
  }

  /** a^2 = i*b^2 makes a^4 = -b^4 and a^8 = b^8. */
  lemma EighthPowers(a: felt, b: felt, i: felt)
    requires i == SQRT_M1 && Mul(a, a) == Mul(i, Mul(b, b))
    ensures Pow(a, 4) == Mul(P - 1, Pow(b, 4)) && Pow(a, 8) == Pow(b, 8)
  {
    hide Mul, Pow;
    PowTwo(a);
    PowTwo(b);
    PowAdds(a, 2, 2);
    PowAdds(b, 2, 2);
    PowAdds(a, 4, 4);
    PowAdds(b, 4, 4);
    MulSquares(i, Mul(b, b));
    UnitSquaresToMinusOne(i);
    MulSquares(P - 1, Pow(b, 4));
    MinusOneSquared();
    MulOne(Pow(b, 8));
  }

  lemma MinusOneSquared()
    ensures Mul(P - 1, P - 1) == 1
  {
    hide Mul;
    NegatedSquare(1);
    OneTimesFelt(1);
  }

  lemma {:induction false} PowOfPow(x: felt, m: nat, n: nat)
    ensures Pow(Pow(x, m), n) == Pow(x, m * n)
  {
    hide Mul;
    if n > 0 {
      PowOfPow(x, m, n - 1);
      PowAdds(x, m * (n - 1), m);
      assert m * (n - 1) + m == m * n;
    }
  }

  /** The root of -1 is not itself a square: no residue has order eight. */
  lemma UnitIsNotSquare(a: felt, b: felt, i: felt, e: nat)
    requires IsPrime(P) && 8 * e + 5 == P && i == SQRT_M1 && b != 0
    ensures Mul(a, a) != Mul(i, Mul(b, b))
  {
    hide Mul, Pow, IsPrime;
    if Mul(a, a) == Mul(i, Mul(b, b)) {
      EighthPowers(a, b, i);
      PowOfPow(a, 8, e);
      PowOfPow(b, 8, e);
      PowAdds(a, 8 * e, 4);
      PowAdds(b, 8 * e, 4);
      FermatsTheorem(b, 8 * e + 4);
      MulCommutes(P - 1, Pow(b, 4));
      MulAssociates(Pow(b, 8 * e), Pow(b, 4), P - 1);
      OneTimesFelt(P - 1);
      NonzeroPower(a, e);
    }
  }

  lemma NonzeroPower(a: felt, e: nat)
    requires IsPrime(P) && 8 * e + 5 == P
    ensures Pow(a, 8 * e + 4) != P - 1
  {
    hide Mul, IsPrime;
    if a == 0 {
      assert Pow(a, 8 * e + 4) == Mul(Pow(a, 8 * e + 3), a);
      TimesZero(Pow(a, 8 * e + 3));
    } else {
      hide Pow;
      FermatsTheorem(a, 8 * e + 4);
    }
  }

  /** (p - 5) / 8, which is exact. */
  lemma RootExponent() returns (e: nat)
    ensures 8 * e + 5 == P
  {
    e := (P - 5) / 8;
  }

  /** d is not a ratio of squares. */
  lemma TwistIsNotSquare(s: felt, w: felt)
    requires IsPrime(P) && w != 0
    ensures Mul(s, s) != Mul(D, Mul(w, w))
  {
    hide Mul, IsPrime;
    var d, i, r: felt := D, SQRT_M1, ROOT_OF_I_D;
    if Mul(s, s) == Mul(d, Mul(w, w)) {
      RootIs(r, i);
      MulSquares(r, w);
      MulAssociates(i, d, Mul(w, w));
      if s == 0 {
        ZeroTimes(0);
        NoZeroDivisors(d, Mul(w, w));
        NoZeroDivisors(w, w);
      }
      var e := RootExponent();
      UnitIsNotSquare(Mul(r, w), s, i, e);
    }
  }

  // ------------------------------------------ what an exceptional pair would give

  /** (i*x + n*y)^2 for a point of the curve and a sign n, up to a multiple of m. */
  lemma TurnedSum(m: int, d: int, x: int, y: int, z: int, t: int, a: int, b: int, i: int, c: int, n: int) returns (k: int)
    requires Near(m, d, x, y, z, t, a, b) && i * i == -1 + m * c && n * n == 1
    ensures (i * x + n * y) * (i * x + n * y) == z * z + d * (t * t) + 2 * (n * (i * (z * t))) + m * k
  {
    var xx, xy, w := x * x, x * y, z * t;
    assert (i * x) * (i * x) == (i * i) * xx by { Swap4(i, x, i, x); }
    assert (n * y) * (n * y) == y * y by { Swap4(n, y, n, y); }
    assert (i * x) * (n * y) == n * (i * xy) by {
      Swap4(i, x, n, y);
      Regrouped(i, n, xy);
    }
    assert (i * i) * xx == -xx + m * (c * xx) by { MinusOneDrift(m, c, xx); }
    assert n * (i * xy) == n * (i * w) + m * (n * (i * b)) by {
      ScaleDrift(m, i, xy, w, b);
      ScaleDrift(m, n, i * xy, i * w, i * b);
    }
    SquareSum(i * x, n * y);
    k := a + c * xx + 2 * (n * (i * b));
    ThreeTerms(m, a, c * xx, n * (i * b));
  }

  lemma Regrouped(i: int, n: int, v: int)
    ensures (i * n) * v == n * (i * v)
  {
  }

  lemma MinusOneDrift(m: int, c: int, v: int)
    ensures (-1 + m * c) * v == -v + m * (c * v)
  {
    assert (m * c) * v == m * (c * v);
  }

  lemma ThreeTerms(m: int, a: int, b: int, c: int)
    ensures m * (a + b + 2 * c) == m * a + m * b + 2 * (m * c)
  {
  }

  /** What the two sides differ by, when b = n*a. */
  lemma PairBalance(d: int, z1: int, t1: int, z2: int, t2: int, i: int, n: int, m: int, g: int) returns (k: int)
    requires d * (t1 * t2) == n * (z1 * z2) + m * g && n * n == 1
    ensures z2 * z2 * (z1 * z1 + d * (t1 * t1) + 2 * (n * (i * (z1 * t1))))
            - d * (t1 * t1) * (z2 * z2 + d * (t2 * t2) + 2 * (1 * (i * (z2 * t2)))) == m * k
  {
    var a, b := z1 * z2, d * (t1 * t2);
    Halves(d, z1, t1, z2, t2);
    var w := i * (t1 * z2);
    LeftCross(z1, t1, z2, i, n);
    RightCross(d, t1, z2, t2, i);
    assert b * b == a * a + m * (g * (2 * (n * a) + m * g)) by {
      Shifted(n, a, m, g);
    }
    assert w * (n * a) - w * b == -(m * (w * g)) by {
      ScaleDrift(m, w, b, n * a, g);
    }
    k := -(g * (2 * (n * a) + m * g)) - 2 * (w * g);
    SidesMeet(z2 * z2, z1 * z1, d * (t1 * t1), n * (i * (z1 * t1)), d * (t2 * t2), i * (z2 * t2));
    assert m * k == -(m * (g * (2 * (n * a) + m * g))) - 2 * (m * (w * g));
  }

  lemma Shifted(n: int, a: int, m: int, g: int)
    requires n * n == 1
    ensures (n * a + m * g) * (n * a + m * g) == a * a + m * (g * (2 * (n * a) + m * g))
  {
    SquareSum(n * a, m * g);
    Swap4(n, a, n, a);
    assert (n * n) * (a * a) == a * a;
    assert (n * a) * (m * g) == m * (g * (n * a));
    assert (m * g) * (m * g) == m * (g * (m * g));
    assert g * (2 * (n * a) + m * g) == 2 * (g * (n * a)) + g * (m * g);
    assert m * (2 * (g * (n * a)) + g * (m * g)) == 2 * (m * (g * (n * a))) + m * (g * (m * g));
  }

  lemma LeftCross(z1: int, t1: int, z2: int, i: int, n: int)
    ensures z2 * z2 * (n * (i * (z1 * t1))) == i * (t1 * z2) * (n * (z1 * z2))
  {
    var w := z1 * z2;
    assert z2 * z2 * (z1 * t1) == (t1 * z2) * w by { Swap4(z2, z2, t1, z1); }
    assert z2 * z2 * (n * (i * (z1 * t1))) == n * (i * (z2 * z2 * (z1 * t1))) by {
      Pull(z2 * z2, n, i, z1 * t1);
    }
    assert i * (t1 * z2) * (n * w) == n * (i * ((t1 * z2) * w)) by {
      Pull(t1 * z2, n, i, w);
      Push(i, t1 * z2, n, w);
    }
  }

  lemma Pull(a: int, n: int, i: int, b: int)
    ensures a * (n * (i * b)) == n * (i * (a * b))
  {
    assert a * (i * b) == i * (a * b);
    assert a * (n * (i * b)) == n * (a * (i * b));
  }

  lemma Push(i: int, a: int, n: int, w: int)
    ensures i * a * (n * w) == a * (n * (i * w))
  {
    assert i * a * (n * w) == a * (i * (n * w));
    assert i * (n * w) == n * (i * w);
  }

  lemma RightCross(d: int, t1: int, z2: int, t2: int, i: int)
    ensures d * (t1 * t1) * (1 * (i * (z2 * t2))) == i * (t1 * z2) * (d * (t1 * t2))
  {
    Swap4(t1, t1, z2, t2);
    Pull(t1 * t1, d, i, z2 * t2);
    assert d * (t1 * t1) * (i * (z2 * t2)) == d * ((t1 * t1) * (i * (z2 * t2)));
    assert d * ((t1 * t1) * (i * (z2 * t2))) == d * (i * ((t1 * t1) * (z2 * t2)));
    Push(i, t1 * z2, d, t1 * t2);
    Pull(t1 * z2, d, i, t1 * t2);
  }

  lemma SidesMeet(u: int, z: int, v: int, l: int, y: int, r: int)
    ensures u * (z + v + 2 * l) - v * (u + y + 2 * (1 * r)) == u * z - v * y + 2 * (u * l) - 2 * (v * (1 * r))
  {
    assert u * (z + v + 2 * l) == u * z + u * v + 2 * (u * l);
    assert v * (u + y + 2 * r) == v * u + v * y + 2 * (v * r);
  }

  /** If d*t1*t2 = n*z1*z2 for a sign n, then d is a ratio of two squares. */
  lemma ExceptionalPair(m: int, d: int, x1: int, y1: int, z1: int, t1: int, a1: int, b1: int,
                        x2: int, y2: int, z2: int, t2: int, a2: int, b2: int,
                        i: int, c: int, n: int, g: int) returns (k: int)
    requires Near(m, d, x1, y1, z1, t1, a1, b1) && Near(m, d, x2, y2, z2, t2, a2, b2)
    requires i * i == -1 + m * c && n * n == 1 && d * (t1 * t2) == n * (z1 * z2) + m * g
    ensures
      var s, w := z2 * (i * x1 + n * y1), t1 * (i * x2 + y2);
      s * s == d * (w * w) + m * k
  {
    hide Near;
    var l, r := i * x1 + n * y1, i * x2 + y2;
    var k1 := TurnedSum(m, d, x1, y1, z1, t1, a1, b1, i, c, n);
    var k2 := TurnedSum(m, d, x2, y2, z2, t2, a2, b2, i, c, 1);
    var k3 := PairBalance(d, z1, t1, z2, t2, i, n, m, g);
    var u, v := z2 * z2, d * (t1 * t1);
    var e1, e2 := z1 * z1 + v + 2 * (n * (i * (z1 * t1))), u + d * (t2 * t2) + 2 * (1 * (i * (z2 * t2)));
    assert (z2 * l) * (z2 * l) == u * (l * l) by { Swap4(z2, l, z2, l); }
    assert d * ((t1 * r) * (t1 * r)) == v * (r * r) by {
      Swap4(t1, r, t1, r);
      Bracket(d, t1 * t1, r * r);
    }
    k := u * k1 - v * k2 + k3;
    Differ(m, u, l * l, e1, k1, v, r * r, e2, k2, k3);
  }

  lemma Bracket(a: int, b: int, c: int)
    ensures a * (b * c) == a * b * c
  {
  }

  lemma Differ(m: int, u: int, l: int, e1: int, k1: int, v: int, r: int, e2: int, k2: int, k3: int)
    requires l == e1 + m * k1 && r == e2 + m * k2 && u * e1 - v * e2 == m * k3
    ensures u * l == v * r + m * (u * k1 - v * k2 + k3)
  {
    ScaleDrift(m, u, l, e1, k1);
    ScaleDrift(m, v, r, e2, k2);
    assert m * (u * k1 - v * k2 + k3) == m * (u * k1) - m * (v * k2) + m * k3;
  }

  // ------------------------------------------------------------- in the field

  lemma UnitOverIntegers(i: int) returns (c: int)
    requires i == SQRT_M1 || i == -(SQRT_M1 as int)
    ensures i * i == -1 + P * c
  {
    RootOfMinusOne();
    var r: int := SQRT_M1;
    assert i * i == r * r;
    c := r * r / P + 1;
  }

  /** The pair's products agree up to a sign n: what the law must never meet. */
  ghost predicate Exceptional(p: Point, q: Point, n: int) {
    Mod(Times(D, Times(p.t, q.t))) == Mod(Times(n, Times(p.z, q.z)))
  }

  lemma ExceptionalIs(p: Point, q: Point, n: int) returns (g: int)
    requires Exceptional(p, q, n)
    ensures D * (p.t * q.t) == n * (p.z * q.z) + P * g
  {
    hide Mod, Times;
    var a, b := Times(D, Times(p.t, q.t)), Times(n, Times(p.z, q.z));
    TimesIs(p.t, q.t);
    TimesIs(p.z, q.z);
    TimesIs(D, p.t * q.t);
    TimesIs(n, p.z * q.z);
    ModSame(a, b);
    g := a / P - b / P;
  }

  lemma SquareRatio(s: int, w: int)
    requires Mod(Times(s, s)) == Mod(Times(D, Times(w, w)))
    ensures Mul(Mod(s), Mod(s)) == Mul(D, Mul(Mod(w), Mod(w)))
  {
    ReducedMod(D);
    hide Mod, Times;
    ModMul(s, s);
    ModMul(w, w);
    ModMul(D, Times(w, w));
  }

  /** A multiple of the modulus does not show. */
  lemma RatioShift(s: int, w: int, k: int)
    requires Times(s, s) == Times(D, Times(w, w)) + P * k
    ensures Mod(Times(s, s)) == Mod(Times(D, Times(w, w)))
  {
    hide Mod, Times;
    ModShift(Times(D, Times(w, w)), k);
  }

  lemma RatioFromPair(p: Point, q: Point, n: int, i: int) returns (s: int)
    requires OnCurve(p) && OnCurve(q) && (n == 1 || n == -1) && Exceptional(p, q, n)
    requires i == SQRT_M1 || i == -(SQRT_M1 as int)
    ensures
      var w := Times(p.t, Times(i, q.x) + q.y);
      Mul(Mod(s), Mod(s)) == Mul(D, Mul(Mod(w), Mod(w)))
  {
    hide OnCurve, Exceptional, Mod, Times, Mul;
    var a1, b1 := NearCurve(p);
    var a2, b2 := NearCurve(q);
    var c := UnitOverIntegers(i);
    var g := ExceptionalIs(p, q, n);
    var k := ExceptionalPair(P, D, p.x, p.y, p.z, p.t, a1, b1, q.x, q.y, q.z, q.t, a2, b2, i, c, n, g);
    s := q.z * (i * p.x + n * p.y);
    TimesIs(i, q.x);
    TimesIs(p.t, i * q.x + q.y);
    var w: int := p.t * (i * q.x + q.y);
    TimesIs(s, s);
    TimesIs(w, w);
    TimesIs(D, w * w);
    RatioShift(s, w, k);
    SquareRatio(s, w);
  }

  /** So the turned sum of the second point vanishes, for either root of -1. */
  lemma TurnedSumVanishes(p: Point, q: Point, n: int, i: int)
    requires IsPrime(P)
    requires OnCurve(p) && OnCurve(q) && (n == 1 || n == -1) && Exceptional(p, q, n) && p.t != 0
    requires i == SQRT_M1 || i == -(SQRT_M1 as int)
    ensures Mod(Times(i, q.x) + q.y) == 0
  {
    var s := RatioFromPair(p, q, n, i);
    ReducedMod(p.t);
    hide OnCurve, Exceptional, Mod, Times, IsPrime;
    var r := Times(i, q.x) + q.y;
    var w := Mod(Times(p.t, r));
    if w != 0 {
      TwistIsNotSquare(Mod(s), w);
    }
    ModMul(p.t, r);
    NoZeroDivisors(p.t, Mod(r));
  }

  lemma SecondYVanishes(q: Point, i: int)
    requires Mod(Times(i, q.x) + q.y) == 0 && Mod(Times(-i, q.x) + q.y) == 0
    ensures q.y == 0
  {
    hide Mod, Times;
    TimesIs(i, q.x);
    TimesIs(-i, q.x);
    ModAdd(Times(i, q.x) + q.y, Times(-i, q.x) + q.y);
    Opposite(i, q.x);
    ReducedZero();
    HalfOfZero(q.y);
  }

  lemma ReducedZero()
    ensures Mod(0) == 0
  {
    SmallIsReduced(0);
  }

  lemma Opposite(i: int, x: int)
    ensures i * x + -i * x == 0
  {
  }

  lemma HalfOfZero(y: felt)
    requires Mod(2 * y) == 0
    ensures y == 0
  {
    hide Mod;
    if 2 * y < P {
      SmallIsReduced(2 * y);
    } else {
      ModOf(2 * y, 1, 2 * y - P);
    }
  }

  /** Points whose third coordinate is not zero: those that have affine ones. */
  ghost predicate Finite(p: Point) {
    OnCurve(p) && p.z != 0
  }

  lemma ExceptionalHasT(p: Point, q: Point, n: int)
    requires IsPrime(P) && p.z != 0 && q.z != 0 && (n == 1 || n == -1) && Exceptional(p, q, n)
    ensures p.t != 0 && q.t != 0
  {
    hide Mod, Times, IsPrime, Exceptional;
    if p.t == 0 || q.t == 0 {
      TimesIs(p.t, q.t);
      ZeroIsExceptional(p, q, n);
      NoZeroDivisors(p.z, q.z);
    }
  }

  lemma ZeroIsExceptional(p: Point, q: Point, n: int)
    requires Exceptional(p, q, n) && Times(p.t, q.t) == 0 && (n == 1 || n == -1)
    ensures Mul(p.z, q.z) == 0
  {
    SmallIsReduced(0);
    hide Mod, Times;
    var zz := Times(p.z, q.z);
    TimesIs(D, 0);
    TimesIs(n, zz);
    if n == -1 {
      ModNeg(-zz);
      assert Mod(-(0 as int)) == 0;
    }
  }

  /** No pair of finite points is exceptional. */
  lemma NoExceptionalPair(p: Point, q: Point, n: int)
    requires IsPrime(P) && Finite(p) && Finite(q) && (n == 1 || n == -1)
    ensures !Exceptional(p, q, n)
  {
    hide OnCurve, Exceptional, Mod, Times, IsPrime;
    var i: int := SQRT_M1;
    if Exceptional(p, q, n) {
      ExceptionalHasT(p, q, n);
      TurnedSumVanishes(p, q, n, i);
      TurnedSumVanishes(p, q, n, -i);
      SecondYVanishes(q, i);
      FourthIsZero(q);
    }
  }

  lemma FourthIsZero(q: Point)
    requires IsPrime(P) && Finite(q) && q.y == 0
    ensures q.t == 0
  {
    hide Mul, IsPrime;
    TimesZero(q.x);
    NoZeroDivisors(q.z, q.t);
  }

  lemma DoubledIsUnit(f: int)
    requires Mod(f) != 0
    ensures Mod(2 * f) != 0
  {
    hide Mod;
    ModAdd(f, f);
    if Mod(2 * f) == 0 {
      HalfOfZero(Mod(f));
    }
  }

  /** The two inner factors of the law vanish only on an exceptional pair. */
  lemma InnerFactors(p: Point, q: Point)
    requires IsPrime(P) && Finite(p) && Finite(q)
    ensures
      var a, b := Times(p.z, q.z), Times(D, Times(p.t, q.t));
      Mod(a - b) != 0 && Mod(a + b) != 0
  {
    hide Finite, Mod, Times, IsPrime, Exceptional;
    NoExceptionalPair(p, q, 1);
    NoExceptionalPair(p, q, -1);
    var a, b := Times(p.z, q.z), Times(D, Times(p.t, q.t));
    if Mod(a - b) == 0 {
      EqualIsExceptional(p, q);
    }
    if Mod(a + b) == 0 {
      OppositeIsExceptional(p, q);
    }
  }

  lemma EqualIsExceptional(p: Point, q: Point)
    requires Mod(Times(p.z, q.z) - Times(D, Times(p.t, q.t))) == 0
    ensures Exceptional(p, q, 1)
  {
    hide Mod, Times;
    var a, b := Times(p.z, q.z), Times(D, Times(p.t, q.t));
    TimesIs(1, a);
    ReducedZero();
    ModAdd(a - b, b);
    ModIdempotent(b);
  }

  lemma OppositeIsExceptional(p: Point, q: Point)
    requires Mod(Times(p.z, q.z) + Times(D, Times(p.t, q.t))) == 0
    ensures Exceptional(p, q, -1)
  {
    hide Mod, Times;
    var a, b := Times(p.z, q.z), Times(D, Times(p.t, q.t));
    TimesIs(-1, a);
    ReducedZero();
    ModAdd(a + b, -a);
    ModIdempotent(-a);
  }

  /** The sum of two finite points of the curve is one. */
  lemma SumIsFinite(p: Point, q: Point)
    requires IsPrime(P) && Finite(p) && Finite(q)
    ensures Finite(AddLaw(p, q))
  {
    SumOnCurve(p, q);
    hide OnCurve, AddLaw, Mod, Times, Mul, IsPrime;
    LawFactors(p, q);
    InnerFactors(p, q);
    var a, b := Times(p.z, q.z), Times(D, Times(p.t, q.t));
    DoubledIsUnit(a - b);
    DoubledIsUnit(a + b);
    UnitProduct(Mod(2 * (a - b)), Mod(2 * (a + b)));
  }

  lemma UnitProduct(f: felt, g: felt)
    requires IsPrime(P) && f != 0 && g != 0
    ensures Mul(f, g) != 0
  {
    hide Mul, IsPrime;
    if Mul(f, g) == 0 {
      NoZeroDivisors(f, g);
    }
  }

  /** Twice a finite point of the curve is one. */
  lemma DoubleIsFinite(p: Point)
    requires IsPrime(P) && Finite(p)
    ensures Finite(DoubleLaw(p))
  {
    DoubleOnCurve(p);
    hide OnCurve, DoubleLaw, Mod, Times, Mul, IsPrime;
    DoublingFactors(p);
    InnerFactors(p, p);
    var a, b := Times(p.z, p.z), Times(D, Times(p.t, p.t));
    NegatedIsUnit(a - b);
    UnitProduct(Mod(-(a - b)), Mod(a + b));
  }

  lemma NegatedIsUnit(f: int)
    requires Mod(f) != 0
    ensures Mod(-f) != 0
  {
    hide Mod;
    ReducedZero();
    ModNeg(-f);
  }

  lemma IdentityIsFinite()
    ensures Finite(IDENTITY)
  {
    hide Mul, Mod;
    OneTimesFelt(0);
    OneTimesFelt(1);
    ZeroTimes(0);
    ZeroTimes(1);
    TimesZero(D);
    SmallIsReduced(1);
  }
}
