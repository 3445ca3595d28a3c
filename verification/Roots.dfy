/** Decompression is complete (core/crypto/edwards.go): the modulus being prime,
    the exponentiation finds a root whenever there is one, so every affine point
    of the curve decodes from its own encoding. */
module Roots {
  import opened U256
  import opened Primes
  import opened Fermat
  import opened Fields
  import opened Bytes
  import opened Curve
  import opened Doubling
  import opened Encodings

  // ------------------------------------------------------ powers in the field

  function Pow(x: felt, n: nat): felt {
    if n == 0 then 1 else Mul(Pow(x, n - 1), x)
  }

  lemma MulAssociates(a: felt, b: felt, c: felt)
    ensures Mul(Mul(a, b), c) == Mul(a, Mul(b, c))
  {
    ReducedMod(a);
    ReducedMod(c);
    hide Mod, Times;
    ModMul(Times(a, b), c);
    ModMul(a, Times(b, c));
    TimesIs(a, b);
    TimesIs(b, c);
    TimesIs(a * b, c);
    TimesIs(a, b * c);
    assert a * b * c == a * (b * c);
  }

  lemma MulOne(a: felt)
    ensures Mul(a, 1) == a && Mul(1, a) == a
  {
    hide Mul;
    OneTimesFelt(a);
    MulCommutes(a, 1);
  }

  lemma MulSwap(a: felt, b: felt, c: felt, d: felt)
    ensures Mul(Mul(a, b), Mul(c, d)) == Mul(Mul(a, c), Mul(b, d))
  {
    hide Mul;
    MulAssociates(a, b, Mul(c, d));
    MulAssociates(b, c, d);
    MulCommutes(b, c);
    MulAssociates(c, b, d);
    MulAssociates(a, c, Mul(b, d));
  }

  lemma {:induction false} PowAdds(x: felt, m: nat, n: nat)
    ensures Pow(x, m + n) == Mul(Pow(x, m), Pow(x, n))
  {
    hide Mul;
    if n == 0 {
      MulOne(Pow(x, m));
    } else {
      PowAdds(x, m, n - 1);
      MulAssociates(Pow(x, m), Pow(x, n - 1), x);
    }
  }

  lemma PowTwo(x: felt)
    ensures Pow(x, 1) == x && Pow(x, 2) == Mul(x, x)
  {
    hide Mul;
    MulOne(x);
    assert Pow(x, 0) == 1;
    assert Pow(x, 1) == Mul(1, x);
  }

  /** A monomial in two variables. */
  function Term(v: felt, i: nat, b: felt, j: nat): felt {
    Mul(Pow(v, i), Pow(b, j))
  }

  lemma TermTimes(v: felt, b: felt, i: nat, j: nat, k: nat, l: nat)
    ensures Mul(Term(v, i, b, j), Term(v, k, b, l)) == Term(v, i + k, b, j + l)
  {
    hide Mul, Pow;
    MulSwap(Pow(v, i), Pow(b, j), Pow(v, k), Pow(b, l));
    PowAdds(v, i, k);
    PowAdds(b, j, l);
  }

  lemma {:induction false} TermPow(v: felt, b: felt, i: nat, j: nat, n: nat)
    ensures Pow(Term(v, i, b, j), n) == Term(v, i * n, b, j * n)
  {
    hide Mul, Term;
    if n == 0 {
      TermZero(v, b);
    } else {
      TermPow(v, b, i, j, n - 1);
      TermTimes(v, b, i * (n - 1), j * (n - 1), i, j);
      assert i * (n - 1) + i == i * n && j * (n - 1) + j == j * n;
    }
  }

  lemma TermZero(v: felt, b: felt)
    ensures Term(v, 0, b, 0) == 1
  {
    hide Mul;
    MulOne(1);
  }

  lemma TermOf(v: felt, b: felt, i: nat)
    ensures Term(v, i, b, 0) == Pow(v, i)
    ensures Term(v, 0, b, i) == Pow(b, i)
  {
    hide Mul;
    MulOne(Pow(v, i));
    MulOne(Pow(b, i));
    assert Pow(v, 0) == 1 && Pow(b, 0) == 1;
  }

  // -------------------------------------------------------- the prime field

  lemma {:induction false} PowIsRaised(x: felt, n: nat)
    ensures Pow(x, n) == Mod(Raised(x, n))
  {
    if n == 0 {
      ReducedMod(1);
    } else {
      PowIsRaised(x, n - 1);
      ReducedMod(x);
      hide Mod, Times, Pow, Raised;
      PowStep(x, n);
      ModMul(Raised(x, n - 1), x);
      TimesIs(Raised(x, n - 1), x);
      RaisedIs(x, n);
    }
  }

  lemma PowStep(x: felt, n: nat)
    requires n > 0
    ensures Pow(x, n) == Mul(Pow(x, n - 1), x)
  {
    hide Mul;
  }

  lemma RaisedIs(x: nat, n: nat)
    requires n > 0
    ensures Raised(x, n) == Raised(x, n - 1) * x
  {
  }

  lemma FermatsTheorem(x: felt, n: nat)
    requires IsPrime(P) && x != 0 && n == P - 1
    ensures Pow(x, n) == 1
  {
    hide Mod, Pow, Raised, IsPrime;
    SmallMod(x, P);
    LittleTheorem(P, x);
    PowIsRaised(x, n);
    ModIs(Raised(x, n));
  }

  /** A field has no divisors of zero. */
  lemma NoZeroDivisors(a: felt, b: felt)
    requires IsPrime(P) && Mul(a, b) == 0
    ensures a == 0 || b == 0
  {
    hide Mod, Times, IsPrime;
    TimesIs(a, b);
    ModIs(Times(a, b));
    ProductIs(a, b);
    SmallMod(a, P);
    SmallMod(b, P);
    Euclid(P, a, b);
  }

  lemma ProductIs(a: nat, b: nat)
    ensures Product(a, b) == a * b
  {
  }

  lemma SquareIsOne(s: felt)
    requires IsPrime(P) && Mul(s, s) == 1
    ensures s == 1 || s == P - 1
  {
    hide Mul, Mod, IsPrime;
    UnitSquares(s);
    SmallIsReduced(0);
  }

  lemma MinusOneTimes(a: felt)
    ensures Mul(P - 1, a) == Mod(-(a as int))
  {
    hide Mod, Times;
    TimesIs(P - 1, a);
    ModShift(-(a as int), a);
  }

  // ------------------------------------------------------------ the candidate

  lemma OddPowersAre(v: felt)
    ensures Mul(Mul(v, v), v) == Pow(v, 3)
    ensures Mul(Mul(Pow(v, 3), Pow(v, 3)), v) == Pow(v, 7)
  {
    hide Mul, Pow;
    PowTwo(v);
    PowAdds(v, 2, 1);
    PowAdds(v, 3, 3);
    PowAdds(v, 6, 1);
  }

  /** With u = v*b^2 the candidate is a power of b alone. */
  lemma CandidateIs(v: felt, b: felt, e: nat, power: felt -> felt)
    requires IsPrime(P) && v != 0 && 8 * e + 5 == P && (forall x: felt :: power(x) == Pow(x, e))
    ensures Candidate(Mul(v, Mul(b, b)), v, power) == Pow(b, 2 * e + 2)
  {
    hide Mul, Pow, Term, IsPrime;
    var u := Mul(v, Mul(b, b));
    PowTwo(v);
    PowTwo(b);
    TermIs(v, 1, b, 2);
    OddPowersAre(v);
    TermOf(v, b, 7);
    TermOf(v, b, 3);
    TermTimes(v, b, 1, 2, 7, 0);
    TermTimes(v, b, 1, 2, 3, 0);
    TermPow(v, b, 8, 2, e);
    TermTimes(v, b, 8 * e, 2 * e, 4, 2);
    TermIs(v, 8 * e + 4, b, 2 * e + 2);
    FermatsTheorem(v, 8 * e + 4);
    MulOne(Pow(b, 2 * e + 2));
  }

  lemma TermIs(v: felt, i: nat, b: felt, j: nat)
    ensures Term(v, i, b, j) == Mul(Pow(v, i), Pow(b, j))
  {
  }

  /** Its square is b^2, or minus it. */
  lemma CandidateSquare(b: felt, e: nat)
    requires IsPrime(P) && b != 0 && 8 * e + 5 == P
    ensures
      var c := Pow(b, 2 * e + 2);
      Mul(c, c) == Mul(b, b) || Mul(c, c) == Mul(P - 1, Mul(b, b))
  {
    hide Mul, Pow, IsPrime;
    var s := Pow(b, 4 * e + 2);
    PowAdds(b, 4 * e + 2, 4 * e + 2);
    FermatsTheorem(b, 8 * e + 4);
    SquareIsOne(s);
    PowAdds(b, 2 * e + 2, 2 * e + 2);
    PowAdds(b, 4 * e + 2, 2);
    PowTwo(b);
    MulOne(Mul(b, b));
  }

  lemma CheckOf(v: felt, b: felt, c: felt)
    requires Mul(c, c) == Mul(b, b) || Mul(c, c) == Mul(P - 1, Mul(b, b))
    ensures CheckedRoot(Mul(v, Mul(b, b)), v, c).Root?
  {
    hide Mul, Mod;
    var u := Mul(v, Mul(b, b));
    MulCommutes(v, Mul(b, b));
    MulAssociates(P - 1, Mul(b, b), v);
    MinusOneTimes(u);
  }

  /** The search finds a root whenever there is one. */
  lemma RootIsFound(v: felt, b: felt, e: nat, power: felt -> felt)
    requires IsPrime(P) && 8 * e + 5 == P && (forall x: felt :: power(x) == Pow(x, e))
    ensures FindRoot(Mul(v, Mul(b, b)), v, power).Root?
  {
    hide Mul, Pow, Candidate, CheckedRoot, IsPrime;
    var u := Mul(v, Mul(b, b));
    if v == 0 || b == 0 {
      ZeroTimes(Mul(b, b));
      ZeroTimes(0);
      TimesZero(v);
      ZeroCandidate(v, power);
      ZeroChecks(v);
    } else {
      CandidateIs(v, b, e, power);
      CandidateSquare(b, e);
      CheckOf(v, b, Pow(b, 2 * e + 2));
    }
  }

  lemma ZeroChecks(v: felt)
    ensures CheckedRoot(0, v, 0) == Root(0)
  {
    hide Mul, Mod;
    ZeroTimes(0);
    ZeroTimes(v);
  }

  // ---------------------------------------------------- from the curve to a root

  lemma CurveIsRatio(xx: int, yy: int)
    requires Mod(yy - xx) == Mod(1 + Times(D, Times(xx, yy)))
    ensures Mod(Times(xx, Times(D, yy) + 1)) == Mod(yy - 1)
  {
    hide Mod, Times;
    TimesIs(D, yy);
    TimesIs(xx, D * yy + 1);
    TimesIs(xx, yy);
    TimesIs(D, xx * yy);
    Reassociate(xx, yy, D);
    var right := 1 + Times(D, Times(xx, yy));
    ModSame(yy - xx, right);
    ModShift(Times(xx, Times(D, yy) + 1), (yy - xx) / P - right / P);
  }

  lemma CurveOfAffine(x: felt, y: felt)
    requires OnCurve(Point(x, y, 1, Mul(x, y)))
    ensures Mod(Times(y, y) - Times(x, x)) == Mod(1 + Times(D, Times(Times(x, x), Times(y, y))))
  {
    hide Mod, Times, OnCurve;
    var t := Mul(x, y);
    var n := Times(Times(x, x), Times(y, y));
    CurveEquation(Point(x, y, 1, t));
    TimesIs(1, 1);
    SquareOfProduct(x, y);
    ModScale(D, Times(t, t), n);
    ModAdd(1, Times(D, Times(t, t)));
    ModAdd(1, Times(D, n));
  }

  /** An affine point's x is a root of the ratio its y gives. */
  lemma PointIsRoot(x: felt, y: felt)
    requires OnCurve(Point(x, y, 1, Mul(x, y)))
    ensures Mul(RatioV(y), Mul(x, x)) == RatioU(y)
  {
    hide Mod, Times, OnCurve, RatioU, RatioV;
    var xx, yy := Times(x, x), Times(y, y);
    CurveOfAffine(x, y);
    CurveIsRatio(xx, yy);
    RatiosAre(y);
    ModMul(xx, Times(D, yy) + 1);
    MulCommutes(RatioV(y), Mul(x, x));
  }

  /** d*y^2 + 1 is not zero on the curve. */
  lemma DenominatorIsUnit(x: felt, y: felt)
    requires IsPrime(P) && OnCurve(Point(x, y, 1, Mul(x, y)))
    ensures RatioV(y) != 0
  {
    hide Mul, Mod, OnCurve, RatioU, IsPrime;
    PointIsRoot(x, y);
    if RatioV(y) == 0 {
      ZeroTimes(Mul(x, x));
      UnitSquares(y);
      UnitDenominator(y);
    }
  }

  lemma UnitDenominator(y: felt)
    requires y == 1 || y == P - 1
    ensures RatioV(y) == D + 1
  {
    hide Mul, Mod;
    OneTimesFelt(1);
    NegatedSquare(1);
    MulOne(D);
    SmallIsReduced(D + 1);
  }

  /** A square has at most two roots, which add up to the modulus. */
  lemma SameSquares(a: felt, b: felt)
    requires IsPrime(P) && Mul(a, a) == Mul(b, b)
    ensures a == b || a + b == P
  {
    hide Mod, Times, IsPrime;
    if a < b {
      LesserRoot(a, b);
    } else if b < a {
      LesserRoot(b, a);
    }
  }

  lemma LesserRoot(a: felt, b: felt)
    requires IsPrime(P) && Mul(a, a) == Mul(b, b) && a < b
    ensures a + b == P
  {
    hide Mod, Times, IsPrime;
    TimesIs(a, a);
    TimesIs(b, b);
    ModIs(a * a);
    ModIs(b * b);
    SquareGap(a, b);
    Difference(P, a * a, b * b, Product(b - a, a + b));
    Euclid(P, b - a, a + b);
    SmallMod(b - a, P);
    SumIsModulus(a + b);
  }

  lemma SquareGap(a: nat, b: nat)
    requires a < b
    ensures b * b == a * a + Product(b - a, a + b)
  {
  }

  lemma SumIsModulus(n: nat)
    requires 0 < n < 2 * P && n % P == 0
    ensures n == P
  {
  }

  lemma SignRecovers(x: felt, x0: felt)
    requires x0 == x || x0 + x == P
    ensures WithSign(x0, x % 2) == x && (x0 == 0 ==> x == 0)
  {
  }

  // ---------------------------------------------------------- the round trip

  /** The right root, whichever the search returned. */
  lemma RecoversX(x: felt, y: felt, e: nat, power: felt -> felt)
    requires IsPrime(P) && 8 * e + 5 == P && (forall z: felt :: power(z) == Pow(z, e))
    requires OnCurve(Point(x, y, 1, Mul(x, y)))
    ensures
      var r := FindRoot(RatioU(y), RatioV(y), power);
      r.Root? && WithSign(r.x, x % 2) == x && (r.x == 0 ==> x == 0)
  {
    hide Mul, Pow, FindRoot, OnCurve, RatioU, RatioV, IsPrime, WithSign;
    var u, v := RatioU(y), RatioV(y);
    PointIsRoot(x, y);
    DenominatorIsUnit(x, y);
    RootIsFound(v, x, e, power);
    FoundRoot(u, v, power);
    var x0 := FindRoot(u, v, power).x;
    MulCommutes(v, Mul(x0, x0));
    CancelUnit(v, Mul(x0, x0), Mul(x, x));
    SameSquares(x0, x);
    SignRecovers(x, x0);
  }

  lemma CancelUnit(v: felt, a: felt, b: felt)
    requires IsPrime(P) && v != 0 && Mul(v, a) == Mul(v, b)
    ensures a == b
  {
    hide Mod, Times, IsPrime;
    TimesIs(v, a);
    TimesIs(v, b);
    ModIs(v * a);
    ModIs(v * b);
    ProductIs(v, a);
    ProductIs(v, b);
    SmallMod(v, P);
    SmallMod(a, P);
    SmallMod(b, P);
    Cancel(P, v, a, b);
  }

  lemma EncodedParts(x: felt, y: felt)
    ensures YValue(EncodePoint(x, y)) == y && SignBit(EncodePoint(x, y)) == x % 2
  {
    hide EncodeLittle, LittleEndian;
    PowerIs();
    var e := EncodeLittle(y, 32);
    TopByte(y);
    LittleRoundTrip(y, 32);
    SplitByte(EncodePoint(x, y)[31], e[31], x % 2);
    assert e == e[..31] + [e[31]];
    assert YBytes(EncodePoint(x, y)) == e;
  }

  /** Every affine point of the curve decodes from its own encoding, exactly and
      canonically. */
  lemma RoundTrip(x: felt, y: felt, e: nat, power: felt -> felt)
    requires IsPrime(P) && 8 * e + 5 == P && (forall z: felt :: power(z) == Pow(z, e))
    requires OnCurve(Point(x, y, 1, Mul(x, y)))
    ensures Decode(EncodePoint(x, y), power) == Decoded(Point(x, y, 1, Mul(x, y)), true)
  {
    hide Mul, Mod, Pow, FindRoot, OnCurve, RatioU, RatioV, IsPrime, WithSign, EncodePoint, YValue, SignBit;
    EncodedParts(x, y);
    SmallIsReduced(y);
    RecoversX(x, y, e, power);
  }

  /** Some point of the curve has this y. */
  ghost predicate HasPoint(y: felt) {
    exists x: felt :: OnCurve(Point(x, y, 1, Mul(x, y)))
  }

  /** Thirty-two bytes decode if and only if some point of the curve has their y. */
  lemma DecodesIffOnCurve(b: seq<byte>, e: nat, power: felt -> felt)
    requires IsPrime(P) && 8 * e + 5 == P && (forall z: felt :: power(z) == Pow(z, e)) && |b| == 32
    ensures Decode(b, power).Decoded? <==> HasPoint(Mod(YValue(b)))
  {
    hide Mul, Mod, Pow, FindRoot, OnCurve, RatioU, RatioV, IsPrime, WithSign, YValue, SignBit;
    var y := Mod(YValue(b));
    if Decode(b, power).Decoded? {
      DecodedIsOnCurve(b, power);
      var x := Decode(b, power).point.x;
      assert OnCurve(Point(x, y, 1, Mul(x, y)));
    }
    if HasPoint(y) {
      var x: felt :| OnCurve(Point(x, y, 1, Mul(x, y)));
      RecoversX(x, y, e, power);
    }
  }

  /** What a decoded point has to do with its bytes: the top bit of the last byte is
      the parity of x, unless x is zero, and the rest, little-endian, is y. */
  lemma DecodedSpells(b: seq<byte>, power: felt -> felt)
    requires Decode(b, power).Decoded?
    ensures
      var q, top := Decode(b, power).point, b[31] / 128;
      && LittleEndian(b) >= TWO255 * top && q.y == Mod(LittleEndian(b) - TWO255 * top)
      && (q.x != 0 ==> q.x % 2 == top)
  {
    hide Mul, Mod, FindRoot, RatioU, RatioV, LittleEndian;
    TopBit(b);
    var y := Mod(YValue(b));
    SignedParity(FindRoot(RatioU(y), RatioV(y), power).x, SignBit(b));
  }

  lemma TopBit(b: seq<byte>)
    requires |b| == 32
    ensures LittleEndian(b) == YValue(b) + TWO255 * (b[31] / 128)
  {
    hide LittleEndian, Power;
    assert b == b[..31] + [b[31]];
    LittleConcat(b[..31], b[31]);
    LittleConcat(b[..31], b[31] % 128);
    TopWeight();
    SplitTop(b[31]);
  }

  lemma TopWeight()
    ensures 128 * Power(31) == TWO255
  {
    PowerIs();
    assert Power(32) == 256 * Power(31);
  }

  lemma SplitTop(c: byte)
    ensures Product(c, Power(31)) == Product(c % 128, Power(31)) + c / 128 * (128 * Power(31))
  {
    hide Power;
    assert c == c % 128 + 128 * (c / 128);
  }
}
