/** What the addition law and the doubling formula of core/crypto/edwards.go compute:
    the Edwards sum of two points, in affine coordinates cleared of denominators;
    with it, that the identity is neutral and every point has a negative. */
module Affine {
  import opened Primes
  import opened Fields
  import opened Curve
  import opened Doubling
  import opened Closure
  import opened Encodings
  import opened Roots
  import opened Completeness

  /** x3 * (1 + d*x1*x2*y1*y2) = x1*y2 + x2*y1 and y3 * (1 - d*x1*x2*y1*y2) =
      y1*y2 + x1*x2 for x = X/Z and y = Y/Z, the Z's multiplied out. */
  ghost predicate IsSum(p: Point, q: Point, r: Point) {
    var zz := Mul(p.z, q.z);
    var dxy := Mul(D, Mul(Mul(p.x, p.y), Mul(q.x, q.y)));
    && Mul(r.x, Add(Mul(zz, zz), dxy)) == Mul(r.z, Mul(zz, Add(Mul(p.x, q.y), Mul(p.y, q.x))))
    && Mul(r.y, Sub(Mul(zz, zz), dxy)) == Mul(r.z, Mul(zz, Add(Mul(p.y, q.y), Mul(p.x, q.x))))
  }

  // ------------------------------------------------- residues of polynomials

  /** A product of residues, with the integers in plain sight. */
  lemma MulMod(a: int, b: int, n: int)
    requires n == a * b
    ensures Mul(Mod(a), Mod(b)) == Mod(n)
  {
    hide Mod, Times;
    MulIs(a, b);
    TimesIs(a, b);
  }

  lemma AddMod(a: int, b: int)
    ensures Add(Mod(a), Mod(b)) == Mod(a + b) && Sub(Mod(a), Mod(b)) == Mod(a - b)
  {
    hide Mod;
    ModAdd(a, b);
    ModSub(a, b);
  }

  lemma MulFelts(a: felt, b: felt, n: int)
    requires n == a * b
    ensures Mul(a, b) == Mod(n)
  {
    hide Mod, Times;
    TimesIs(a, b);
  }

  /** The denominator's product, through the fourth coordinates. */
  lemma TwistProduct(p: Point, q: Point, a: int, b: int)
    requires OnCurve(p) && OnCurve(q) && a == p.z * q.z && b == D * (p.t * q.t)
    ensures Mul(D, Mul(Mul(p.x, p.y), Mul(q.x, q.y))) == Mod(a * b)
  {
    ReducedMod(D);
    hide Mod, Times, Mul;
    var w1, w2: int := p.z * p.t, q.z * q.t;
    CurveFourth(p);
    CurveFourth(q);
    MulFelts(p.z, p.t, w1);
    MulFelts(q.z, q.t, w2);
    MulMod(w1, w2, w1 * w2);
    MulMod(D, w1 * w2, D * (w1 * w2));
    Halves(D, p.z, p.t, q.z, q.t);
  }

  lemma CurveFourth(p: Point)
    requires OnCurve(p)
    ensures Mul(p.x, p.y) == Mul(p.z, p.t)
  {
    hide Mul, Mod;
  }

  /** The six products of the equations. */
  lemma SumTerms(p: Point, q: Point, a: int, b: int, e: int, h: int)
    requires OnCurve(p) && OnCurve(q) && a == p.z * q.z && b == D * (p.t * q.t)
    requires e == p.x * q.y + p.y * q.x && h == p.y * q.y + p.x * q.x
    ensures
      var zz := Mul(p.z, q.z);
      var dxy := Mul(D, Mul(Mul(p.x, p.y), Mul(q.x, q.y)));
      && Add(Mul(zz, zz), dxy) == Mod(a * a + a * b)
      && Sub(Mul(zz, zz), dxy) == Mod(a * a - a * b)
      && Mul(zz, Add(Mul(p.x, q.y), Mul(p.y, q.x))) == Mod(a * e)
      && Mul(zz, Add(Mul(p.y, q.y), Mul(p.x, q.x))) == Mod(a * h)
  {
    hide Mod, Times, Mul, OnCurve, Add, Sub;
    TwistProduct(p, q, a, b);
    MulFelts(p.z, q.z, a);
    MulMod(a, a, a * a);
    AddMod(a * a, a * b);
    CrossSum(p.x, q.y, p.y, q.x);
    CrossSum(p.y, q.y, p.x, q.x);
    MulMod(a, e, a * e);
    MulMod(a, h, a * h);
  }

  lemma CrossSum(a: felt, b: felt, c: felt, d: felt)
    ensures Add(Mul(a, b), Mul(c, d)) == Mod(a * b + c * d)
  {
    hide Mod, Times, Mul, Add;
    MulFelts(a, b, a * b);
    MulFelts(c, d, c * d);
    AddMod(a * b, c * d);
  }

  /** Four factors scaled by k give the sum, whatever k is. */
  lemma FactorsSum(p: Point, q: Point, r: Point, k: int)
    requires OnCurve(p) && OnCurve(q)
    requires
      var a, b: int := p.z * q.z, D * (p.t * q.t);
      var e, h: int := p.x * q.y + p.y * q.x, p.y * q.y + p.x * q.x;
      && r.x == Mod(k * (e * (a - b))) && r.y == Mod(k * ((a + b) * h)) && r.z == Mod(k * ((a - b) * (a + b)))
    ensures IsSum(p, q, r)
  {
    hide Mod, Times, Mul, OnCurve, Add, Sub;
    var a, b: int := p.z * q.z, D * (p.t * q.t);
    var e, h: int := p.x * q.y + p.y * q.x, p.y * q.y + p.x * q.x;
    SumTerms(p, q, a, b, e, h);
    Crossed(k, e, a, b);
    Crossed'(k, h, a, b);
    var fg := k * ((a - b) * (a + b));
    MulMod(k * (e * (a - b)), a * a + a * b, fg * (a * e));
    MulMod(fg, a * e, fg * (a * e));
    MulMod(k * ((a + b) * h), a * a - a * b, fg * (a * h));
    MulMod(fg, a * h, fg * (a * h));
  }

  lemma Crossed(k: int, e: int, a: int, b: int)
    ensures k * ((a - b) * (a + b)) * (a * e) == k * (e * (a - b)) * (a * a + a * b)
  {
    var f, g := a - b, a + b;
    assert a * a + a * b == a * g;
    assert f * g * (a * e) == e * f * (a * g) by { Swap4(f, g, e, a); }
    assert k * (f * g) * (a * e) == k * (f * g * (a * e));
    assert k * (e * f) * (a * g) == k * (e * f * (a * g));
  }

  lemma Crossed'(k: int, h: int, a: int, b: int)
    ensures k * ((a - b) * (a + b)) * (a * h) == k * ((a + b) * h) * (a * a - a * b)
  {
    var f, g := a - b, a + b;
    assert a * a - a * b == a * f;
    assert f * g * (a * h) == g * h * (a * f) by { Swap4(f, g, a, h); Swap4(g, h, f, a); }
    assert k * (f * g) * (a * h) == k * (f * g * (a * h));
    assert k * (g * h) * (a * f) == k * (g * h * (a * f));
  }

  // ------------------------------------------------------------- the two formulas

  /** The addition law adds. */
  lemma AddIsSum(p: Point, q: Point)
    requires OnCurve(p) && OnCurve(q)
    ensures IsSum(p, q, AddLaw(p, q))
  {
    hide Mod, Times, Mul, OnCurve, AddLaw, IsSum;
    var a, b: int := p.z * q.z, D * (p.t * q.t);
    var e, h: int := p.x * q.y + p.y * q.x, p.y * q.y + p.x * q.x;
    LawFactors(p, q);
    LawProducts(p, q);
    MulMod(2 * e, 2 * (a - b), 4 * (e * (a - b)));
    MulMod(2 * (a + b), 2 * h, 4 * ((a + b) * h));
    MulMod(2 * (a - b), 2 * (a + b), 4 * ((a - b) * (a + b)));
    FactorsSum(p, q, AddLaw(p, q), 4);
  }

  /** The doubling formula doubles. */
  lemma DoubleIsSum(p: Point)
    requires OnCurve(p)
    ensures IsSum(p, p, DoubleLaw(p))
  {
    hide Mod, Times, Mul, OnCurve, DoubleLaw, IsSum;
    var a, b: int := p.z * p.z, D * (p.t * p.t);
    var e, h: int := p.x * p.y + p.y * p.x, p.y * p.y + p.x * p.x;
    DoublingFactors(p);
    LawProducts(p, p);
    assert e == 2 * Times(p.x, p.y);
    MulMod(e, -(a - b), -1 * (e * (a - b)));
    MulMod(a + b, -h, -1 * ((a + b) * h));
    MulMod(-(a - b), a + b, -1 * ((a - b) * (a + b)));
    FactorsSum(p, p, DoubleLaw(p), -1);
  }

  // ------------------------------------------------------ affine coordinates

  ghost predicate HasAffine(p: Point, x: felt, y: felt) {
    Mul(x, p.z) == p.x && Mul(y, p.z) == p.y
  }

  /** Every finite point has them. */
  lemma AffineExists(p: Point, n: nat) returns (x: felt, y: felt)
    requires IsPrime(P) && Finite(p) && n == P - 2
    ensures HasAffine(p, x, y)
  {
    hide Mul, Pow, IsPrime, OnCurve;
    var i := Pow(p.z, n);
    x, y := Mul(p.x, i), Mul(p.y, i);
    PowStep(p.z, n + 1);
    FermatsTheorem(p.z, n + 1);
    MulAssociates(p.x, i, p.z);
    MulAssociates(p.y, i, p.z);
    MulOne(p.x);
    MulOne(p.y);
  }

  lemma Quarters(a: felt, b: felt, c: felt, d: felt, z: felt, w: felt)
    ensures Mul(Mul(Mul(a, z), Mul(b, z)), Mul(Mul(c, w), Mul(d, w)))
            == Mul(Mul(Mul(z, w), Mul(z, w)), Mul(Mul(a, b), Mul(c, d)))
  {
    hide Mul;
    MulSwap(a, z, b, z);
    MulSwap(c, w, d, w);
    MulSwap(Mul(a, b), Mul(z, z), Mul(c, d), Mul(w, w));
    MulSwap(z, z, w, w);
    MulCommutes(Mul(Mul(a, b), Mul(c, d)), Mul(Mul(z, w), Mul(z, w)));
  }

  lemma MulDistributes(a: felt, b: felt, c: felt)
    ensures Mul(a, Add(b, c)) == Add(Mul(a, b), Mul(a, c))
    ensures Mul(a, Sub(b, c)) == Sub(Mul(a, b), Mul(a, c))
  {
    ReducedMod(a);
    hide Mod, Times, Mul, Add, Sub;
    Distributed(a, b, c);
  }

  lemma Distributed(a: felt, b: felt, c: felt)
    requires Mod(a) == a
    ensures Mul(a, Add(b, c)) == Add(Mul(a, b), Mul(a, c))
    ensures Mul(a, Sub(b, c)) == Sub(Mul(a, b), Mul(a, c))
  {
    hide Mod, Times, Mul;
    assert a * (b + c) == a * b + a * c && a * (b - c) == a * b - a * c;
    MulMod(a, b + c, a * b + a * c);
    MulMod(a, b - c, a * b - a * c);
    MulFelts(a, b, a * b);
    MulFelts(a, c, a * c);
    AddMod(a * b, a * c);
  }

  /** The common factor of both sides of the equations. */
  lemma Common(x: felt, z: felt, zz: felt, m: felt)
    ensures Mul(Mul(x, z), Mul(Mul(zz, zz), m)) == Mul(Mul(z, Mul(zz, zz)), Mul(x, m))
  {
    hide Mul;
    MulCommutes(x, z);
    MulSwap(z, x, Mul(zz, zz), m);
  }

  /** The denominator's product, in affine coordinates. */
  lemma AffineTwist(p: Point, q: Point, x1: felt, y1: felt, x2: felt, y2: felt)
    requires HasAffine(p, x1, y1) && HasAffine(q, x2, y2)
    ensures
      var zz := Mul(Mul(p.z, q.z), Mul(p.z, q.z));
      Mul(D, Mul(Mul(p.x, p.y), Mul(q.x, q.y))) == Mul(zz, Mul(D, Mul(Mul(x1, y1), Mul(x2, y2))))
  {
    hide Mul;
    var zz := Mul(Mul(p.z, q.z), Mul(p.z, q.z));
    var m := Mul(Mul(x1, y1), Mul(x2, y2));
    Quarters(x1, y1, x2, y2, p.z, q.z);
    MulAssociates(D, zz, m);
    MulCommutes(D, zz);
    MulAssociates(zz, D, m);
  }

  /** A cross term of the numerators, in affine coordinates. */
  lemma AffineCross(a: felt, b: felt, z: felt, w: felt)
    ensures Mul(Mul(a, z), Mul(b, w)) == Mul(Mul(z, w), Mul(a, b))
  {
    hide Mul;
    MulSwap(a, z, b, w);
    MulCommutes(Mul(a, b), Mul(z, w));
  }

  lemma AffineNumerator(a: felt, b: felt, c: felt, d: felt, z: felt, w: felt)
    ensures
      var zw := Mul(z, w);
      Mul(zw, Add(Mul(Mul(a, z), Mul(b, w)), Mul(Mul(c, z), Mul(d, w))))
      == Mul(Mul(zw, zw), Add(Mul(a, b), Mul(c, d)))
  {
    hide Mul, Add;
    var zw := Mul(z, w);
    AffineCross(a, b, z, w);
    AffineCross(c, d, z, w);
    MulDistributes(zw, Mul(a, b), Mul(c, d));
    MulAssociates(zw, zw, Add(Mul(a, b), Mul(c, d)));
  }

  lemma AffineDenominator(zz: felt, m: felt)
    ensures Add(zz, Mul(zz, m)) == Mul(zz, Add(1, m)) && Sub(zz, Mul(zz, m)) == Mul(zz, Sub(1, m))
  {
    hide Mul, Add, Sub;
    MulDistributes(zz, 1, m);
    MulOne(zz);
  }

  /** The Edwards addition formulas themselves, for any finite sum. */
  lemma AffineSum(p: Point, q: Point, r: Point, x1: felt, y1: felt, x2: felt, y2: felt, x3: felt, y3: felt)
    requires IsPrime(P) && p.z != 0 && q.z != 0 && r.z != 0 && IsSum(p, q, r)
    requires HasAffine(p, x1, y1) && HasAffine(q, x2, y2) && HasAffine(r, x3, y3)
    ensures
      var m := Mul(D, Mul(Mul(x1, y1), Mul(x2, y2)));
      && Mul(x3, Add(1, m)) == Add(Mul(x1, y2), Mul(y1, x2))
      && Mul(y3, Sub(1, m)) == Add(Mul(y1, y2), Mul(x1, x2))
  {
    hide Mul, Add, Sub, IsPrime;
    var zw := Mul(p.z, q.z);
    var zz := Mul(zw, zw);
    var m := Mul(D, Mul(Mul(x1, y1), Mul(x2, y2)));
    var k := Mul(r.z, zz);
    AffineTwist(p, q, x1, y1, x2, y2);
    AffineDenominator(zz, m);
    AffineNumerator(x1, y2, y1, x2, p.z, q.z);
    AffineNumerator(y1, y2, x1, x2, p.z, q.z);
    Common(x3, r.z, zw, Add(1, m));
    Common(y3, r.z, zw, Sub(1, m));
    MulAssociates(r.z, zz, Add(Mul(x1, y2), Mul(y1, x2)));
    MulAssociates(r.z, zz, Add(Mul(y1, y2), Mul(x1, x2)));
    UnitProduct(p.z, q.z);
    UnitProduct(zw, zw);
    UnitProduct(r.z, zz);
    CancelUnit(k, Mul(x3, Add(1, m)), Add(Mul(x1, y2), Mul(y1, x2)));
    CancelUnit(k, Mul(y3, Sub(1, m)), Add(Mul(y1, y2), Mul(x1, x2)));
  }

  /** In affine coordinates the law is the Edwards law, on every pair of finite
      points, the modulus being prime. */
  lemma AddIsEdwards(p: Point, q: Point, x1: felt, y1: felt, x2: felt, y2: felt, x3: felt, y3: felt)
    requires IsPrime(P) && Finite(p) && Finite(q)
    requires HasAffine(p, x1, y1) && HasAffine(q, x2, y2) && HasAffine(AddLaw(p, q), x3, y3)
    ensures
      var m := Mul(D, Mul(Mul(x1, y1), Mul(x2, y2)));
      && Mul(x3, Add(1, m)) == Add(Mul(x1, y2), Mul(y1, x2))
      && Mul(y3, Sub(1, m)) == Add(Mul(y1, y2), Mul(x1, x2))
  {
    SumIsFinite(p, q);
    hide Mul, Add, Sub, IsPrime, OnCurve, AddLaw, IsSum, HasAffine;
    AddIsSum(p, q);
    AffineSum(p, q, AddLaw(p, q), x1, y1, x2, y2, x3, y3);
  }

  lemma DoubleIsEdwards(p: Point, x: felt, y: felt, x2: felt, y2: felt)
    requires IsPrime(P) && Finite(p) && HasAffine(p, x, y) && HasAffine(DoubleLaw(p), x2, y2)
    ensures
      var m := Mul(D, Mul(Mul(x, y), Mul(x, y)));
      && Mul(x2, Add(1, m)) == Add(Mul(x, y), Mul(y, x))
      && Mul(y2, Sub(1, m)) == Add(Mul(y, y), Mul(x, x))
  {
    DoubleIsFinite(p);
    hide Mul, Add, Sub, IsPrime, OnCurve, DoubleLaw, IsSum, HasAffine;
    DoubleIsSum(p);
    AffineSum(p, p, DoubleLaw(p), x, y, x, y, x2, y2);
  }

  // -------------------------------------------------- the identity, negatives

  lemma AddCommutes(p: Point, q: Point)
    ensures AddLaw(p, q) == AddLaw(q, p)
  {
    hide Mul, Add, Sub, Assemble;
    MulCommutes(Sub(p.y, p.x), Sub(q.y, q.x));
    MulCommutes(Add(p.y, p.x), Add(q.y, q.x));
    MulCommutes(p.t, q.t);
    MulCommutes(p.z, q.z);
  }

  /** Adding the identity scales the coordinates, and so names the same point. */
  lemma IdentityIsNeutral(p: Point)
    requires OnCurve(p)
    ensures AddLaw(p, IDENTITY) == Scaled(4 * p.z, p) == AddLaw(IDENTITY, p)
  {
    CurveFourth(p);
    AddCommutes(p, IDENTITY);
    hide Mod, Times, Mul, OnCurve, AddLaw, Assemble;
    NeutralFactors(p, IDENTITY);
    ScaledAssembly(p);
  }

  lemma ScaledAssembly(p: Point)
    requires Mul(p.x, p.y) == Mul(p.z, p.t)
    ensures Assemble(Mod(2 * p.x), Mod(2 * p.z), Mod(2 * p.z), Mod(2 * p.y)) == Scaled(4 * p.z, p)
  {
    hide Mod, Times, Mul;
    ScaledCoordinate(p.x, p.z);
    ScaledCoordinate(p.z, p.y);
    ScaledCoordinate(p.z, p.z);
    ScaledFourth(p);
  }

  lemma NeutralFactors(p: Point, q: Point)
    requires q.x == 0 && q.y == 1 && q.z == 1 && q.t == 0
    ensures AddLaw(p, q) == Assemble(Mod(2 * p.x), Mod(2 * p.z), Mod(2 * p.z), Mod(2 * p.y))
  {
    hide Mod, Times, Mul, AddLaw, Assemble;
    LawFactors(p, q);
    TimesIs(p.x, 1);
    TimesIs(p.y, 0);
    TimesIs(p.y, 1);
    TimesIs(p.x, 0);
    TimesIs(p.z, 1);
    TimesIs(p.t, 0);
    TimesIs(D, 0);
  }

  /** Two doubled factors, one of them z. */
  lemma ScaledCoordinate(a: int, b: int)
    ensures Mul(Mod(2 * a), Mod(2 * b)) == Mod(Times(4 * a, b))
    ensures Mul(Mod(2 * a), Mod(2 * b)) == Mod(Times(4 * b, a))
  {
    hide Mod, Times, Mul;
    TimesIs(4 * a, b);
    TimesIs(4 * b, a);
    FourTimes(a, b);
    MulMod(2 * a, 2 * b, 4 * (a * b));
  }

  lemma FourTimes(a: int, b: int)
    ensures 2 * a * (2 * b) == 4 * (a * b) == 4 * a * b == 4 * b * a
  {
  }

  lemma ScaledFourth(p: Point)
    requires Mul(p.x, p.y) == Mul(p.z, p.t)
    ensures Mul(Mod(2 * p.x), Mod(2 * p.y)) == Mod(Times(4 * p.z, p.t))
  {
    hide Mod, Times;
    var x: int, y: int, z: int, t: int := p.x, p.y, p.z, p.t;
    ScaledCoordinate(x, y);
    TimesIs(4 * x, y);
    TimesIs(4 * z, t);
    FourTimes(x, y);
    FourTimes(z, t);
    TimesIs(x, y);
    TimesIs(z, t);
    ModScale(4, x * y, z * t);
    TimesIs(4, x * y);
    TimesIs(4, z * t);
  }

  /** The test of the source: x is zero and y is z. */
  predicate IsIdentity(p: Point) {
    p.x == 0 && p.y == p.z
  }

  function Negative(p: Point): Point {
    Point(Mod(-(p.x as int)), p.y, p.z, Mod(-(p.t as int)))
  }

  /** The residue of -a, as an integer. */
  lemma NegativeResidue(a: felt) returns (c: int)
    ensures Mod(-(a as int)) == -(a as int) + P * c
  {
    hide Mod;
    c := ModQuotient(-(a as int));
    c := -c;
  }

  lemma NegativeFactors(p: Point)
    requires OnCurve(p)
    ensures
      var q := Negative(p);
      var e, h := Times(p.x, q.y) + Times(p.y, q.x), Times(p.y, q.y) + Times(p.x, q.x);
      var f := Times(p.z, q.z) - Times(D, Times(p.t, q.t));
      Mod(2 * e) == 0 && Mod(2 * h) == Mod(2 * f)
  {
    var q := Negative(p);
    var a, b := NearCurve(p);
    hide Mod, Times, OnCurve;
    var c := NegativeResidue(p.x);
    var d := NegativeResidue(p.t);
    LawProducts(p, q);
    var x, y, z, t: int := p.x, p.y, p.z, p.t;
    NegativeIntegers(P, D, x, y, z, t, a, c, d, q.x, q.t);
    ReducedZero();
    ModShift(0, 2 * (y * c));
    ModShift(2 * (z * z - D * (t * q.t)), 2 * (a + x * c + D * (t * d)));
  }

  lemma NegativeIntegers(m: int, k: int, x: int, y: int, z: int, t: int, a: int, c: int, d: int, nx: int, nt: int)
    requires nx == -x + m * c && nt == -t + m * d && y * y - x * x == z * z + k * (t * t) + m * a
    ensures 2 * (x * y + y * nx) == 0 + m * (2 * (y * c))
    ensures 2 * (y * y + x * nx) == 2 * (z * z - k * (t * nt)) + m * (2 * (a + x * c + k * (t * d)))
  {
    Negated(y, x, m, c);
    Negated(x, x, m, c);
    Negated(t, t, m, d);
    ScaleDrift(m, k, t * nt, -(t * t), t * d);
    Collected(m, a, x * c, k * (t * d));
    Collected(m, 0, y * c, 0);
  }

  lemma Collected(m: int, a: int, b: int, c: int)
    ensures m * (2 * (a + b + c)) == 2 * (m * a) + 2 * (m * b) + 2 * (m * c)
  {
  }

  lemma Negated(y: int, x: int, m: int, c: int)
    ensures y * (-x + m * c) == -(x * y) + m * (y * c)
  {
    assert y * (m * c) == m * (y * c);
  }

  /** A point and its negative add up to the identity. */
  lemma NegativeCancels(p: Point)
    requires OnCurve(p)
    ensures IsIdentity(AddLaw(p, Negative(p))) && AddLaw(p, Negative(p)).t == 0
  {
    hide Mod, Times, Mul, OnCurve, AddLaw, Negative;
    var q := Negative(p);
    LawFactors(p, q);
    NegativeFactors(p);
    var f := Mod(2 * (Times(p.z, q.z) - Times(D, Times(p.t, q.t))));
    var g := Mod(2 * (Times(p.z, q.z) + Times(D, Times(p.t, q.t))));
    ZeroTimes(f);
    MulCommutes(g, f);
  }
}
