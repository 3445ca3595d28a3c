/** The dedicated doubling formula of core/crypto/edwards.go is the addition law:
    on every point of the curve, adding a point to itself gives -4 times the
    coordinates the doubling gives, hence the same point. */
module Doubling {
  import opened Fields
  import opened Curve

  /** The curve equation in extended coordinates, and the fourth coordinate. */
  ghost predicate OnCurve(p: Point) {
    && Mul(p.x, p.y) == Mul(p.z, p.t)
    && Sub(Mul(p.y, p.y), Mul(p.x, p.x)) == Add(Mul(p.z, p.z), Mul(D, Mul(p.t, p.t)))
  }

  /** The same projective point: every coordinate times one unit. */
  function Scaled(k: int, p: Point): Point {
    Point(Mod(Times(k, p.x)), Mod(Times(k, p.y)), Mod(Times(k, p.z)), Mod(Times(k, p.t)))
  }

  // ------------------------------------------------- residues of polynomials

  lemma ReducedMod(a: felt)
    ensures Mod(a) == a
  {
    SmallIsReduced(a);
  }

  lemma ModIdempotent(a: int)
    ensures Mod(Mod(a)) == Mod(a)
  {
    SmallIsReduced(Mod(a));
  }

  lemma ModNeg(a: int)
    ensures Mod(-(Mod(a) as int)) == Mod(-a)
  {
    hide Mod;
    ModIs(a);
    ModShift(-(Mod(a) as int), -(a / P));
  }

  lemma ModScale(k: int, a: int, b: int)
    requires Mod(a) == Mod(b)
    ensures Mod(Times(k, a)) == Mod(Times(k, b))
  {
    hide Mod, Times;
    ModSame(a, b);
    TimesIs(k, a);
    TimesIs(k, b);
    var m := a / P - b / P;
    Distribute(k, b, P, m);
    ModShift(k * b, k * m);
  }

  lemma Distribute(k: int, b: int, p: int, m: int)
    ensures k * (b + p * m) == k * b + p * (k * m)
  {
    assert k * (p * m) == p * (k * m);
  }

  lemma SquareOfSum(x: int, y: int)
    ensures Times(x + y, x + y) == Times(x, x) + 2 * Times(x, y) + Times(y, y)
  {
    hide Times;
    TimesIs(x + y, x + y);
    TimesIs(x, x);
    TimesIs(x, y);
    TimesIs(y, y);
    assert (x + y) * (x + y) == x * x + 2 * (x * y) + y * y;
  }

  lemma SquareOfDifference(x: int, y: int)
    ensures Times(y - x, y - x) == Times(x, x) - 2 * Times(x, y) + Times(y, y)
  {
    hide Times;
    TimesIs(y - x, y - x);
    TimesIs(x, x);
    TimesIs(x, y);
    TimesIs(y, y);
    assert (y - x) * (y - x) == x * x - 2 * (x * y) + y * y;
  }

  // ------------------------------------------- both formulas as polynomials

  lemma TwistIs(t: felt)
    ensures Mul(Mul(t, t), D2) == Mod(2 * Times(D, Times(t, t)))
  {
    hide Mod, Times;
    ConstantsAreRight();
    ModIs(2 * D);
    var tt := Times(t, t);
    ModMul(tt, 2 * D);
    TimesIs(tt, 2 * D);
    TimesIs(D, tt);
  }

  lemma AddTermsAre(p: Point)
    ensures AddA(p, p) == Mod(Times(p.y - p.x, p.y - p.x))
    ensures AddB(p, p) == Mod(Times(p.x + p.y, p.x + p.y))
    ensures AddC(p, p) == Mod(2 * Times(D, Times(p.t, p.t)))
    ensures AddD(p, p) == Mod(2 * Times(p.z, p.z))
  {
    hide Mod, Times;
    ModMul(p.y - p.x, p.y - p.x);
    ModMul(p.x + p.y, p.x + p.y);
    TwistIs(p.t);
    ModAdd(Times(p.z, p.z), Times(p.z, p.z));
  }

  lemma CrossIs(p: Point)
    ensures DoubleE(p) == Mod(2 * Times(p.x, p.y))
  {
    hide Mod, Times;
    var x, y: int := p.x, p.y;
    ModMul(x + y, x + y);
    ModSub(Times(x + y, x + y), Times(x, x));
    ModSub(Times(x + y, x + y) - Times(x, x), Times(y, y));
    SquareOfSum(x, y);
  }

  /** The curve equation, over the integers modulo p. */
  lemma CurveEquation(p: Point)
    requires OnCurve(p)
    ensures Mod(Times(p.y, p.y) - Times(p.x, p.x)) == Mod(Times(p.z, p.z) + Times(D, Times(p.t, p.t)))
  {
    ReducedMod(D);
    hide Mod, Times;
    ModSub(Times(p.y, p.y), Times(p.x, p.x));
    ModMul(D, Times(p.t, p.t));
    ModAdd(Times(p.z, p.z), Times(D, Times(p.t, p.t)));
  }

  /** E and H of the addition law, without the curve. */
  lemma AddOuter(p: Point)
    ensures Sub(AddB(p, p), AddA(p, p)) == Mod(4 * Times(p.x, p.y))
    ensures Add(AddB(p, p), AddA(p, p)) == Mod(2 * Times(p.x, p.x) + 2 * Times(p.y, p.y))
  {
    hide Mod, Times, AddA, AddB;
    var x, y: int := p.x, p.y;
    AddTermsAre(p);
    ModSub(Times(x + y, x + y), Times(y - x, y - x));
    ModAdd(Times(x + y, x + y), Times(y - x, y - x));
    SquareOfSum(x, y);
    SquareOfDifference(x, y);
  }

  /** F and G of the addition law, where the curve equation comes in. */
  lemma AddInner(p: Point)
    requires OnCurve(p)
    ensures Add(AddD(p, p), AddC(p, p)) == Mod(2 * (Times(p.y, p.y) - Times(p.x, p.x)))
    ensures Sub(AddD(p, p), AddC(p, p)) == Mod(-2 * (Times(p.y, p.y) - Times(p.x, p.x) - 2 * Times(p.z, p.z)))
  {
    hide Mod, Times, AddC, AddD, OnCurve;
    var zz, tt, g := Times(p.z, p.z), Times(D, Times(p.t, p.t)), Times(p.y, p.y) - Times(p.x, p.x);
    AddTermsAre(p);
    CurveEquation(p);
    InnerLinear(zz, tt, g);
  }

  lemma InnerLinear(zz: int, tt: int, g: int)
    requires Mod(g) == Mod(zz + tt)
    ensures Add(Mod(2 * zz), Mod(2 * tt)) == Mod(2 * g)
    ensures Sub(Mod(2 * zz), Mod(2 * tt)) == Mod(-2 * (g - 2 * zz))
  {
    hide Mod;
    ModAdd(2 * zz, 2 * tt);
    ModSub(2 * zz, 2 * tt);
    ModSame(g, zz + tt);
    var m := g / P - (zz + tt) / P;
    ModShift(2 * (zz + tt), 2 * m);
    ModShift(-2 * (zz + tt - 2 * zz), -2 * m);
  }

  lemma DoubleTermsAre(p: Point)
    ensures
      var d, b := Mod(-(Mul(p.x, p.x) as int)), Mul(p.y, p.y);
      && Add(d, b) == Mod(Times(p.y, p.y) - Times(p.x, p.x))
      && Sub(Add(d, b), AddD(p, p)) == Mod(Times(p.y, p.y) - Times(p.x, p.x) - 2 * Times(p.z, p.z))
      && Sub(d, b) == Mod(-Times(p.x, p.x) - Times(p.y, p.y))
  {
    hide Mod, Times, AddD;
    AddTermsAre(p);
    ModNeg(Times(p.x, p.x));
    LinearTerms(Times(p.x, p.x), Times(p.y, p.y), Times(p.z, p.z));
  }

  lemma LinearTerms(xx: int, yy: int, zz: int)
    ensures
      var d, b, c := Mod(-xx), Mod(yy), Mod(2 * zz);
      && Add(d, b) == Mod(yy - xx)
      && Sub(Add(d, b), c) == Mod(yy - xx - 2 * zz)
      && Sub(d, b) == Mod(-xx - yy)
  {
    hide Mod;
    ModAdd(-xx, yy);
    ModSub(-xx, yy);
    ModSub(yy - xx, 2 * zz);
    assert -xx + yy == yy - xx;
  }

  /** Factors that agree up to 2 and -2 have products that agree up to -4. */
  lemma MinusFour(u: int, w: int, a: felt, b: felt, c: felt, d: felt)
    requires a == Mod(u) && b == Mod(w)
    requires c == Mod(2 * u) && d == Mod(-2 * w)
    ensures Mul(c, d) == Mod(Times(-4, Mul(a, b)))
  {
    hide Mod, Times;
    ModMul(2 * u, -2 * w);
    ModMul(u, w);
    TimesIs(2 * u, -2 * w);
    TimesIs(u, w);
    TimesIs(-4, Times(u, w));
    assert 2 * u * (-2 * w) == -4 * (u * w);
    ModIdempotent(Times(u, w));
    ModScale(-4, Mul(a, b), Times(u, w));
  }

  /** Doubling is adding to itself. */
  lemma DoubleIsAddition(p: Point)
    requires OnCurve(p)
    ensures AddLaw(p, p) == Scaled(-4, DoubleLaw(p))
  {
    hide Mod, Times, Mul, Add, Sub, AddA, AddB, AddC, AddD, DoubleE;
    var xx, yy, zz, xy := Times(p.x, p.x), Times(p.y, p.y), Times(p.z, p.z), Times(p.x, p.y);
    AddOuter(p);
    AddInner(p);
    DoubleTermsAre(p);
    CrossIs(p);
    var d, b := Mod(-(Mul(p.x, p.x) as int)), Mul(p.y, p.y);
    var e, g := DoubleE(p), Add(d, b);
    var f, h := Sub(g, AddD(p, p)), Sub(d, b);
    var e', h' := Sub(AddB(p, p), AddA(p, p)), Add(AddB(p, p), AddA(p, p));
    var f', g' := Sub(AddD(p, p), AddC(p, p)), Add(AddD(p, p), AddC(p, p));
    assert 2 * xx + 2 * yy == -2 * (-xx - yy) && 4 * xy == 2 * (2 * xy);
    MinusFour(2 * xy, yy - xx - 2 * zz, e, f, e', f');
    MinusFour(yy - xx, -xx - yy, g, h, g', h');
    MinusFour(2 * xy, -xx - yy, e, h, e', h');
    MinusFour(yy - xx, yy - xx - 2 * zz, g, f, g', f');
    MulCommutes(f, g);
    MulCommutes(f', g');
  }

  lemma MulCommutes(a: felt, b: felt)
    ensures Mul(a, b) == Mul(b, a)
  {
    hide Mod, Times;
    TimesIs(a, b);
    TimesIs(b, a);
    assert a * b == b * a;
  }
}
