/** The curve is closed under the addition law and the doubling formula of
    core/crypto/edwards.go: both keep the curve equation and the fourth
    coordinate, so a sum may be added to again. */
module Closure {
  import opened Fields
  import opened Curve
  import opened Doubling

  // ------------------------------------------------- identities of integers

  /** The three forms the cross terms come in. */
  lemma CrossForms(x1: int, y1: int, x2: int, y2: int)
    ensures
      var e, h := x1 * y2 + y1 * x2, y1 * y2 + x1 * x2;
      var q1, q2 := y1 * y1 - x1 * x1, y2 * y2 - x2 * x2;
      var s1, s2 := x1 * x1 + y1 * y1, x2 * x2 + y2 * y2;
      && h * h - e * e == q1 * q2
      && h * h + e * e == s1 * s2 + 4 * ((x1 * y1) * (x2 * y2))
      && e * h == (x1 * y1) * s2 + (x2 * y2) * s1
  {
    var a, b, c, d := x1 * y2, y1 * x2, y1 * y2, x1 * x2;
    SquareSum(a, b);
    SquareSum(c, d);
    Swap4(x1, y2, x1, y2);
    Swap4(y1, x2, y1, x2);
    Swap4(y1, y2, y1, y2);
    Swap4(x1, x2, x1, x2);
    Swap4(x1, y2, y1, x2);
    Swap4(y1, y2, x1, x2);
    Swap4(x1, y2, y1, y2);
    Swap4(x1, y2, x1, x2);
    Swap4(y1, x2, y1, y2);
    Swap4(y1, x2, x1, x2);
    Four(x1 * x1, y1 * y1, x2 * x2, y2 * y2);
    Spread(a, b, c, d);
    assert (x1 * y1) * (x2 * x2 + y2 * y2) == (x1 * y1) * (x2 * x2) + (x1 * y1) * (y2 * y2);
    assert (x2 * y2) * (x1 * x1 + y1 * y1) == (x2 * y2) * (x1 * x1) + (x2 * y2) * (y1 * y1);
  }

  lemma SquareSum(a: int, b: int)
    ensures (a + b) * (a + b) == a * a + 2 * (a * b) + b * b
  {
  }

  lemma Spread(a: int, b: int, c: int, d: int)
    ensures (a + b) * (c + d) == a * c + a * d + b * c + b * d
  {
  }

  lemma Four(a: int, b: int, c: int, d: int)
    ensures (b - a) * (d - c) == b * d - b * c - a * d + a * c
    ensures (a + b) * (c + d) == a * c + a * d + b * c + b * d
  {
  }

  lemma Swap4(a: int, b: int, c: int, d: int)
    ensures (a * b) * (c * d) == (a * c) * (b * d)
  {
    assert (a * b) * (c * d) == a * (b * (c * d));
    assert b * (c * d) == c * (b * d);
    assert a * (c * (b * d)) == (a * c) * (b * d);
  }

  /** The curve equation of a sum, in the squares and products of its two halves. */
  lemma LawForm(a: int, b: int, e: int, h: int, d: int)
    ensures
      var f, g := a - b, a + b;
      g * g * (h * h) - e * e * (f * f) - f * f * (g * g) - d * (e * e * (h * h))
      == (a * a + b * b) * (h * h - e * e) + 2 * (a * b * (h * h + e * e))
         - (a * a - b * b) * (a * a - b * b) - d * ((e * h) * (e * h))
  {
    var f, g := a - b, a + b;
    assert g * g == a * a + 2 * (a * b) + b * b by { SquareSum(a, b); }
    assert f * f == a * a - 2 * (a * b) + b * b by { SquareSum(a, -b); }
    assert f * g == a * a - b * b;
    assert f * f * (g * g) == (f * g) * (f * g) by { Swap4(f, f, g, g); }
    assert e * e * (h * h) == (e * h) * (e * h) by { Swap4(e, e, h, h); }
    Outer(a * a, b * b, a * b, h * h, e * e);
  }

  lemma Outer(a: int, b: int, c: int, h: int, e: int)
    ensures (a + 2 * c + b) * h - e * (a - 2 * c + b) == (a + b) * (h - e) + 2 * (c * (h + e))
  {
    assert (a + 2 * c + b) * h == (a + b) * h + 2 * (c * h);
    assert e * (a - 2 * c + b) == (a + b) * e - 2 * (c * e);
  }

  /** Factors known up to multiples of m give a product known up to one. */
  lemma Drift(m: int, q: int, r: int, a: int, u: int, w: int, b: int) returns (k: int)
    requires q == r + m * a && u == w + m * b
    ensures q * u == r * w + m * k
  {
    k := m * a * b + a * w + r * b;
    MulShift(m, a, r, b, w);
  }

  lemma ScaleDrift(m: int, c: int, x: int, y: int, k: int)
    requires x == y + m * k
    ensures c * x == c * y + m * (c * k)
  {
    assert c * (m * k) == m * (c * k);
  }

  /** The cross products cancel, whatever the sums of squares are. */
  lemma CrossCancels(d: int, p1: int, p2: int, s1: int, s2: int, q1: int, q2: int)
    requires s1 * s1 == q1 * q1 + 4 * (p1 * p1) && s2 * s2 == q2 * q2 + 4 * (p2 * p2)
    ensures
      var eh := p1 * s2 + p2 * s1;
      2 * (d * ((p1 * p2) * (s1 * s2 + 4 * (p1 * p2)))) - d * (eh * eh)
      == -(d * ((p1 * p1) * (q2 * q2))) - d * ((p2 * p2) * (q1 * q1))
  {
    var eh := p1 * s2 + p2 * s1;
    SquareSum(p1 * s2, p2 * s1);
    Swap4(p1, s2, p1, s2);
    Swap4(p2, s1, p2, s1);
    Swap4(p1, s2, p2, s1);
    Swap4(p1, p2, p1, p2);
    assert s2 * s1 == s1 * s2;
    Expand4(p1 * p1, p2 * p2, q1 * q1, q2 * q2, p1 * p2, s1 * s2);
    assert eh * eh == (p1 * p1) * (q2 * q2) + (p2 * p2) * (q1 * q1) + 2 * ((p1 * p2) * (s1 * s2 + 4 * (p1 * p2)));
    Linear3(d, eh * eh, (p1 * p1) * (q2 * q2), (p2 * p2) * (q1 * q1), (p1 * p2) * (s1 * s2 + 4 * (p1 * p2)));
  }

  lemma Expand4(pp: int, rr: int, q1: int, q2: int, pr: int, s: int)
    ensures pp * (q2 + 4 * rr) == pp * q2 + 4 * (pp * rr)
    ensures rr * (q1 + 4 * pp) == rr * q1 + 4 * (pp * rr)
    ensures pr * (s + 4 * pr) == pr * s + 4 * (pr * pr)
  {
  }

  lemma Linear3(d: int, t: int, a: int, b: int, c: int)
    requires t == a + b + 2 * c
    ensures d * t == d * a + d * b + 2 * (d * c)
  {
  }

  /** With both points on the curve nothing is left. */
  lemma NothingLeft(z1: int, t1: int, z2: int, t2: int)
    ensures (z1 * z2 + t1 * t2) * ((z1 + t1) * (z2 + t2)) - (z1 * z2 - t1 * t2) * (z1 * z2 - t1 * t2)
            - (z1 * t1) * ((z2 + t2) * (z2 + t2)) - (z2 * t2) * ((z1 + t1) * (z1 + t1)) == 0
  {
    var a, b, c, d := z1 * z2, t1 * t2, z1 * t2, t1 * z2;
    Spread(z1, t1, z2, t2);
    assert (z1 + t1) * (z2 + t2) == a + b + c + d;
    SquareSum(a, -b);
    SquareSum(z2, t2);
    SquareSum(z1, t1);
    Swap4(z1, z2, t1, t2);
    Swap4(z1, t1, z2, z2);
    Swap4(z1, t1, t2, t2);
    Swap4(z1, t1, z2, t2);
    Swap4(z2, t2, z1, z1);
    Swap4(z2, t2, t1, t1);
    Swap4(z2, t2, z1, t1);
    Remaining(a, b, c, d);
    assert (z1 * t1) * (z2 * z2 + 2 * (z2 * t2) + t2 * t2) ==
           (z1 * t1) * (z2 * z2) + 2 * ((z1 * t1) * (z2 * t2)) + (z1 * t1) * (t2 * t2);
    assert (z2 * t2) * (z1 * z1 + 2 * (z1 * t1) + t1 * t1) ==
           (z2 * t2) * (z1 * z1) + 2 * ((z2 * t2) * (z1 * t1)) + (z2 * t2) * (t1 * t1);
  }

  lemma Remaining(a: int, b: int, c: int, d: int)
    ensures (a + b) * (a + b + c + d) - (a * a - 2 * (a * b) + b * b) == a * c + a * d + b * c + b * d + 4 * (a * b)
  {
  }

  // --------------------------------------------------- the sum of two points

  /** One point, over the integers: its equations up to multiples of m. */
  ghost predicate Near(m: int, d: int, x: int, y: int, z: int, t: int, a: int, b: int) {
    && y * y - x * x == z * z + d * (t * t) + m * a
    && x * y == z * t + m * b
  }

  lemma Halves(d: int, z1: int, t1: int, z2: int, t2: int)
    ensures
      var a, b := z1 * z2, d * (t1 * t2);
      && a * a == (z1 * z1) * (z2 * z2)
      && b * b == (d * (t1 * t1)) * (d * (t2 * t2))
      && a * b == d * ((z1 * t1) * (z2 * t2))
  {
    var a, b := z1 * z2, d * (t1 * t2);
    Swap4(z1, z2, z1, z2);
    Swap4(d, t1 * t2, d, t1 * t2);
    Swap4(t1, t2, t1, t2);
    Swap4(d, t1 * t1, d, t2 * t2);
    Swap4(z1, z2, t1, t2);
    assert a * b == d * ((z1 * z2) * (t1 * t2));
  }

  lemma SumOfSquares(x: int, y: int)
    ensures
      var s, q, p := x * x + y * y, y * y - x * x, x * y;
      s * s == q * q + 4 * (p * p)
  {
    Swap4(x, y, x, y);
    Gap(x * x, y * y);
  }

  lemma Gap(a: int, b: int)
    ensures (a + b) * (a + b) == (b - a) * (b - a) + 4 * (a * b)
  {
  }

  /** d*(xy)^2 times a square, the curve's equations put in. */
  lemma SquareTerm(m: int, d: int, z: int, t: int, p: int, b: int, q: int, r: int, a: int) returns (k: int)
    requires p == z * t + m * b && q == r + m * a
    ensures d * ((p * p) * (q * q)) == ((z * z) * (d * (t * t))) * (r * r) + m * k
  {
    var w := z * t;
    var k1 := Drift(m, p, w, b, p, w, b);
    var k2 := Drift(m, q, r, a, q, r, a);
    var k3 := Drift(m, p * p, w * w, k1, q * q, r * r, k2);
    ScaleDrift(m, d, (p * p) * (q * q), (w * w) * (r * r), k3);
    k := d * k3;
    Swap4(z, t, z, t);
    Rebracket(d, z * z, t * t, r * r);
  }

  lemma Rebracket(d: int, a: int, b: int, c: int)
    ensures d * ((a * b) * c) == (a * (d * b)) * c
  {
    assert d * ((a * b) * c) == (d * (a * b)) * c;
    assert d * (a * b) == a * (d * b);
  }

  /** The twist's share, with the cross products of the points put in. */
  lemma TwistShare(m: int, d: int, w1: int, p1: int, b1: int, w2: int, p2: int, b2: int, n: int) returns (k: int)
    requires p1 == w1 + m * b1 && p2 == w2 + m * b2
    ensures d * (w1 * w2) * n == d * ((p1 * p2) * n) + m * k
  {
    var k1 := Drift(m, p1, w1, b1, p2, w2, b2);
    ScaleDrift(m, d * n, p1 * p2, w1 * w2, k1);
    k := -(d * n * k1);
    assert d * n * (p1 * p2) == d * ((p1 * p2) * n);
    assert d * n * (w1 * w2) == d * (w1 * w2) * n;
    assert m * k == -(m * (d * n * k1));
  }

  /** What is left of the law's equation once the points' own are put in. */
  lemma Reduces(m: int, d: int, x1: int, y1: int, z1: int, t1: int, a1: int, b1: int,
                x2: int, y2: int, z2: int, t2: int, a2: int, b2: int) returns (k: int)
    requires Near(m, d, x1, y1, z1, t1, a1, b1) && Near(m, d, x2, y2, z2, t2, a2, b2)
    ensures
      var u1, v1, u2, v2 := z1 * z1, d * (t1 * t1), z2 * z2, d * (t2 * t2);
      var q1, q2, s1, s2 := y1 * y1 - x1 * x1, y2 * y2 - x2 * x2, x1 * x1 + y1 * y1, x2 * x2 + y2 * y2;
      var p1, p2 := x1 * y1, x2 * y2;
      var eh := p1 * s2 + p2 * s1;
      (u1 * u2 + v1 * v2) * (q1 * q2) + 2 * (d * ((z1 * t1) * (z2 * t2)) * (s1 * s2 + 4 * (p1 * p2)))
      - (u1 * u2 - v1 * v2) * (u1 * u2 - v1 * v2) - d * (eh * eh) == m * k
  {
    var u1, v1, u2, v2 := z1 * z1, d * (t1 * t1), z2 * z2, d * (t2 * t2);
    var q1, q2, s1, s2 := y1 * y1 - x1 * x1, y2 * y2 - x2 * x2, x1 * x1 + y1 * y1, x2 * x2 + y2 * y2;
    var p1, p2, c := x1 * y1, x2 * y2, u1 * u2 + v1 * v2;
    var k1 := Drift(m, q1, u1 + v1, a1, q2, u2 + v2, a2);
    ScaleDrift(m, c, q1 * q2, (u1 + v1) * (u2 + v2), k1);
    var k2 := TwistShare(m, d, z1 * t1, p1, b1, z2 * t2, p2, b2, s1 * s2 + 4 * (p1 * p2));
    SumOfSquares(x1, y1);
    SumOfSquares(x2, y2);
    CrossCancels(d, p1, p2, s1, s2, q1, q2);
    var k3 := SquareTerm(m, d, z1, t1, p1, b1, q2, u2 + v2, a2);
    var k4 := SquareTerm(m, d, z2, t2, p2, b2, q1, u1 + v1, a1);
    NothingLeft(u1, v1, u2, v2);
    k := c * k1 + 2 * k2 - k3 - k4;
    Collect(m, c * k1, k2, k3, k4);
  }

  lemma Collect(m: int, a: int, b: int, c: int, d: int)
    ensures m * (a + 2 * b - c - d) == m * a + 2 * (m * b) - m * c - m * d
  {
  }

  /** The law's four factors satisfy the curve equation, up to a multiple of m. */
  lemma SumVanishes(m: int, d: int, x1: int, y1: int, z1: int, t1: int, a1: int, b1: int,
                    x2: int, y2: int, z2: int, t2: int, a2: int, b2: int) returns (k: int)
    requires Near(m, d, x1, y1, z1, t1, a1, b1) && Near(m, d, x2, y2, z2, t2, a2, b2)
    ensures
      var e, h := x1 * y2 + y1 * x2, y1 * y2 + x1 * x2;
      var f, g := z1 * z2 - d * (t1 * t2), z1 * z2 + d * (t1 * t2);
      g * g * (h * h) - e * e * (f * f) - f * f * (g * g) - d * (e * e * (h * h)) == m * k
  {
    hide Near;
    LawForm(z1 * z2, d * (t1 * t2), x1 * y2 + y1 * x2, y1 * y2 + x1 * x2, d);
    CrossForms(x1, y1, x2, y2);
    Halves(d, z1, t1, z2, t2);
    k := Reduces(m, d, x1, y1, z1, t1, a1, b1, x2, y2, z2, t2, a2, b2);
  }

  // ------------------------------------------------------------ in the field

  lemma NearCurve(p: Point) returns (a: int, b: int)
    requires OnCurve(p)
    ensures Near(P, D, p.x, p.y, p.z, p.t, a, b)
  {
    CurveEquation(p);
    hide Mod, Times;
    TimesIs(p.x, p.x);
    TimesIs(p.y, p.y);
    TimesIs(p.z, p.z);
    TimesIs(p.t, p.t);
    TimesIs(p.x, p.y);
    TimesIs(p.z, p.t);
    TimesIs(D, Times(p.t, p.t));
    var l, r := Times(p.y, p.y) - Times(p.x, p.x), Times(p.z, p.z) + Times(D, Times(p.t, p.t));
    ModSame(l, r);
    a := l / P - r / P;
    ModSame(Times(p.x, p.y), Times(p.z, p.t));
    b := Times(p.x, p.y) / P - Times(p.z, p.t) / P;
  }

  /** The curve equation as the four factors of a formula see it. */
  ghost predicate Balanced(e: int, f: int, g: int, h: int) {
    Solves(Times(Times(e, e), Times(f, f)), Times(Times(g, g), Times(h, h)),
           Times(Times(f, f), Times(g, g)), Times(Times(e, e), Times(h, h)))
  }

  /** The equation on the four squares. */
  ghost predicate Solves(xx: int, yy: int, zz: int, tt: int) {
    Mod(yy - xx) == Mod(zz + Times(D, tt))
  }

  lemma TimesSwap(a: int, b: int, c: int, d: int)
    ensures Times(Times(a, b), Times(c, d)) == Times(Times(a, c), Times(b, d))
    ensures Times(a, b) == Times(b, a)
  {
    hide Times;
    TimesIs(a, b);
    TimesIs(b, a);
    TimesIs(c, d);
    TimesIs(a, c);
    TimesIs(b, d);
    TimesIs(a * b, c * d);
    TimesIs(a * c, b * d);
    Swap4(a, b, c, d);
  }

  lemma MulOfMul(a: int, b: int, c: int, d: int)
    ensures Mul(Mul(Mod(a), Mod(b)), Mul(Mod(c), Mod(d))) == Mod(Times(Times(a, b), Times(c, d)))
  {
    hide Mod, Times;
    ModMul(a, b);
    ModMul(c, d);
    ModMul(Times(a, b), Times(c, d));
  }

  lemma SquareOfMul(a: int, b: int)
    ensures Mul(Mul(Mod(a), Mod(b)), Mul(Mod(a), Mod(b))) == Mod(Times(Times(a, a), Times(b, b)))
  {
    hide Mod, Times, Mul;
    MulOfMul(a, b, a, b);
    TimesSwap(a, b, a, b);
  }

  /** Whatever four factors go in, the fourth coordinate comes out right. */
  lemma FourthCoordinate(e: int, f: int, g: int, h: int)
    ensures Mul(Mul(Mod(e), Mod(f)), Mul(Mod(g), Mod(h))) == Mul(Mul(Mod(f), Mod(g)), Mul(Mod(e), Mod(h)))
  {
    hide Mod, Times, Mul;
    MulOfMul(e, f, g, h);
    MulOfMul(f, g, e, h);
    TimesSwap(f, g, e, h);
    TimesSwap(e, f, g, h);
  }

  lemma SolvesIs(xx: int, yy: int, zz: int, tt: int)
    requires Solves(xx, yy, zz, tt)
    ensures Mod(yy - xx) == Mod(zz + Times(D, tt))
  {
    hide Mod, Times;
  }

  /** The second equation, from its four squares. */
  lemma EquationOf(p: Point, xx: int, yy: int, zz: int, tt: int, dt: int)
    requires Mul(p.x, p.x) == Mod(xx) && Mul(p.y, p.y) == Mod(yy)
    requires Mul(p.z, p.z) == Mod(zz) && Mul(p.t, p.t) == Mod(tt)
    requires dt == Times(D, tt) && Mod(yy - xx) == Mod(zz + dt) && Mul(p.x, p.y) == Mul(p.z, p.t)
    ensures OnCurve(p)
  {
    ReducedMod(D);
    hide Mod, Times, Mul;
    ModSub(yy, xx);
    MulIs(D, tt);
    ModAdd(zz, Times(D, tt));
  }

  lemma AssembledSquares(e: int, f: int, g: int, h: int)
    ensures
      var r := Assemble(Mod(e), Mod(f), Mod(g), Mod(h));
      && Mul(r.x, r.x) == Mod(Times(Times(e, e), Times(f, f)))
      && Mul(r.y, r.y) == Mod(Times(Times(g, g), Times(h, h)))
      && Mul(r.z, r.z) == Mod(Times(Times(f, f), Times(g, g)))
      && Mul(r.t, r.t) == Mod(Times(Times(e, e), Times(h, h)))
      && Mul(r.x, r.y) == Mul(r.z, r.t)
  {
    hide Mod, Times, Mul;
    FourthCoordinate(e, f, g, h);
    SquareOfMul(e, f);
    SquareOfMul(g, h);
    SquareOfMul(f, g);
    SquareOfMul(e, h);
  }

  lemma SolvedOnCurve(r: Point, xx: int, yy: int, zz: int, tt: int)
    requires Mul(r.x, r.x) == Mod(xx) && Mul(r.y, r.y) == Mod(yy)
    requires Mul(r.z, r.z) == Mod(zz) && Mul(r.t, r.t) == Mod(tt)
    requires Solves(xx, yy, zz, tt) && Mul(r.x, r.y) == Mul(r.z, r.t)
    ensures OnCurve(r)
  {
    hide *;
    SolvesIs(xx, yy, zz, tt);
    EquationOf(r, xx, yy, zz, tt, Times(D, tt));
  }

  lemma BalancedIs(e: int, f: int, g: int, h: int)
    requires Balanced(e, f, g, h)
    ensures Solves(Times(Times(e, e), Times(f, f)), Times(Times(g, g), Times(h, h)),
                   Times(Times(f, f), Times(g, g)), Times(Times(e, e), Times(h, h)))
  {
  }

  lemma AssembledOnCurve(e: int, f: int, g: int, h: int)
    requires Balanced(e, f, g, h)
    ensures OnCurve(Assemble(Mod(e), Mod(f), Mod(g), Mod(h)))
  {
    hide *;
    AssembledSquares(e, f, g, h);
    BalancedIs(e, f, g, h);
    var ee, ff, gg, hh := Times(e, e), Times(f, f), Times(g, g), Times(h, h);
    SolvedOnCurve(Assemble(Mod(e), Mod(f), Mod(g), Mod(h)), Times(ee, ff), Times(gg, hh), Times(ff, gg), Times(ee, hh));
  }

  lemma MulIs(d: int, n: int)
    ensures Mul(Mod(d), Mod(n)) == Mod(Times(d, n))
  {
    hide Mod, Times;
    ModMul(d, n);
  }

  /** An integer multiple of the modulus balances the factors. */
  lemma Balances(e: int, f: int, g: int, h: int, k: int)
    requires g * g * (h * h) - e * e * (f * f) - f * f * (g * g) - D * (e * e * (h * h)) == P * k
    ensures Balanced(e, f, g, h)
  {
    hide Mod, Times;
    TimesIs(e, e);
    TimesIs(f, f);
    TimesIs(g, g);
    TimesIs(h, h);
    TimesIs(g * g, h * h);
    TimesIs(e * e, f * f);
    TimesIs(f * f, g * g);
    TimesIs(e * e, h * h);
    TimesIs(D, e * e * (h * h));
    ModShift(f * f * (g * g) + D * (e * e * (h * h)), k);
  }

  /** A, B, C and D of the law, as integers. */
  lemma LawTermsAre(p: Point, q: Point)
    ensures AddA(p, q) == Mod(Times(p.y - p.x, q.y - q.x))
    ensures AddB(p, q) == Mod(Times(p.y + p.x, q.y + q.x))
    ensures AddC(p, q) == Mod(2 * Times(D, Times(p.t, q.t)))
    ensures AddD(p, q) == Mod(2 * Times(p.z, q.z))
  {
    hide Mod, Times;
    ModMul(p.y - p.x, q.y - q.x);
    ModMul(p.y + p.x, q.y + q.x);
    TwistOf(Times(p.t, q.t));
    ModAdd(Times(p.z, q.z), Times(p.z, q.z));
  }

  lemma TwistOf(n: int)
    ensures Mul(Mod(n), D2) == Mod(2 * Times(D, n))
  {
    hide Mod, Times;
    ConstantsAreRight();
    ModIs(2 * D);
    ModMul(n, 2 * D);
    TimesIs(n, 2 * D);
    TimesIs(D, n);
  }

  lemma Products(x1: int, y1: int, x2: int, y2: int)
    ensures Times(y1 + x1, y2 + x2) - Times(y1 - x1, y2 - x2) == 2 * (Times(x1, y2) + Times(y1, x2))
    ensures Times(y1 + x1, y2 + x2) + Times(y1 - x1, y2 - x2) == 2 * (Times(y1, y2) + Times(x1, x2))
  {
    hide Times;
    TimesIs(y1 + x1, y2 + x2);
    TimesIs(y1 - x1, y2 - x2);
    TimesIs(x1, y2);
    TimesIs(y1, x2);
    TimesIs(y1, y2);
    TimesIs(x1, x2);
    Spread(y1, x1, y2, x2);
    Spread(y1, -x1, y2, -x2);
  }

  /** The four factors of the law, as integers. */
  lemma LawFactors(p: Point, q: Point)
    ensures
      var e, h := Times(p.x, q.y) + Times(p.y, q.x), Times(p.y, q.y) + Times(p.x, q.x);
      var f, g := Times(p.z, q.z) - Times(D, Times(p.t, q.t)), Times(p.z, q.z) + Times(D, Times(p.t, q.t));
      AddLaw(p, q) == Assemble(Mod(2 * e), Mod(2 * f), Mod(2 * g), Mod(2 * h))
  {
    hide Mod, Times, AddA, AddB, AddC, AddD, Assemble;
    LawTermsAre(p, q);
    Products(p.x, p.y, q.x, q.y);
    var a, b := Times(p.y - p.x, q.y - q.x), Times(p.y + p.x, q.y + q.x);
    var c, d := 2 * Times(D, Times(p.t, q.t)), 2 * Times(p.z, q.z);
    ModSub(b, a);
    ModAdd(b, a);
    ModSub(d, c);
    ModAdd(d, c);
  }

  lemma Doubled(m: int, d: int, e: int, f: int, g: int, h: int, k: int)
    requires g * g * (h * h) - e * e * (f * f) - f * f * (g * g) - d * (e * e * (h * h)) == m * k
    ensures
      var e2, f2, g2, h2 := 2 * e, 2 * f, 2 * g, 2 * h;
      g2 * g2 * (h2 * h2) - e2 * e2 * (f2 * f2) - f2 * f2 * (g2 * g2) - d * (e2 * e2 * (h2 * h2)) == m * (16 * k)
  {
    Sixteen(g, h);
    Sixteen(e, f);
    Sixteen(f, g);
    Sixteen(e, h);
    assert d * (16 * (e * e * (h * h))) == 16 * (d * (e * e * (h * h)));
    assert m * (16 * k) == 16 * (m * k);
  }

  lemma Sixteen(a: int, b: int)
    ensures 2 * a * (2 * a) * (2 * b * (2 * b)) == 16 * (a * a * (b * b))
  {
    assert 2 * a * (2 * a) == 4 * (a * a) && 2 * b * (2 * b) == 4 * (b * b);
  }

  /** The sum of two points of the curve is a point of the curve. */
  lemma SumOnCurve(p: Point, q: Point)
    requires OnCurve(p) && OnCurve(q)
    ensures OnCurve(AddLaw(p, q))
  {
    hide OnCurve, AddLaw, Mod, Times, Balanced, Assemble;
    var a1, b1 := NearCurve(p);
    var a2, b2 := NearCurve(q);
    var k := SumVanishes(P, D, p.x, p.y, p.z, p.t, a1, b1, q.x, q.y, q.z, q.t, a2, b2);
    LawFactors(p, q);
    LawProducts(p, q);
    var e, h: int := p.x * q.y + p.y * q.x, p.y * q.y + p.x * q.x;
    var f, g: int := p.z * q.z - D * (p.t * q.t), p.z * q.z + D * (p.t * q.t);
    Doubled(P, D, e, f, g, h, k);
    Balances(2 * e, 2 * f, 2 * g, 2 * h, 16 * k);
    AssembledOnCurve(2 * e, 2 * f, 2 * g, 2 * h);
  }

  lemma LawProducts(p: Point, q: Point)
    ensures Times(p.x, q.y) == p.x * q.y && Times(p.y, q.x) == p.y * q.x
    ensures Times(p.y, q.y) == p.y * q.y && Times(p.x, q.x) == p.x * q.x
    ensures Times(p.z, q.z) == p.z * q.z && Times(D, Times(p.t, q.t)) == D * (p.t * q.t)
  {
    hide Times;
    TimesIs(p.x, q.y);
    TimesIs(p.y, q.x);
    TimesIs(p.y, q.y);
    TimesIs(p.x, q.x);
    TimesIs(p.z, q.z);
    TimesIs(p.t, q.t);
    TimesIs(D, p.t * q.t);
  }

  /** The four factors of the doubling, as integers: those of the law, halved and
      two of them negated. */
  lemma DoublingFactors(p: Point)
    requires OnCurve(p)
    ensures
      var e, h := 2 * Times(p.x, p.y), Times(p.y, p.y) + Times(p.x, p.x);
      var f, g := Times(p.z, p.z) - Times(D, Times(p.t, p.t)), Times(p.z, p.z) + Times(D, Times(p.t, p.t));
      DoubleLaw(p) == Assemble(Mod(e), Mod(-f), Mod(g), Mod(-h))
  {
    hide Mod, Times, Mul, Add, Sub, AddD, DoubleE, Assemble, OnCurve;
    CrossIs(p);
    DoubleTermsAre(p);
    CurveEquation(p);
    var zz := Times(p.z, p.z);
    SameLess(Times(p.y, p.y) - Times(p.x, p.x), zz + Times(D, Times(p.t, p.t)), 2 * zz);
  }

  lemma SameLess(a: int, b: int, c: int)
    requires Mod(a) == Mod(b)
    ensures Mod(a - c) == Mod(b - c)
  {
    hide Mod;
    ModSub(a, c);
    ModSub(b, c);
  }

  lemma Signs(e: int, f: int, g: int, h: int, k: int)
    requires g * g * (h * h) - e * e * (f * f) - f * f * (g * g) - D * (e * e * (h * h)) == P * k
    ensures Balanced(e, -f, g, -h)
  {
    hide Balanced;
    assert -f * -f == f * f && -h * -h == h * h;
    Balances(e, -f, g, -h, k);
  }

  /** Twice a point of the curve is a point of the curve. */
  lemma DoubleOnCurve(p: Point)
    requires OnCurve(p)
    ensures OnCurve(DoubleLaw(p))
  {
    hide OnCurve, DoubleLaw, Mod, Times, Balanced, Assemble;
    var a, b := NearCurve(p);
    var k := SumVanishes(P, D, p.x, p.y, p.z, p.t, a, b, p.x, p.y, p.z, p.t, a, b);
    DoublingFactors(p);
    LawProducts(p, p);
    var e, h: int := p.x * p.y + p.y * p.x, p.y * p.y + p.x * p.x;
    var f, g: int := p.z * p.z - D * (p.t * p.t), p.z * p.z + D * (p.t * p.t);
    assert e == 2 * Times(p.x, p.y);
    Signs(e, f, g, h, k);
    AssembledOnCurve(e, -f, g, -h);
  }
}
