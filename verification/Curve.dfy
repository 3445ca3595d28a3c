/** Points of the twisted Edwards curve (core/crypto/edwards.go): addition and
    doubling in place, correct whatever the operands alias. */
module Curve {
  import opened U256
  import opened Fields

  /** d = -121665/121666, and twice it. */
  const D: felt := 0x52036cee2b6ffe738cc740797779e89800700a4d4141d8ab75eb4dca135978a3
  const D2: felt := 0x2406d9dc56dffce7198e80f2eef3d13000e0149a8283b156ebd69b9426b2f159

  lemma ConstantsAreRight()
    ensures (121666 * D + 121665) % P == 0
    ensures D2 == 2 * D % P
  {
  }

  /** Extended coordinates: x = X/Z, y = Y/Z and X*Y = Z*T. */
  datatype Point = Point(x: felt, y: felt, z: felt, t: felt)

  const IDENTITY: Point := Point(0, 1, 1, 0)

  function Assemble(e: felt, f: felt, g: felt, h: felt): Point {
    Point(Mul(e, f), Mul(g, h), Mul(f, g), Mul(e, h))
  }

  // The intermediate values of the two formulas, named as in the source.

  function AddA(p: Point, q: Point): felt {
    Mul(Sub(p.y, p.x), Sub(q.y, q.x))
  }

  function AddB(p: Point, q: Point): felt {
    Mul(Add(p.y, p.x), Add(q.y, q.x))
  }

  function AddC(p: Point, q: Point): felt {
    Mul(Mul(p.t, q.t), D2)
  }

  function AddD(p: Point, q: Point): felt {
    Add(Mul(p.z, q.z), Mul(p.z, q.z))
  }

  /** The unified addition law for a = -1. */
  function AddLaw(p: Point, q: Point): Point {
    var a, b, c, d := AddA(p, q), AddB(p, q), AddC(p, q), AddD(p, q);
    Assemble(Sub(b, a), Sub(d, c), Add(d, c), Add(b, a))
  }

  function DoubleE(p: Point): felt {
    var xy := Add(p.x, p.y);
    Sub(Sub(Mul(xy, xy), Mul(p.x, p.x)), Mul(p.y, p.y))
  }

  /** The dedicated doubling formula. */
  function DoubleLaw(p: Point): Point {
    var b := Mul(p.y, p.y);
    var d := Mod(-(Mul(p.x, p.x) as int));
    var g := Add(d, b);
    Assemble(DoubleE(p), Sub(g, AddD(p, p)), g, Sub(d, b))
  }

  // ---------------------------------------------------------- points in place

  class EdPoint {
    const x: Int
    const y: Int
    const z: Int
    const t: Int
    ghost const group: nat

    ghost predicate Valid()
      reads x, y, z, t
    {
      && x.id == 100 + 4 * group && y.id == 101 + 4 * group && z.id == 102 + 4 * group && t.id == 103 + 4 * group
      && x.v < P && y.v < P && z.v < P && t.v < P
    }

    ghost function Cells(): set<Int> {
      {x, y, z, t}
    }

    function View(): Point
      requires x.v < P && y.v < P && z.v < P && t.v < P
      reads x, y, z, t
    {
      Point(x.v, y.v, z.v, t.v)
    }

    constructor (ghost g: nat)
      ensures Valid() && View() == IDENTITY && group == g && fresh(Cells())
    {
      x := new Int(0, 100 + 4 * g);
      y := new Int(1, 101 + 4 * g);
      z := new Int(1, 102 + 4 * g);
      t := new Int(0, 103 + 4 * g);
      group := g;
    }

    method Set(q: EdPoint)
      requires Valid() && q.Valid()
      modifies x, y, z, t
      ensures Valid() && View() == old(q.View())
    {
      x.v := q.x.v;
      y.v := q.y.v;
      z.v := q.z.v;
      t.v := q.t.v;
    }
  }

  /** The four products every operation ends with.  They read only scratch values,
      which is why the result may overwrite an operand. */
  method Finish(s: Scratch, r: EdPoint)
    requires s.Valid() && r.Valid() && s.e.v < P && s.f.v < P && s.g.v < P && s.h.v < P
    modifies r.x, r.y, r.z, r.t, s.t0
    ensures r.Valid() && r.View() == Assemble(old(s.e.v), old(s.f.v), old(s.g.v), old(s.h.v))
  {
    hide Mul;
    s.MulInto(r.x, s.e, s.f);
    s.MulInto(r.y, s.g, s.h);
    s.MulInto(r.t, s.e, s.h);
    s.MulInto(r.z, s.f, s.g);
  }

  // Each term of the law is its own step: it writes its own variable and the
  // shared temporaries, and nothing else.

  method DifferenceTerm(s: Scratch, p: EdPoint, q: EdPoint)
    requires s.Valid() && p.Valid() && q.Valid()
    modifies s.a, s.t0, s.t1, s.t2
    ensures s.a.v == AddA(p.View(), q.View())
  {
    hide Mul, Mod;
    s.SubInto(s.a, p.y, p.x);
    s.SubInto(s.t2, q.y, q.x);
    s.MulInto(s.a, s.a, s.t2);
  }

  method SumTerm(s: Scratch, p: EdPoint, q: EdPoint)
    requires s.Valid() && p.Valid() && q.Valid()
    modifies s.b, s.t0, s.t1, s.t2
    ensures s.b.v == AddB(p.View(), q.View())
  {
    hide Mul, Add;
    s.AddInto(s.b, p.y, p.x);
    s.AddInto(s.t2, q.y, q.x);
    s.MulInto(s.b, s.b, s.t2);
  }

  method TwistTerm(s: Scratch, p: EdPoint, q: EdPoint)
    requires s.Valid() && p.Valid() && q.Valid()
    modifies s.c, s.t0
    ensures s.c.v == AddC(p.View(), q.View())
  {
    hide Mul;
    s.MulInto(s.c, p.t, q.t);
    s.MulConst(s.c, s.c, D2);
  }

  method ScaleTerm(s: Scratch, dst: Int, p: EdPoint, q: EdPoint)
    requires s.Valid() && p.Valid() && q.Valid() && (dst == s.c || dst == s.d)
    modifies dst, s.t0, s.t1
    ensures dst.v == AddD(p.View(), q.View())
  {
    hide Mul, Add;
    s.MulInto(dst, p.z, q.z);
    s.AddInto(dst, dst, dst);
  }

  method EdgeTerms(s: Scratch, p: EdPoint, q: EdPoint)
    requires s.Valid() && p.Valid() && q.Valid()
    modifies s.a, s.b, s.t0, s.t1, s.t2
    ensures s.a.v == AddA(p.View(), q.View()) && s.b.v == AddB(p.View(), q.View())
  {
    hide AddA, AddB;
    DifferenceTerm(s, p, q);
    SumTerm(s, p, q);
  }

  /** A, B, C and D. */
  method AddTerms(s: Scratch, p: EdPoint, q: EdPoint)
    requires s.Valid() && p.Valid() && q.Valid()
    modifies s.a, s.b, s.c, s.d, s.t0, s.t1, s.t2
    ensures s.a.v == AddA(p.View(), q.View()) && s.b.v == AddB(p.View(), q.View())
    ensures s.c.v == AddC(p.View(), q.View()) && s.d.v == AddD(p.View(), q.View())
  {
    hide AddA, AddB, AddC, AddD;
    EdgeTerms(s, p, q);
    TwistTerm(s, p, q);
    ScaleTerm(s, s.d, p, q);
  }

  /** E, F, G and H from A, B, C and D. */
  method CombineTerms(s: Scratch)
    requires s.Valid() && s.a.v < P && s.b.v < P && s.c.v < P && s.d.v < P
    modifies s.e, s.f, s.g, s.h, s.t1
    ensures s.e.v == Sub(s.b.v, s.a.v) && s.f.v == Sub(s.d.v, s.c.v)
    ensures s.g.v == Add(s.d.v, s.c.v) && s.h.v == Add(s.b.v, s.a.v)
  {
    hide Add, Mod;
    s.SubInto(s.e, s.b, s.a);
    s.SubInto(s.f, s.d, s.c);
    s.AddInto(s.g, s.d, s.c);
    s.AddInto(s.h, s.b, s.a);
  }

  /** r = p + q, for any aliasing among the three. */
  method AddPoints(s: Scratch, r: EdPoint, p: EdPoint, q: EdPoint)
    requires s.Valid() && r.Valid() && p.Valid() && q.Valid()
    modifies r.Cells(), s.Cells()
    ensures r.Valid() && r.View() == AddLaw(old(p.View()), old(q.View()))
  {
    hide Add, Sub, Assemble, AddA, AddB, AddC, AddD;
    ScratchApart(s, r);
    AddTerms(s, p, q);
    CombineTerms(s);
    Finish(s, r);
  }

  /** A point's coordinates are never temporaries. */
  lemma ScratchApart(s: Scratch, r: EdPoint)
    requires s.Valid() && r.Valid()
    ensures r.Cells() !! s.Cells()
  {
  }

  /** A, B, C and D of the doubling. */
  method SquareTerms(s: Scratch, p: EdPoint)
    requires s.Valid() && p.Valid()
    modifies s.a, s.b, s.c, s.d, s.t0, s.t1
    ensures s.a.v == Mul(p.x.v, p.x.v) && s.b.v == Mul(p.y.v, p.y.v)
    ensures s.c.v == AddD(p.View(), p.View())
    ensures s.d.v == Mod(-(s.a.v as int))
  {
    hide Mul, AddD, Mod;
    s.MulInto(s.a, p.x, p.x);
    s.MulInto(s.b, p.y, p.y);
    ScaleTerm(s, s.c, p, p);
    s.NegInto(s.d, s.a);
  }

  method CrossTerm(s: Scratch, p: EdPoint)
    requires s.Valid() && p.Valid() && s.a.v == Mul(p.x.v, p.x.v) && s.b.v == Mul(p.y.v, p.y.v)
    modifies s.e, s.t0, s.t1
    ensures s.e.v == DoubleE(p.View())
  {
    hide Mul, Add, Mod;
    s.AddInto(s.e, p.x, p.y);
    s.MulInto(s.e, s.e, s.e);
    s.SubInto(s.e, s.e, s.a);
    s.SubInto(s.e, s.e, s.b);
  }

  method DoubleTerms(s: Scratch)
    requires s.Valid() && s.b.v < P && s.c.v < P && s.d.v < P
    modifies s.f, s.g, s.h, s.t1
    ensures s.g.v == Add(s.d.v, s.b.v) && s.f.v == Sub(s.g.v, s.c.v) && s.h.v == Sub(s.d.v, s.b.v)
  {
    hide Add, Mod;
    s.AddInto(s.g, s.d, s.b);
    s.SubInto(s.f, s.g, s.c);
    s.SubInto(s.h, s.d, s.b);
  }

  /** r = 2p, for any aliasing of the two. */
  method Double(s: Scratch, r: EdPoint, p: EdPoint)
    requires s.Valid() && r.Valid() && p.Valid()
    modifies r.Cells(), s.Cells()
    ensures r.Valid() && r.View() == DoubleLaw(old(p.View()))
  {
    hide Mul, Add, Sub, Mod, Assemble, AddD, DoubleE;
    ScratchApart(s, r);
    SquareTerms(s, p);
    CrossTerm(s, p);
    DoubleTerms(s);
    Finish(s, r);
  }
}
