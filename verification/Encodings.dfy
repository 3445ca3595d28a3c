/** Compressed points (core/crypto/edwards.go, section 5.1.3 of RFC 8032): the
    decompressor, the byte-level canonicality filter, and their agreement.

    Extracting the candidate root is an exponentiation; it is a parameter here,
    because nothing below depends on which root is tried. */
module Encodings {
  import opened U256
  import opened Bytes
  import opened Primes
  import opened Fields
  import opened Curve
  import opened Doubling

  const SQRT_M1: felt := 0x2b8324804fc1df0b2b4d00993dfbd7a72f431806ad2fe478c4ee1b274a0ea0b0

  lemma RootOfMinusOne()
    ensures SQRT_M1 * SQRT_M1 % P == P - 1
  {
  }

  lemma RootSquares(s: nat)
    requires s == SQRT_M1
    ensures Mod(Times(s, s)) == Mod(-1)
  {
    RootOfMinusOne();
    hide Mod, Times;
    TimesIs(s, s);
    ModIs(Times(s, s));
    ModIs(-1);
  }

  // ------------------------------------------------------------ the bytes

  function SignBit(b: seq<byte>): nat
    requires |b| == 32
  {
    b[31] / 128
  }

  /** The thirty-two bytes with the sign bit cleared. */
  function YBytes(b: seq<byte>): (r: seq<byte>)
    requires |b| == 32
    ensures |r| == 32
  {
    b[..31] + [b[31] % 128]
  }

  function YValue(b: seq<byte>): nat
    requires |b| == 32
  {
    LittleEndian(YBytes(b))
  }

  /** The one right spelling of a point: y reduced and little-endian, the parity
      of x in the top bit. */
  function EncodePoint(x: felt, y: felt): (b: seq<byte>)
    ensures |b| == 32
  {
    var e := EncodeLittle(y, 32);
    e[..31] + [(e[31] % 128) + 128 * (x % 2)]
  }

  // ------------------------------------------------------------ decompression

  datatype Decoded = NotAPoint | Decoded(point: Point, canonical: bool)

  /** x^2 = u/v on the curve. */
  function RatioU(y: felt): felt {
    Sub(Mul(y, y), 1)
  }

  function RatioV(y: felt): felt {
    Add(Mul(D, Mul(y, y)), 1)
  }

  function Candidate(u: felt, v: felt, power: felt -> felt): felt {
    var v3 := Mul(Mul(v, v), v);
    var v7 := Mul(Mul(v3, v3), v);
    Mul(power(Mul(u, v7)), Mul(u, v3))
  }

  datatype Root = NoRoot | Root(x: felt)

  /** The candidate, the candidate turned by the root of -1, or neither. */
  function CheckedRoot(u: felt, v: felt, x: felt): Root {
    var check := Mul(Mul(x, x), v);
    if check == u then Root(x)
    else if check == Mod(-(u as int)) then Root(Mul(x, SQRT_M1))
    else NoRoot
  }

  function FindRoot(u: felt, v: felt, power: felt -> felt): Root {
    CheckedRoot(u, v, Candidate(u, v, power))
  }

  function WithSign(x: felt, sign: nat): felt {
    if x == 0 || x % 2 == sign then x else P - x
  }

  function Decode(b: seq<byte>, power: felt -> felt): Decoded {
    if |b| != 32 then NotAPoint
    else
      var y := Mod(YValue(b));
      match FindRoot(RatioU(y), RatioV(y), power)
      case NoRoot => NotAPoint
      case Root(x0) =>
        var x := WithSign(x0, SignBit(b));
        Decoded(Point(x, y, 1, Mul(x, y)), YValue(b) < P && !(x0 == 0 && SignBit(b) == 1))
  }

  // --------------------------------------------------- what a decoded point is

  /** Both branches of the root search end with v*x^2 = u. */
  lemma RootSolves(u: felt, v: felt, c: felt)
    requires CheckedRoot(u, v, c).Root?
    ensures var x := CheckedRoot(u, v, c).x; Mul(Mul(x, x), v) == u
  {
    hide Mod, Mul;
    if Mul(Mul(c, c), v) != u {
      TurnedRoot(c, v);
      ModNegTwice(u);
    }
  }

  lemma ModNegTwice(u: felt)
    ensures Mod(-(Mod(-(u as int)) as int)) == u
  {
    ReducedMod(u);
    hide Mod;
    ModNeg(-(u as int));
  }

  /** Turning a candidate by the root of -1 negates v*x^2. */
  lemma TurnedRoot(c: felt, v: felt)
    ensures
      var x := Mul(c, SQRT_M1);
      Mul(Mul(x, x), v) == Mod(-(Mul(Mul(c, c), v) as int))
  {
    var s: nat := SQRT_M1;
    RootSquares(s);
    ReducedMod(v);
    hide Mod, Times;
    var cs, k := Times(c, s), Times(Times(c, c), v);
    ModMul(cs, cs);
    ModMul(Times(cs, cs), v);
    ModMul(Times(c, c), v);
    TurnedSquare(c, s, v);
    ModScale(k, Times(s, s), -1);
    TimesIs(k, -1);
    ModNeg(k);
  }

  lemma TurnedSquare(c: int, s: int, v: int)
    ensures Times(Times(Times(c, s), Times(c, s)), v) == Times(Times(Times(c, c), v), Times(s, s))
  {
    hide Times;
    TimesIs(c, s);
    TimesIs(c, c);
    TimesIs(s, s);
    TimesIs(c * s, c * s);
    TimesIs(c * s * (c * s), v);
    TimesIs(c * c, v);
    TimesIs(c * c * v, s * s);
    assert c * s * (c * s) == c * c * (s * s);
    assert c * c * (s * s) * v == c * c * v * (s * s);
  }

  lemma SignKeepsSquare(x: felt, sign: nat)
    ensures Mul(WithSign(x, sign), WithSign(x, sign)) == Mul(x, x)
    ensures WithSign(x, sign) == 0 <==> x == 0
  {
    hide Mul;
    if x != 0 {
      NegatedSquare(x);
    }
  }

  lemma NegatedSquare(x: felt)
    requires x > 0
    ensures Mul(P - x, P - x) == Mul(x, x)
  {
    hide Mod, Times;
    TimesIs(P - x, P - x);
    TimesIs(x, x);
    Expand(P, x);
    ModShift(x * x, P - 2 * x);
  }

  lemma Expand(p: int, x: int)
    ensures (p - x) * (p - x) == x * x + p * (p - 2 * x)
  {
    assert (p - x) * (p - x) == p * p - 2 * (p * x) + x * x;
    assert p * (p - 2 * x) == p * p - 2 * (p * x);
  }

  // ------------------------------------------------- from v*x^2 = u to the curve

  lemma RatiosAre(y: felt)
    ensures RatioV(y) == Mod(Times(D, Times(y, y)) + 1)
    ensures RatioU(y) == Mod(Times(y, y) - 1)
  {
    ReducedMod(D);
    ReducedMod(1);
    hide Mod, Times;
    ModMul(D, Times(y, y));
    ModAdd(Times(D, Times(y, y)), 1);
    ModSub(Times(y, y), 1);
  }

  /** The curve equation over the integers. */
  lemma RatioIsCurve(xx: int, yy: int)
    requires Mod(Times(xx, Times(D, yy) + 1)) == Mod(yy - 1)
    ensures Mod(yy - xx) == Mod(1 + Times(D, Times(xx, yy)))
  {
    hide Mod, Times;
    TimesIs(D, yy);
    TimesIs(xx, D * yy + 1);
    TimesIs(xx, yy);
    TimesIs(D, xx * yy);
    Reassociate(xx, yy, D);
    var left := Times(xx, Times(D, yy) + 1);
    ModSame(left, yy - 1);
    ModShift(yy - xx, left / P - (yy - 1) / P);
  }

  lemma Reassociate(xx: int, yy: int, d: int)
    ensures xx * (d * yy + 1) == d * (xx * yy) + xx
  {
    assert xx * (d * yy) == d * (xx * yy);
  }

  lemma SquareOfProduct(x: felt, y: felt)
    ensures Mul(Mul(x, y), Mul(x, y)) == Mod(Times(Times(x, x), Times(y, y)))
  {
    hide Mod, Times;
    ModMul(Times(x, y), Times(x, y));
    Regroup(x, y);
  }

  lemma Regroup(x: int, y: int)
    ensures Times(Times(x, y), Times(x, y)) == Times(Times(x, x), Times(y, y))
  {
    hide Times;
    TimesIs(x, y);
    TimesIs(x, x);
    TimesIs(y, y);
    TimesIs(x * y, x * y);
    TimesIs(x * x, y * y);
    assert x * y * (x * y) == x * x * (y * y);
  }

  lemma OneTimesFelt(t: felt)
    ensures Mul(1, t) == t
  {
    ReducedMod(t);
    hide Mod, Times;
    TimesIs(1, t);
  }

  /** The equation in extended coordinates, for z = 1. */
  lemma AffineForm(x: felt, y: felt, n: int)
    requires Mul(Mul(x, y), Mul(x, y)) == Mod(n)
    requires Sub(Mul(y, y), Mul(x, x)) == Mod(1 + Times(D, n))
    ensures OnCurve(Point(x, y, 1, Mul(x, y)))
  {
    ReducedMod(D);
    ReducedMod(1);
    hide Mod, Times, Sub;
    OneTimesFelt(Mul(x, y));
    OneTimesFelt(1);
    ModMul(D, n);
    ModAdd(1, Times(D, n));
  }

  lemma AffineOnCurve(x: felt, y: felt)
    requires Mul(Mul(x, x), RatioV(y)) == RatioU(y)
    ensures OnCurve(Point(x, y, 1, Mul(x, y)))
  {
    hide Mod, Times, RatioU, RatioV, OnCurve;
    var xx, yy := Times(x, x), Times(y, y);
    RatiosAre(y);
    ModMul(xx, Times(D, yy) + 1);
    RatioIsCurve(xx, yy);
    SquareOfProduct(x, y);
    ModSub(yy, xx);
    AffineForm(x, y, Times(xx, yy));
  }

  /** Whatever decodes is a point of the curve, with reduced coordinates. */
  lemma DecodedIsOnCurve(b: seq<byte>, power: felt -> felt)
    requires Decode(b, power).Decoded?
    ensures OnCurve(Decode(b, power).point) && Decode(b, power).point.z == 1
  {
    hide Mod, Mul, FindRoot, RatioU, RatioV, OnCurve;
    var y := Mod(YValue(b));
    var u, v := RatioU(y), RatioV(y);
    FoundRoot(u, v, power);
    var x0 := FindRoot(u, v, power).x;
    var x := WithSign(x0, SignBit(b));
    SignKeepsSquare(x0, SignBit(b));
    AffineOnCurve(x, y);
  }

  // -------------------------------------------------- zero x, byte by byte

  /** A checked root is zero exactly when u is. */
  lemma ZeroRoot(u: felt, v: felt, c: felt)
    requires CheckedRoot(u, v, c).Root? && (u == 0 ==> c == 0)
    ensures CheckedRoot(u, v, c).x == 0 <==> u == 0
  {
    hide Mod, Mul;
    RootSolves(u, v, c);
    ZeroTimes(0);
    ZeroTimes(v);
    ZeroTimes(SQRT_M1);
  }

  lemma FoundRoot(u: felt, v: felt, power: felt -> felt)
    ensures FindRoot(u, v, power).Root? ==>
              var x := FindRoot(u, v, power).x; Mul(Mul(x, x), v) == u && (x == 0 <==> u == 0)
  {
    hide Mod, Mul, Candidate, CheckedRoot;
    var c := Candidate(u, v, power);
    ZeroCandidate(v, power);
    if CheckedRoot(u, v, c).Root? {
      RootSolves(u, v, c);
      ZeroRoot(u, v, c);
    }
  }

  lemma ZeroCandidate(v: felt, power: felt -> felt)
    ensures Candidate(0, v, power) == 0
  {
    hide Mul, Mod;
    var v3 := Mul(Mul(v, v), v);
    var v7 := Mul(Mul(v3, v3), v);
    ZeroTimes(v3);
    TimesZero(power(Mul(0, v7)));
  }

  lemma ZeroTimes(a: felt)
    ensures Mul(0, a) == 0
  {
    ReducedMod(0);
    hide Mod, Times;
    TimesIs(0, a);
  }

  lemma TimesZero(a: felt)
    ensures Mul(a, 0) == 0
  {
    ReducedMod(0);
    hide Mod, Times;
    TimesIs(a, 0);
  }

  /** y^2 = 1 has the two roots 1 and -1 and no other, the modulus being prime. */
  lemma UnitSquares(y: felt)
    requires IsPrime(P)
    ensures RatioU(y) == 0 <==> y == 1 || y == P - 1
  {
    RatiosAre(y);
    hide Mod, Times, RatioU;
    if y == P - 1 {
      NegatedSquare(1);
      OneTimesFelt(1);
      SquareLessOne(Times(y, y));
    } else if y == 1 {
      OneTimesFelt(1);
      SquareLessOne(Times(1, 1));
    } else if y == 0 {
      TimesIs(0, 0);
      ModIs(-1);
    } else {
      NotAUnit(y);
    }
  }

  lemma SquareLessOne(n: int)
    requires Mod(n) == 1
    ensures Mod(n - 1) == 0
  {
    ReducedMod(0);
    ReducedMod(1);
    hide Mod;
    ModSub(n, 1);
  }

  lemma NotAUnit(y: felt)
    requires IsPrime(P) && 1 < y < P - 1
    ensures Mod(Times(y, y) - 1) != 0
  {
    hide Mod, Times;
    TimesIs(y, y);
    ModIs(y * y - 1);
    assert Product(y - 1, y + 1) == y * y - 1;
    SmallMod(y - 1, P);
    SmallMod(y + 1, P);
    if Product(y - 1, y + 1) % P == 0 {
      Euclid(P, y - 1, y + 1);
    }
  }

  /** A decoded x is zero exactly for the two fixed values of y. */
  lemma ZeroXIsFixed(b: seq<byte>, power: felt -> felt)
    requires IsPrime(P) && Decode(b, power).Decoded?
    ensures Decode(b, power).point.x == 0 <==> Decode(b, power).point.y in {1, P - 1}
  {
    hide Mod, FindRoot, RatioU, RatioV;
    var y := Mod(YValue(b));
    FoundRoot(RatioU(y), RatioV(y), power);
    UnitSquares(y);
    SignKeepsSquare(FindRoot(RatioU(y), RatioV(y), power).x, SignBit(b));
  }

  // ------------------------------------------------------------- the filter

  /** What the byte filter means. */
  predicate CanonicalBytes(b: seq<byte>) {
    |b| == 32 && YValue(b) < P && !(SignBit(b) == 1 && YValue(b) in {1, P - 1})
  }

  lemma SameBytes(a: seq<byte>, n: nat)
    requires |a| == 32 && n < TWO256
    ensures a == EncodeLittle(n, 32) <==> LittleEndian(a) == n
  {
    PowerIs();
    LittleDecodes(a);
    LittleRoundTrip(n, 32);
  }

  /** The filter, without decompressing: a comparison with p from the top byte
      down, and two fixed encodings. */
  method IsCanonicalEncoding(b: seq<byte>) returns (ok: bool)
    ensures ok == CanonicalBytes(b)
  {
    if |b| != 32 {
      return false;
    }
    hide EncodeLittle, LittleEndian;
    var sign := SignBit(b);
    var y := YBytes(b);
    var top, one, minusOne := EncodeLittle(P, 32), EncodeLittle(1, 32), EncodeLittle(P - 1, 32);
    SameBytes(top, P);
    SameBytes(y, P);
    SameBytes(y, 1);
    SameBytes(y, P - 1);
    var less := false;
    var i := 31;
    while i >= 0
      invariant -1 <= i <= 31
      invariant y[i + 1..] == top[i + 1..] && !less
    {
      if y[i] != top[i] {
        less := y[i] < top[i];
        if less {
          HighByteDecides(y, top, i);
        } else {
          HighByteDecides(top, y, i);
        }
        break;
      }
      i := i - 1;
    }
    if !less {
      return false;
    }
    return !(sign == 1 && (y == one || y == minusOne));
  }

  /** Filter and decompressor agree on every encoding that decodes. */
  lemma FilterAgrees(b: seq<byte>, power: felt -> felt)
    requires IsPrime(P) && Decode(b, power).Decoded?
    ensures Decode(b, power).canonical <==> CanonicalBytes(b)
  {
    hide FindRoot, RatioU, RatioV, YValue;
    ZeroXIsFixed(b, power);
    var y := Mod(YValue(b));
    SignKeepsSquare(FindRoot(RatioU(y), RatioV(y), power).x, SignBit(b));
    if YValue(b) < P {
      SmallIsReduced(YValue(b));
    }
  }

  // ----------------------------------------------------------- one spelling

  lemma TopByte(y: felt)
    ensures EncodeLittle(y, 32)[31] < 128
  {
    hide EncodeLittle;
    PowerIs();
    var e := EncodeLittle(y, 32);
    LittleRoundTrip(y, 32);
    if e[31] >= 128 {
      HighByte(e);
    }
  }

  lemma {:induction false} HighByte(e: seq<byte>)
    requires e != []
    ensures LittleEndian(e) >= e[|e| - 1] * Power(|e| - 1)
  {
    if |e| > 1 {
      HighByte(e[1..]);
      assert e[1..][|e| - 2] == e[|e| - 1];
      ScaleUp(LittleEndian(e[1..]), e[|e| - 1], Power(|e| - 2));
    }
  }

  lemma ScaleUp(n: nat, d: nat, w: nat)
    requires n >= d * w
    ensures 256 * n >= d * (256 * w)
  {
    assert d * (256 * w) == 256 * (d * w);
  }

  lemma SplitByte(c: byte, t: byte, bit: nat)
    requires t < 128 && bit < 2
    ensures c == t + 128 * bit <==> c % 128 == t && c / 128 == bit
  {
  }

  /** An encoding re-encodes to itself exactly when its y is reduced and its sign
      is the parity of x. */
  lemma ReEncodes(b: seq<byte>, x: felt, y: felt)
    requires |b| == 32 && y == Mod(YValue(b))
    ensures EncodePoint(x, y) == b <==> YValue(b) < P && SignBit(b) == x % 2
  {
    hide EncodeLittle, LittleEndian;
    var e := EncodeLittle(y, 32);
    TopByte(y);
    SameBytes(YBytes(b), y);
    SplitByte(b[31], e[31], x % 2);
    assert b == b[..31] + [b[31]];
    assert e == e[..31] + [e[31]];
    assert EncodePoint(x, y)[..31] == e[..31] && YBytes(b)[..31] == b[..31];
    if YValue(b) < P {
      SmallIsReduced(YValue(b));
    }
  }

  /** Canonical means exactly this: encoding the decoded point gives the bytes
      back.  A point has one such encoding. */
  lemma CanonicalIffReEncodes(b: seq<byte>, power: felt -> felt)
    requires Decode(b, power).Decoded?
    ensures
      var d := Decode(b, power);
      d.canonical <==> EncodePoint(d.point.x, d.point.y) == b
  {
    hide FindRoot, RatioU, RatioV, YValue, EncodePoint;
    var y := Mod(YValue(b));
    var x0 := FindRoot(RatioU(y), RatioV(y), power).x;
    ReEncodes(b, WithSign(x0, SignBit(b)), y);
    SignedParity(x0, SignBit(b));
  }

  lemma SignedParity(x: felt, sign: nat)
    requires sign < 2
    ensures WithSign(x, sign) % 2 == sign <==> !(x == 0 && sign == 1)
  {
  }

  // ------------------------------------------------ decompression, in place

  method NumeratorFrom(s: Scratch, y2: Int, one: Int) returns (u: Int)
    requires s.Valid() && y2.v < P && one.v == 1 && y2 !in s.Cells() && one !in s.Cells()
    modifies s.t1
    ensures fresh(u) && u.v == Sub(y2.v, 1)
  {
    hide Mod;
    u := new Int(0, -1);
    s.SubInto(u, y2, one);
  }

  method DenominatorFrom(s: Scratch, y2: Int, one: Int) returns (v: Int)
    requires s.Valid() && y2.v < P && one.v == 1 && y2 !in s.Cells() && one !in s.Cells()
    modifies s.t0, s.t1
    ensures fresh(v) && v.v == Add(Mul(D, y2.v), 1)
  {
    hide Mul, Add;
    MulCommutes(y2.v, D);
    v := new Int(0, -1);
    s.MulConst(v, y2, D);
    s.AddInto(v, v, one);
  }

  /** u and v in fresh variables, through the shared scratch. */
  method CurveRatio(s: Scratch, y: Int) returns (u: Int, v: Int)
    requires s.Valid() && y.v < P && y !in s.Cells()
    modifies s.t0, s.t1
    ensures fresh(u) && fresh(v) && u != v && u.v == RatioU(y.v) && v.v == RatioV(y.v)
  {
    hide Mul, Mod, Add;
    var one := new Int(1, -1);
    var y2 := new Int(0, -1);
    s.MulInto(y2, y, y);
    u := NumeratorFrom(s, y2, one);
    v := DenominatorFrom(s, y2, one);
  }

  method OddPowers(s: Scratch, v: Int) returns (v3: Int, v7: Int)
    requires s.Valid() && v.v < P && v !in s.Cells()
    modifies s.t0
    ensures fresh(v3) && fresh(v7) && v3 != v7
    ensures v3.v == Mul(Mul(v.v, v.v), v.v) && v7.v == Mul(Mul(v3.v, v3.v), v.v)
  {
    hide Mul;
    v3 := new Int(0, -1);
    s.MulInto(v3, v, v);
    s.MulInto(v3, v3, v);
    v7 := new Int(0, -1);
    s.MulInto(v7, v3, v3);
    s.MulInto(v7, v7, v);
  }

  method TryRoot(s: Scratch, u: Int, v: Int, power: felt -> felt) returns (x: Int)
    requires s.Valid() && u.v < P && v.v < P && u !in s.Cells() && v !in s.Cells()
    modifies s.t0
    ensures fresh(x) && x.v == Candidate(u.v, v.v, power)
  {
    hide Mul;
    var v3, v7 := OddPowers(s, v);
    x := new Int(0, -1);
    s.MulInto(x, u, v7);
    x.v := power(x.v);
    var uv3 := new Int(0, -1);
    s.MulInto(uv3, u, v3);
    s.MulInto(x, x, uv3);
  }

  /** The candidate checked, and turned by the root of -1 if that fixes it. */
  method CheckRoot(s: Scratch, x: Int, u: Int, v: Int) returns (ok: bool)
    requires s.Valid() && x.v < P && u.v < P && v.v < P
    requires x !in s.Cells() && u !in s.Cells() && v !in s.Cells() && x != u && x != v
    modifies s.t0, s.t1, x
    ensures x.v < P
    ensures
      var check := Mul(Mul(old(x.v), old(x.v)), v.v);
      if check == u.v then ok && x.v == old(x.v)
      else if check == Mod(-(u.v as int)) then ok && x.v == Mul(old(x.v), SQRT_M1)
      else !ok
  {
    hide Mul, Mod;
    var check := new Int(0, -1);
    s.MulInto(check, x, x);
    s.MulInto(check, check, v);
    var negU := new Int(0, -1);
    s.NegInto(negU, u);
    if check.v == u.v {
      return true;
    } else if check.v == negU.v {
      s.MulConst(x, x, SQRT_M1);
      return true;
    }
    return false;
  }

  method RootInto(s: Scratch, y: Int, power: felt -> felt) returns (ok: bool, x: Int)
    requires s.Valid() && y.v < P && y !in s.Cells()
    modifies s.t0, s.t1
    ensures fresh(x) && x.v < P
    ensures FindRoot(RatioU(y.v), RatioV(y.v), power) == if ok then Root(x.v) else NoRoot
  {
    hide Mul, RatioU, RatioV, Candidate;
    var u, v := CurveRatio(s, y);
    x := TryRoot(s, u, v, power);
    ok := CheckRoot(s, x, u, v);
  }

  /** Decompression as the source runs it. */
  method DecodeEdPoint(b: seq<byte>, power: felt -> felt) returns (d: Decoded)
    ensures d == Decode(b, power)
  {
    hide Mul, Mod, RatioU, RatioV, FindRoot, LittleEndian;
    if |b| != 32 {
      return NotAPoint;
    }
    var sign := SignBit(b);
    var yEnc := YValue(b);
    var canonical := yEnc < P;
    var y := new Int(Mod(yEnc), -1);
    var s := new Scratch();
    var ok, x := RootInto(s, y, power);
    if !ok {
      return NotAPoint;
    }
    if x.v == 0 {
      if sign == 1 {
        canonical := false;
      }
    } else if x.v % 2 != sign {
      x.v := P - x.v;
    }
    var t := new Int(0, -1);
    s.MulInto(t, x, y);
    return Decoded(Point(x.v, y.v, 1, t.v), canonical);
  }
}
