/** Fermat's little theorem, from Euclid's lemma: multiplying by a unit permutes
    the non-zero residues, so their product picks up a power that must be one. */
module Fermat {
  import opened U256
  import opened Seqs
  import opened Primes

  function Raised(a: nat, n: nat): nat {
    if n == 0 then 1 else Product(Raised(a, n - 1), a)
  }

  // ----------------------------------------------------------- congruence

  ghost predicate Same(p: nat, x: nat, y: nat)
    requires p > 0
  {
    x % p == y % p
  }

  lemma SameShift(p: nat, x: nat, k: nat)
    requires p > 0
    ensures Same(p, x + p * k, x)
  {
    ResidueUnique(x + p * k, p, x / p + k, x % p);
  }

  lemma SameProduct(p: nat, x: nat, y: nat, u: nat, w: nat)
    requires p > 0 && Same(p, x, y) && Same(p, u, w)
    ensures Same(p, Product(x, u), Product(y, w))
  {
    ResidueProduct(p, x, u);
    ResidueProduct(p, y, w);
  }

  lemma ResidueProduct(p: nat, x: nat, u: nat)
    requires p > 0
    ensures Same(p, Product(x, u), Product(x % p, u % p))
  {
    Residues(p, x / p, x % p, u / p, u % p);
    assert x == p * (x / p) + x % p && u == p * (u / p) + u % p;
  }

  lemma Residues(p: nat, q: nat, r: nat, s: nat, t: nat)
    requires p > 0
    ensures Same(p, Product(p * q + r, p * s + t), Product(r, t))
  {
    Unfolded(p, q, r, s, t);
    SameShift(p, r * t, p * q * s + q * t + r * s);
  }

  lemma Unfolded(p: nat, q: nat, r: nat, s: nat, t: nat)
    ensures (p * q + r) * (p * s + t) == r * t + p * (p * q * s + q * t + r * s)
  {
    assert (p * q + r) * (p * s + t) == (p * q + r) * (p * s) + (p * q + r) * t;
    assert (p * q + r) * t == p * (q * t) + r * t;
    assert (p * q + r) * (p * s) == p * (p * q * s) + p * (r * s);
  }

  /** What is prime to p cancels. */
  lemma Cancel(p: nat, c: nat, x: nat, y: nat)
    requires IsPrime(p) && c % p != 0 && Same(p, Product(c, x), Product(c, y))
    ensures Same(p, x, y)
  {
    hide IsPrime, Product;
    if x < y {
      CancelLess(p, c, x, y);
    } else if y < x {
      CancelLess(p, c, y, x);
    }
  }

  lemma CancelLess(p: nat, c: nat, x: nat, y: nat)
    requires IsPrime(p) && c % p != 0 && x < y && Same(p, Product(c, x), Product(c, y))
    ensures Same(p, x, y)
  {
    hide Product, IsPrime;
    IsPositive(p);
    ProductOfSum(c, x, y - x);
    Difference(p, Product(c, x), Product(c, y), Product(c, y - x));
    Euclid(p, c, y - x);
    SameShift(p, x, (y - x) / p);
    assert x + p * ((y - x) / p) == y;
  }

  lemma ProductOfSum(c: nat, x: nat, d: nat)
    ensures Product(c, x + d) == Product(c, x) + Product(c, d)
  {
  }

  lemma Difference(p: nat, a: nat, b: nat, d: nat)
    requires p > 0 && Same(p, a, b) && b == a + d
    ensures d % p == 0
  {
    var q, r := a / p, b / p;
    assert a == p * q + a % p && b == p * r + b % p;
    assert d == p * (r - q);
    assert p * q < p * (r + 1);
    MulCancels(p, q, r + 1);
    ResidueUnique(d, p, r - q, 0);
  }

  // --------------------------------------------------- products of sequences

  function All(s: seq<nat>): nat {
    if s == [] then 1 else Product(All(s[..|s| - 1]), s[|s| - 1])
  }

  lemma {:induction false} AllWithout(s: seq<nat>, i: nat)
    requires i < |s|
    ensures All(s) == Product(All(Without(s, i)), s[i])
  {
    var n := |s| - 1;
    if i == n {
      assert Without(s, i) == s[..n];
    } else {
      AllWithout(s[..n], i);
      assert Without(s, i)[..n - 1] == Without(s[..n], i);
      assert Without(s, i)[n - 1] == s[n];
      Rotate(All(Without(s[..n], i)), s[i], s[n]);
    }
  }

  lemma Rotate(a: nat, b: nat, c: nat)
    ensures Product(Product(a, b), c) == Product(Product(a, c), b)
  {
  }

  /** A product does not depend on the order of its factors. */
  lemma {:induction false} AllOfBag(a: seq<nat>, b: seq<nat>)
    requires multiset(a) == multiset(b)
    ensures All(a) == All(b)
    decreases |a|
  {
    EqualBagsEqualLengths(a, b);
    if a != [] {
      var i := PeelEqualBags(a, b);
      AllOfBag(a[..|a| - 1], Without(b, i));
      AllWithout(b, i);
    }
  }

  // --------------------------------------------------- distinct sequences

  predicate Distinct(s: seq<nat>) {
    forall i, j :: 0 <= i < j < |s| ==> s[i] != s[j]
  }

  predicate Within(s: seq<nat>, n: nat) {
    forall i :: 0 <= i < |s| ==> 1 <= s[i] <= n
  }

  lemma {:induction false} DistinctCount(s: seq<nat>, x: nat)
    requires Distinct(s)
    ensures multiset(s)[x] == if x in s then 1 else 0
  {
    if s != [] {
      var n := |s| - 1;
      DistinctCount(s[..n], x);
      assert s == s[..n] + [s[n]];
    }
  }

  lemma {:induction false} DistinctSize(s: seq<nat>)
    requires Distinct(s)
    ensures |Elements(s)| == |s|
  {
    if s == [] {
      assert Elements(s) == {};
    } else {
      var n := |s| - 1;
      DistinctSize(s[..n]);
      assert s[n] !in Elements(s[..n]);
      assert Elements(s) == Elements(s[..n]) + {s[n]};
    }
  }

  lemma SubsetOfSameSize(a: set<nat>, b: set<nat>)
    requires a <= b && |a| == |b|
    ensures a == b
  {
    assert |b - a| == |b| - |a|;
    assert b == a + (b - a);
  }

  /** Two distinct sequences of one length, the second running through all of
      1..n: one is a permutation of the other. */
  lemma PigeonHole(s: seq<nat>, n: nat)
    requires |s| == n && Distinct(s) && Within(s, n)
    ensures multiset(s) == multiset(Upto(n))
  {
    UptoIs(n);
    var u := Upto(n);
    assert Distinct(u);
    DistinctSize(s);
    DistinctSize(u);
    forall x | x in Elements<nat>(s)
      ensures x in Elements<nat>(u)
    {
      var i :| 0 <= i < |s| && s[i] == x;
      assert u[x - 1] == x;
      assert x in u;
    }
    assert Elements<nat>(s) <= Elements<nat>(u);
    SubsetOfSameSize(Elements<nat>(s), Elements<nat>(u));
    forall x: nat
      ensures multiset(s)[x] == multiset(u)[x]
    {
      DistinctCount(s, x);
      DistinctCount(u, x);
      assert x in s <==> x in Elements(s);
      assert x in u <==> x in Elements(u);
    }
  }

  function Upto(n: nat): seq<nat> {
    if n == 0 then [] else Upto(n - 1) + [n]
  }

  lemma {:induction false} UptoIs(n: nat)
    ensures |Upto(n)| == n && (forall i :: 0 <= i < n ==> Upto(n)[i] == i + 1)
  {
    if n > 0 {
      UptoIs(n - 1);
    }
  }

  // --------------------------------------------------- multiplying by a unit

  /** a, 2a, ..., na, reduced. */
  function Multiples(p: nat, a: nat, n: nat): seq<nat>
    requires p > 0
  {
    if n == 0 then [] else Multiples(p, a, n - 1) + [Product(a, n) % p]
  }

  lemma {:induction false} MultiplesAre(p: nat, a: nat, n: nat)
    requires p > 0
    ensures |Multiples(p, a, n)| == n && (forall i :: 0 <= i < n ==> Multiples(p, a, n)[i] == Product(a, i + 1) % p)
  {
    if n > 0 {
      MultiplesAre(p, a, n - 1);
    }
  }

  lemma MultiplesPermute(p: nat, a: nat)
    requires IsPrime(p) && a % p != 0
    ensures multiset(Multiples(p, a, p - 1)) == multiset(Upto(p - 1))
  {
    hide IsPrime, Product, Multiples;
    IsPositive(p);
    var n := p - 1;
    MultiplesAre(p, a, n);
    var s := Multiples(p, a, n);
    forall i | 0 <= i < n
      ensures 1 <= s[i] <= n
    {
      SmallMod(i + 1, p);
      MultipleIsUnit(p, a, i + 1);
    }
    forall i, j | 0 <= i < j < n
      ensures s[i] != s[j]
    {
      SmallMod(i + 1, p);
      SmallMod(j + 1, p);
      if s[i] == s[j] {
        Cancel(p, a, i + 1, j + 1);
      }
    }
    PigeonHole(s, n);
  }

  lemma IsPositive(p: nat)
    requires IsPrime(p)
    ensures p > 1
  {
  }

  lemma MultipleIsUnit(p: nat, a: nat, b: nat)
    requires IsPrime(p) && a % p != 0 && b % p != 0
    ensures 1 <= Product(a, b) % p < p
  {
    hide Product;
    if Product(a, b) % p == 0 {
      Euclid(p, a, b);
    }
  }

  /** Their product is the power times the product of 1..n. */
  lemma {:induction false} MultiplesProduct(p: nat, a: nat, n: nat)
    requires p > 0
    ensures Same(p, All(Multiples(p, a, n)), Product(Raised(a, n), All(Upto(n))))
  {
    if n == 0 {
      OneTimes(1);
    } else {
      hide Product, Raised, All, Multiples, Upto, Same;
      MultiplesProduct(p, a, n - 1);
      LastFactor(p, All(Multiples(p, a, n - 1)), Raised(a, n - 1), All(Upto(n - 1)), a, n);
      RaisedStep(a, n);
      AllStep(p, a, n);
    }
  }

  lemma RaisedStep(a: nat, n: nat)
    requires n > 0
    ensures Raised(a, n) == Product(Raised(a, n - 1), a)
  {
    hide Product;
  }

  lemma AllStep(p: nat, a: nat, n: nat)
    requires p > 0 && n > 0
    ensures All(Multiples(p, a, n)) == Product(All(Multiples(p, a, n - 1)), Product(a, n) % p)
    ensures All(Upto(n)) == Product(All(Upto(n - 1)), n)
  {
    hide Product;
    MultiplesAre(p, a, n - 1);
    UptoIs(n - 1);
    assert Multiples(p, a, n)[..n - 1] == Multiples(p, a, n - 1);
    assert Upto(n)[..n - 1] == Upto(n - 1);
  }

  lemma LastFactor(p: nat, m: nat, r: nat, u: nat, a: nat, n: nat)
    requires p > 0 && Same(p, m, Product(r, u))
    ensures Same(p, Product(m, Product(a, n) % p), Product(Product(r, a), Product(u, n)))
  {
    ResidueOf(p, Product(a, n));
    SameProduct(p, m, Product(r, u), Product(a, n) % p, Product(a, n));
    Interleave(r, u, a, n);
  }

  lemma ResidueOf(p: nat, x: nat)
    requires p > 0
    ensures Same(p, x % p, x)
  {
    SmallMod(x % p, p);
  }

  lemma Interleave(r: nat, u: nat, a: nat, n: nat)
    ensures Product(Product(r, u), Product(a, n)) == Product(Product(r, a), Product(u, n))
  {
    assert (r * u) * (a * n) == r * (u * (a * n));
    assert u * (a * n) == a * (u * n);
    assert r * (a * (u * n)) == (r * a) * (u * n);
  }

  lemma {:induction false} UptoIsUnit(p: nat, n: nat)
    requires IsPrime(p) && n < p
    ensures All(Upto(n)) % p != 0
  {
    if n == 0 {
      SmallMod(1, p);
    } else {
      UptoIsUnit(p, n - 1);
      AllStep(p, 1, n);
      SmallMod(n, p);
      MultipleIsUnit(p, All(Upto(n - 1)), n);
    }
  }

  /** Fermat's little theorem. */
  lemma LittleTheorem(p: nat, a: nat)
    requires IsPrime(p) && a % p != 0
    ensures Raised(a, p - 1) % p == 1
  {
    hide IsPrime, Product, Raised, All, Multiples;
    IsPositive(p);
    var f := All(Upto(p - 1));
    UptoIsUnit(p, p - 1);
    MultiplesPermute(p, a);
    AllOfBag(Multiples(p, a, p - 1), Upto(p - 1));
    MultiplesProduct(p, a, p - 1);
    OneTimes(f);
    ProductSwap(Raised(a, p - 1), f);
    ProductSwap(1, f);
    Cancel(p, f, Raised(a, p - 1), 1);
    SmallMod(1, p);
  }
}
