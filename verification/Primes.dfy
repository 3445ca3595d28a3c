/** Euclid's lemma, from the definition of a prime. */
module Primes {
  import opened U256

  ghost predicate IsPrime(p: nat) {
    p > 1 && forall d: nat :: 1 < d < p ==> p % d != 0
  }

  ghost predicate Annihilates(p: nat, b: nat, m: nat)
    requires p > 0
  {
    Product(m, b) % p == 0
  }

  lemma DividesDifference(p: nat, x: nat, y: nat)
    requires p > 0 && x % p == 0 && y % p == 0 && y <= x
    ensures (x - y) % p == 0
  {
    var q, r := x / p, y / p;
    assert x == p * q && y == p * r;
    assert x - y == p * (q - r);
    assert p * r < p * (q + 1);
    MulCancels(p, r, q + 1);
    ResidueUnique(x - y, p, q - r, 0);
  }

  lemma DividesMultiple(p: nat, x: nat, k: nat)
    requires p > 0 && x % p == 0
    ensures Product(k, x) % p == 0
  {
    var q := x / p;
    assert x == p * q;
    assert k * x == p * (k * q);
    ResidueUnique(k * x, p, k * q, 0);
  }

  /** The least multiplier that kills b divides every multiplier that does. */
  lemma LeastDivides(p: nat, b: nat, m: nat, n: nat)
    requires p > 0 && m > 0 && Annihilates(p, b, m) && Annihilates(p, b, n)
    requires forall k: nat :: 0 < k < m ==> !Annihilates(p, b, k)
    ensures n % m == 0
  {
    var q, r := n / m, n % m;
    RemainderProduct(n, m, q, r, b);
    DividesMultiple(p, Product(m, b), q);
    DividesDifference(p, Product(n, b), Product(q, Product(m, b)));
    assert Annihilates(p, b, r);
  }

  lemma RemainderProduct(n: nat, m: nat, q: nat, r: nat, b: nat)
    requires n == m * q + r
    ensures Product(q, Product(m, b)) <= Product(n, b)
    ensures Product(n, b) - Product(q, Product(m, b)) == Product(r, b)
  {
    assert (m * q + r) * b == q * (m * b) + r * b;
  }

  lemma LeastMultiplier(p: nat, b: nat, top: nat) returns (m: nat)
    requires p > 0 && top > 0 && Annihilates(p, b, top)
    ensures 0 < m <= top && Annihilates(p, b, m)
    ensures forall k: nat :: 0 < k < m ==> !Annihilates(p, b, k)
  {
    hide Annihilates;
    if exists k: nat :: 0 < k < top && Annihilates(p, b, k) {
      var k: nat :| 0 < k < top && Annihilates(p, b, k);
      m := LeastMultiplier(p, b, k);
    } else {
      m := top;
    }
  }

  /** A prime that divides a product divides a factor. */
  lemma Euclid(p: nat, a: nat, b: nat)
    requires IsPrime(p) && Product(a, b) % p == 0
    ensures a % p == 0 || b % p == 0
  {
    hide Product;
    SelfAnnihilates(p, b);
    var m := LeastMultiplier(p, b, p);
    LeastDivides(p, b, m, p);
    LeastDivides(p, b, m, a);
    if m == 1 {
      OneTimes(b);
    }
  }

  lemma SelfAnnihilates(p: nat, b: nat)
    requires p > 0
    ensures Annihilates(p, b, p)
  {
    ResidueUnique(p * b, p, b, 0);
  }

  lemma OneTimes(b: nat)
    ensures Product(1, b) == b
  {
  }
}
