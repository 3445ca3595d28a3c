/** Three-way comparisons, and their lexicographic extension to sequences. */
module Orders {
  function CmpInt(a: int, b: int): int {
    if a < b then -1 else if a > b then 1 else 0
  }

  /** Walk two sequences past their common prefix and let the first difference
      decide, whatever it says; a proper prefix is the smaller one. */
  function Lex<T(==)>(cmp: (T, T) -> int, a: seq<T>, b: seq<T>): int {
    if a == [] || b == [] then CmpInt(|a|, |b|)
    else if a[0] == b[0] then Lex(cmp, a[1..], b[1..])
    else cmp(a[0], b[0])
  }

  /** A strict total order on the members of a class. */
  ghost predicate OrdersOn<T(!new)>(cmp: (T, T) -> int, ok: T -> bool) {
    && (forall x, y :: ok(x) && ok(y) ==> cmp(x, y) == -cmp(y, x))
    && (forall x, y :: ok(x) && ok(y) ==> (cmp(x, y) == 0 <==> x == y))
    && (forall x, y, z :: ok(x) && ok(y) && ok(z) && cmp(x, y) < 0 && cmp(y, z) < 0 ==> cmp(x, z) < 0)
  }

  ghost predicate Over<T(!new)>(a: seq<T>, ok: T -> bool) {
    forall i :: 0 <= i < |a| ==> ok(a[i])
  }

  lemma {:induction false} LexAntisymmetric<T(!new)>(cmp: (T, T) -> int, ok: T -> bool, a: seq<T>, b: seq<T>)
    requires OrdersOn(cmp, ok) && Over(a, ok) && Over(b, ok)
    ensures Lex(cmp, a, b) == -Lex(cmp, b, a)
  {
    if a != [] && b != [] && a[0] == b[0] {
      LexAntisymmetric(cmp, ok, a[1..], b[1..]);
    }
  }

  lemma {:induction false} LexZero<T(!new)>(cmp: (T, T) -> int, ok: T -> bool, a: seq<T>, b: seq<T>)
    requires OrdersOn(cmp, ok) && Over(a, ok) && Over(b, ok)
    ensures Lex(cmp, a, b) == 0 <==> a == b
  {
    if a != [] && b != [] {
      assert a == [a[0]] + a[1..] && b == [b[0]] + b[1..];
      if a[0] == b[0] {
        LexZero(cmp, ok, a[1..], b[1..]);
      }
    }
  }

  lemma {:induction false} LexTransitive<T(!new)>(cmp: (T, T) -> int, ok: T -> bool, a: seq<T>, b: seq<T>, c: seq<T>)
    requires OrdersOn(cmp, ok) && Over(a, ok) && Over(b, ok) && Over(c, ok)
    requires Lex(cmp, a, b) <= 0 && Lex(cmp, b, c) <= 0
    ensures Lex(cmp, a, c) <= 0
    ensures Lex(cmp, a, b) < 0 || Lex(cmp, b, c) < 0 ==> Lex(cmp, a, c) < 0
    decreases |a|
  {
    if a != [] && b != [] && c != [] {
      if a[0] == b[0] && b[0] == c[0] {
        LexTransitive(cmp, ok, a[1..], b[1..], c[1..]);
      }
    }
  }

  /** A common prefix does not decide. */
  lemma {:induction false} LexSkip<T>(cmp: (T, T) -> int, a: seq<T>, b: seq<T>, i: nat)
    requires i <= |a| && i <= |b| && a[..i] == b[..i]
    ensures Lex(cmp, a, b) == Lex(cmp, a[i..], b[i..])
  {
    if i == 0 {
      assert a[0..] == a && b[0..] == b;
    } else {
      assert a[0] == a[..i][0] && b[0] == b[..i][0];
      assert a[1..][..i - 1] == a[..i][1..] && b[1..][..i - 1] == b[..i][1..];
      assert a[1..][i - 1..] == a[i..] && b[1..][i - 1..] == b[i..];
      LexSkip(cmp, a[1..], b[1..], i - 1);
    }
  }

  lemma LexPair<T>(cmp: (T, T) -> int, x: T, p: T, y: T, q: T)
    ensures Lex(cmp, [x, p], [y, q]) == if x != y then cmp(x, y) else if p != q then cmp(p, q) else 0
  {
    assert [x, p][1..] == [p] && [y, q][1..] == [q];
    assert [p][1..] == [] && [q][1..] == [];
    assert Lex(cmp, [p], [q]) == if p != q then cmp(p, q) else 0;
  }

  /** The first place where two sequences differ. */
  ghost predicate FirstDiffers<T>(a: seq<T>, b: seq<T>, i: int) {
    0 <= i < |a| && i < |b| && a[..i] == b[..i] && a[i] != b[i]
  }

  lemma {:induction false} LexMeans<T>(cmp: (T, T) -> int, a: seq<T>, b: seq<T>)
    ensures Lex(cmp, a, b) < 0 <==> a < b || exists i :: FirstDiffers(a, b, i) && cmp(a[i], b[i]) < 0
    ensures Lex(cmp, a, b) > 0 <==> b < a || exists i :: FirstDiffers(a, b, i) && cmp(a[i], b[i]) > 0
  {
    if i :| FirstDiffers(a, b, i) {
      LexSkip(cmp, a, b, i);
      OneDifference(a, b, i);
    } else {
      NoDifference(a, b);
      var n := if |a| < |b| then |a| else |b|;
      LexSkip(cmp, a, b, n);
    }
  }

  lemma OneDifference<T>(a: seq<T>, b: seq<T>, i: int)
    requires FirstDiffers(a, b, i)
    ensures forall j :: FirstDiffers(a, b, j) ==> j == i
    ensures !(a < b) && !(b < a)
  {
    forall j | 0 <= j < i
      ensures a[j] == b[j]
    {
      assert a[..i][j] == b[..i][j];
    }
    forall j | i < j <= |a| && j <= |b|
      ensures a[..j] != b[..j]
    {
      assert a[..j][i] != b[..j][i];
    }
  }

  lemma {:induction false} NoDifference<T>(a: seq<T>, b: seq<T>)
    requires forall i :: !FirstDiffers(a, b, i)
    ensures
      var n := if |a| < |b| then |a| else |b|;
      a[..n] == b[..n]
  {
    var n := if |a| < |b| then |a| else |b|;
    var k := 0;
    while k < n
      invariant k <= n && a[..k] == b[..k]
    {
      assert !FirstDiffers(a, b, k);
      assert a[..k + 1] == a[..k] + [a[k]] && b[..k + 1] == b[..k] + [b[k]];
      k := k + 1;
    }
  }
}
