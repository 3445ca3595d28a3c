/** Sequences as bags, and sums over sets. */
module Seqs {

  function Elements<T(==)>(s: seq<T>): set<T> {
    set x | x in s
  }

  function Without<T>(s: seq<T>, i: nat): seq<T>
    requires i < |s|
  {
    s[..i] + s[i + 1..]
  }

  lemma BagWithout<T>(s: seq<T>, i: nat)
    requires i < |s|
    ensures multiset(Without(s, i)) == multiset(s) - multiset{s[i]}
  {
    assert s == s[..i] + ([s[i]] + s[i + 1..]);
    assert multiset(s) == multiset(s[..i]) + (multiset{s[i]} + multiset(s[i + 1..]));
  }

  lemma BagOfPrefix<T>(s: seq<T>)
    requires s != []
    ensures multiset(s[..|s| - 1]) == multiset(s) - multiset{s[|s| - 1]}
    ensures s[|s| - 1] in multiset(s)
  {
    assert s == s[..|s| - 1] + [s[|s| - 1]];
  }

  lemma IndexOf<T>(s: seq<T>, x: T) returns (i: nat)
    requires x in multiset(s)
    ensures i < |s| && s[i] == x
  {
    i :| 0 <= i < |s| && s[i] == x;
  }

  /** Equal bags have a common element to peel off: the last of one, somewhere in
      the other, with equal bags left over. */
  lemma PeelEqualBags<T>(a: seq<T>, b: seq<T>) returns (i: nat)
    requires a != [] && multiset(a) == multiset(b)
    ensures i < |b| && b[i] == a[|a| - 1]
    ensures multiset(a[..|a| - 1]) == multiset(Without(b, i))
  {
    BagOfPrefix(a);
    i := IndexOf(b, a[|a| - 1]);
    BagWithout(b, i);
  }

  lemma EqualBagsEqualLengths<T>(a: seq<T>, b: seq<T>)
    requires multiset(a) == multiset(b)
    ensures |a| == |b|
  {
    assert |multiset(a)| == |a| && |multiset(b)| == |b|;
  }

  lemma EqualBagsEqualMembers<T>(a: seq<T>, b: seq<T>, x: T)
    requires multiset(a) == multiset(b)
    ensures x in a <==> x in b
  {
    assert x in a <==> x in multiset(a);
    assert x in b <==> x in multiset(b);
  }

  // ------------------------------------------------------------ sums over sets

  ghost function SumBy<T(!new)>(s: set<T>, value: T -> int): int {
    if s == {} then 0
    else
      var x :| x in s;
      value(x) + SumBy(s - {x}, value)
  }

  lemma {:induction false} SumByRemove<T(!new)>(s: set<T>, value: T -> int, x: T)
    requires x in s
    ensures SumBy(s, value) == value(x) + SumBy(s - {x}, value)
    decreases |s|
  {
    var y :| y in s && SumBy(s, value) == value(y) + SumBy(s - {y}, value);
    if x != y {
      SumByRemove(s - {y}, value, x);
      SumByRemove(s - {x}, value, y);
      assert s - {y} - {x} == s - {x} - {y};
    }
  }

  lemma SumByAdd<T(!new)>(s: set<T>, value: T -> int, x: T)
    requires x !in s
    ensures SumBy(s + {x}, value) == SumBy(s, value) + value(x)
  {
    SumByRemove(s + {x}, value, x);
    assert s + {x} - {x} == s;
  }
}
