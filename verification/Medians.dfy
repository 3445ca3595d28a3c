/** Sorting 64-bit samples and picking one by rank. */
module Medians {
  import opened U256

  function InsertNat(sorted: seq<u64>, x: u64): (r: seq<u64>)
    ensures |r| == |sorted| + 1
  {
    if sorted == [] || x >= sorted[|sorted| - 1] then sorted + [x]
    else InsertNat(sorted[..|sorted| - 1], x) + [sorted[|sorted| - 1]]
  }

  function Sorted(xs: seq<u64>): (r: seq<u64>)
    ensures |r| == |xs|
  {
    if xs == [] then [] else InsertNat(Sorted(xs[..|xs| - 1]), xs[|xs| - 1])
  }

  /** How many samples lie strictly below a bound. */
  function CountBelow(xs: seq<u64>, v: nat): nat {
    if xs == [] then 0 else CountBelow(xs[..|xs| - 1], v) + if xs[|xs| - 1] < v then 1 else 0
  }

  ghost predicate Ascending(xs: seq<u64>) {
    forall i, j :: 0 <= i <= j < |xs| ==> xs[i] <= xs[j]
  }

  lemma {:induction false} InsertBounded(sorted: seq<u64>, x: u64, top: u64)
    requires x <= top && forall i :: 0 <= i < |sorted| ==> sorted[i] <= top
    ensures forall i :: 0 <= i < |InsertNat(sorted, x)| ==> InsertNat(sorted, x)[i] <= top
  {
    if sorted != [] && x < sorted[|sorted| - 1] {
      InsertBounded(sorted[..|sorted| - 1], x, top);
    }
  }

  lemma {:induction false} InsertAscends(sorted: seq<u64>, x: u64)
    requires Ascending(sorted)
    ensures Ascending(InsertNat(sorted, x))
  {
    if sorted != [] && x < sorted[|sorted| - 1] {
      var n := |sorted| - 1;
      InsertAscends(sorted[..n], x);
      InsertBounded(sorted[..n], x, sorted[n]);
    }
  }

  lemma {:induction false} SortedAscends(xs: seq<u64>)
    ensures Ascending(Sorted(xs))
  {
    if xs != [] {
      SortedAscends(xs[..|xs| - 1]);
      InsertAscends(Sorted(xs[..|xs| - 1]), xs[|xs| - 1]);
    }
  }

  lemma CountBelowAppend(xs: seq<u64>, x: u64, v: nat)
    ensures CountBelow(xs + [x], v) == CountBelow(xs, v) + if x < v then 1 else 0
  {
    assert (xs + [x])[..|xs|] == xs;
  }

  lemma {:induction false} InsertCounts(sorted: seq<u64>, x: u64, v: nat)
    ensures CountBelow(InsertNat(sorted, x), v) == CountBelow(sorted, v) + if x < v then 1 else 0
  {
    if sorted == [] || x >= sorted[|sorted| - 1] {
      CountBelowAppend(sorted, x, v);
    } else {
      var n := |sorted| - 1;
      InsertCounts(sorted[..n], x, v);
      CountBelowAppend(InsertNat(sorted[..n], x), sorted[n], v);
    }
  }

  lemma {:induction false} SortedCounts(xs: seq<u64>, v: nat)
    ensures CountBelow(Sorted(xs), v) == CountBelow(xs, v)
  {
    if xs != [] {
      SortedCounts(xs[..|xs| - 1], v);
      InsertCounts(Sorted(xs[..|xs| - 1]), xs[|xs| - 1], v);
    }
  }

  lemma {:induction false} CountInAscending(s: seq<u64>, v: nat, k: nat)
    requires Ascending(s) && k < |s|
    ensures s[k] >= v <==> CountBelow(s, v) <= k
  {
    var n := |s| - 1;
    CountAtMostLength(s[..n], v);
    if k < n {
      CountInAscending(s[..n], v, k);
    } else if n > 0 && s[n] < v {
      CountInAscending(s[..n], v, n - 1);
    }
  }

  lemma {:induction false} CountAtMostLength(s: seq<u64>, v: nat)
    ensures CountBelow(s, v) <= |s|
  {
    if s != [] {
      CountAtMostLength(s[..|s| - 1], v);
    }
  }

  /** Rank and value: the element at sorted position `k` reaches `v` exactly when
      at most `k` samples lie below `v`. */
  lemma RankIs(xs: seq<u64>, k: nat, v: nat)
    requires k < |xs|
    ensures Sorted(xs)[k] >= v <==> CountBelow(xs, v) <= k
  {
    SortedAscends(xs);
    SortedCounts(xs, v);
    CountInAscending(Sorted(xs), v, k);
  }

  /** What it is to be the element of rank `k`, with no mention of sorting. */
  ghost predicate HasRank(xs: seq<u64>, m: u64, k: nat) {
    CountBelow(xs, m) <= k < CountBelow(xs, (m as nat) + 1)
  }

  lemma SortedHasRank(xs: seq<u64>, k: nat)
    requires k < |xs|
    ensures HasRank(xs, Sorted(xs)[k], k)
  {
    var m: nat := Sorted(xs)[k];
    RankIs(xs, k, m);
    RankIs(xs, k, m + 1);
  }

  lemma RankIsUnique(xs: seq<u64>, k: nat, m: u64)
    requires k < |xs| && HasRank(xs, m, k)
    ensures m == Sorted(xs)[k]
  {
    RankIs(xs, k, m);
    RankIs(xs, k, (m as nat) + 1);
  }

  lemma {:induction false} DropFirstCounts(xs: seq<u64>, v: nat)
    requires xs != []
    ensures CountBelow(xs[1..], v) <= CountBelow(xs, v)
  {
    if |xs| > 1 {
      var n := |xs| - 1;
      assert xs[1..][..n - 1] == xs[..n][1..];
      DropFirstCounts(xs[..n], v);
    }
  }
}
