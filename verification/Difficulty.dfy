/** The difficulty rule (core/pow/pow.go NextTarget): a linearly weighted moving
    average of signed, clamped solve times.

    The specification is over unbounded integers.  The method keeps the source's
    64-bit signed and unsigned accumulators, and agrees with the specification
    whenever they are wide enough for the window. */
module Difficulty {
  import opened U256
  import opened Types

  const TWO63: nat := 0x8000_0000_0000_0000

  datatype WorkParams = WorkParams(
    targetBlockSeconds: u64,
    difficultyWindow: u64,
    clampFactor: u64,
    genesisTarget: u256,
    maxTarget: u256)
  {
    predicate Valid() {
      && 0 < targetBlockSeconds
      && 0 < difficultyWindow
      && 0 < clampFactor
      && genesisTarget <= maxTarget
    }
  }

  /** What an `int64` holds of an integer. */
  function Signed64(x: int): int {
    if -(TWO63 as int) <= x < TWO63 then x else (x + TWO63) % TWO64 - TWO63
  }

  // ----------------------------------------------------- signed solve times

  function Bounded(x: int, cap: nat): int {
    if x > cap then cap else if x < -(cap as int) then -(cap as int) else x
  }

  function Gap(hs: seq<Header>, i: nat): int
    requires 0 < i < |hs|
  {
    hs[i].time as int - hs[i - 1].time as int
  }

  function Scaled(w: int, x: int): int {
    w * x
  }

  /** The clamped gaps, each weighted by its position. */
  function SolveSum(hs: seq<Header>, cap: nat): int {
    if |hs| <= 1 then 0
    else SolveSum(hs[..|hs| - 1], cap) + Scaled(|hs| - 1, Bounded(Gap(hs, |hs| - 1), cap))
  }

  /** 1 + 2 + ... + n. */
  function Triangle(n: nat): nat {
    if n == 0 then 0 else Triangle(n - 1) + n
  }

  lemma ScaledWithin(w: nat, x: int, cap: nat)
    requires -(cap as int) <= x <= cap
    ensures -(Product(cap, w) as int) <= Scaled(w, x) <= Product(cap, w)
  {
    assert w * (cap - x) >= 0 && w * (cap + x) >= 0;
  }

  lemma TriangleStep(cap: nat, n: nat)
    requires n > 0
    ensures Product(cap, Triangle(n)) == Product(cap, Triangle(n - 1)) + Product(cap, n)
  {
    assert cap * (Triangle(n - 1) + n) == cap * Triangle(n - 1) + cap * n;
  }

  /** No choice of timestamps moves the sum beyond the cap times the weights. */
  lemma {:induction false} SolveSumWithin(hs: seq<Header>, cap: nat)
    requires hs != []
    ensures -(Product(cap, Triangle(|hs| - 1)) as int) <= SolveSum(hs, cap) <= Product(cap, Triangle(|hs| - 1))
  {
    hide Product, Scaled;
    var n := |hs| - 1;
    if n > 0 {
      SolveSumWithin(hs[..n], cap);
      ScaledWithin(n, Bounded(Gap(hs, n), cap), cap);
      TriangleStep(cap, n);
    } else {
      NothingTimes(cap);
    }
  }

  lemma NothingTimes(cap: nat)
    ensures Product(cap, Triangle(0)) == 0
  {
  }

  /** No gap of the window reaches the clamp. */
  predicate Unclamped(hs: seq<Header>, cap: nat) {
    forall i :: 0 < i < |hs| ==> -(cap as int) <= Gap(hs, i) <= cap
  }

  function TimeSum(hs: seq<Header>): nat {
    if hs == [] then 0 else TimeSum(hs[..|hs| - 1]) + hs[|hs| - 1].time
  }

  lemma ScaledTelescopes(n: nat, t: int, s: int)
    requires n > 0
    ensures Scaled(n - 1, s) + Scaled(n, t - s) == Scaled(n, t) - s
  {
    assert (n - 1) * s == n * s - s;
    assert n * (t - s) == n * t - n * s;
  }

  /** Without clamping the weights telescope: n times the last timestamp, less
      every earlier one.  Position does not matter. */
  lemma {:induction false} SolveSumTelescopes(hs: seq<Header>, cap: nat)
    requires hs != [] && Unclamped(hs, cap)
    ensures SolveSum(hs, cap) == Scaled(|hs| - 1, hs[|hs| - 1].time) - TimeSum(hs[..|hs| - 1])
  {
    hide Scaled;
    var n := |hs| - 1;
    if n > 0 {
      assert forall i :: 0 < i < n ==> Gap(hs[..n], i) == Gap(hs, i);
      SolveSumTelescopes(hs[..n], cap);
      assert Gap(hs, n) == Bounded(Gap(hs, n), cap);
      ScaledTelescopes(n, hs[n].time, hs[n - 1].time);
    } else {
      ScaledByNothing(hs[0].time);
    }
  }

  lemma ScaledByNothing(t: int)
    ensures Scaled(0, t) == 0
  {
  }

  function Redated(hs: seq<Header>, j: nat, t: u64): (r: seq<Header>)
    requires j < |hs|
    ensures |r| == |hs|
  {
    hs[j := hs[j].(time := t)]
  }

  lemma {:induction false} RedatedSum(hs: seq<Header>, j: nat, t: u64)
    requires j < |hs|
    ensures TimeSum(Redated(hs, j, t)) == TimeSum(hs) - hs[j].time + t
  {
    var n := |hs| - 1;
    if j < n {
      assert Redated(hs, j, t)[..n] == Redated(hs[..n], j, t);
      RedatedSum(hs[..n], j, t);
    } else {
      assert Redated(hs, j, t)[..n] == hs[..n];
    }
  }

  /** Backdating cancels: moving any timestamp but the last by some amount moves
      the sum by exactly the opposite amount, wherever it sits. */
  lemma BackdatingCancels(hs: seq<Header>, cap: nat, j: nat, t: u64)
    requires j < |hs| - 1 && Unclamped(hs, cap) && Unclamped(Redated(hs, j, t), cap)
    ensures SolveSum(Redated(hs, j, t), cap) == SolveSum(hs, cap) - (t as int - hs[j].time as int)
  {
    hide Scaled, SolveSum;
    var n := |hs| - 1;
    SolveSumTelescopes(hs, cap);
    SolveSumTelescopes(Redated(hs, j, t), cap);
    assert Redated(hs, j, t)[..n] == Redated(hs[..n], j, t);
    RedatedSum(hs[..n], j, t);
  }

  /** Moving the last timestamp moves it by that much per interval. */
  lemma LastDateWeighsAll(hs: seq<Header>, cap: nat, t: u64)
    requires hs != [] && Unclamped(hs, cap) && Unclamped(Redated(hs, |hs| - 1, t), cap)
    ensures SolveSum(Redated(hs, |hs| - 1, t), cap) ==
              SolveSum(hs, cap) + Scaled(|hs| - 1, t as int - hs[|hs| - 1].time as int)
  {
    hide SolveSum;
    var n := |hs| - 1;
    SolveSumTelescopes(hs, cap);
    SolveSumTelescopes(Redated(hs, n, t), cap);
    assert Redated(hs, n, t)[..n] == hs[..n];
    assert n * (t as int - hs[n].time as int) == n * t - n * hs[n].time;
  }

  // ------------------------------------------------------------ the mean target

  function TargetSum(hs: seq<Header>): nat {
    if hs == [] then 0 else TargetSum(hs[..|hs| - 1]) + hs[|hs| - 1].target
  }

  lemma {:induction false} TargetSumBounded(hs: seq<Header>)
    ensures TargetSum(hs) <= Product(|hs|, MAX)
  {
    if hs != [] {
      TargetSumBounded(hs[..|hs| - 1]);
    }
  }

  lemma QuotientUnique(total: nat, d: nat, q: nat, r: nat)
    requires d > 0 && total == d * q + r
    ensures total / d == q + r / d
  {
    QuotientIs(r, d, r / d);
    assert d * (q + r / d) == d * q + d * (r / d);
    assert d * (q + r / d + 1) == d * q + d * (r / d + 1);
    QuotientIs(total, d, q + r / d);
  }

  /** The exact floor of the average target. */
  function MeanTarget(hs: seq<Header>): (m: u256)
    requires hs != []
  {
    MeanFits(hs);
    TargetSum(hs) / |hs|
  }

  lemma MeanFits(hs: seq<Header>)
    requires hs != []
    ensures TargetSum(hs) / |hs| < TWO256
  {
    TargetSumBounded(hs);
    DivMonotone(TargetSum(hs), |hs| * MAX, |hs|);
    DivCancels(MAX, |hs|);
  }

  /** One term of the mean: quotient and remainder together lose nothing. */
  lemma ShareStep(acc: nat, rems: nat, sum: nat, target: nat, d: nat)
    requires d > 0 && Product(d, acc) + rems == sum
    ensures Product(d, acc + target / d) + rems + target % d == sum + target
  {
    assert d * (acc + target / d) == d * acc + d * (target / d);
  }

  lemma AccumulatorFits(acc: nat, rems: nat, sum: nat, d: nat)
    requires d > 0 && Product(d, acc) + rems == sum <= Product(d, MAX)
    ensures acc <= MAX
  {
    assert d * acc < d * (MAX + 1);
    MulCancels(d, acc, MAX + 1);
  }

  /** What a division by a 64-bit count leaves over. */
  function Rem(a: nat, d: nat): (r: nat)
    requires d > 0
    ensures r < d
  {
    a % d
  }

  /** Nothing is lost so far: the shares times the count, plus what the divisions
      left over, is the sum of the targets. */
  ghost predicate Carrying(window: seq<Header>, i: nat, mean: nat, carried: nat)
    requires i <= |window| && window != []
  {
    && Product(|window|, mean) + carried == TargetSum(window[..i])
    && carried <= Product(|window| - 1, i)
  }

  lemma CarryStep(window: seq<Header>, i: nat, mean: nat, carried: nat)
    requires i < |window| && Carrying(window, i, mean, carried)
    ensures
      var target := window[i].target;
      && mean + Quot(target, |window|) <= MAX
      && Carrying(window, i + 1, mean + Quot(target, |window|), carried + Rem(target, |window|))
  {
    hide Product;
    var target, count: nat := window[i].target, |window|;
    assert window[..i + 1][..i] == window[..i];
    ShareStep(mean, carried, TargetSum(window[..i]), target, count);
    TargetSumBounded(window[..i + 1]);
    ProductMonotone(i + 1, count, MAX);
    AccumulatorFits(mean + target / count, carried + target % count, TargetSum(window[..i + 1]), count);
    CarriedFits(carried, count, i, target % count);
  }

  /** Everything the divisions of the targets leave over. */
  function RemainderSum(hs: seq<Header>, d: nat): nat
    requires d > 0
  {
    if hs == [] then 0 else RemainderSum(hs[..|hs| - 1], d) + Rem(hs[|hs| - 1].target, d)
  }

  lemma RemainderStep(window: seq<Header>, i: nat)
    requires i < |window|
    ensures RemainderSum(window[..i + 1], |window|) == RemainderSum(window[..i], |window|) + Rem(window[i].target, |window|)
  {
    assert window[..i + 1][..i] == window[..i];
  }

  /** Dividing each term and carrying the remainders: the accumulator never
      saturates, and the result is the exact floor if and only if the remainders
      fit their 64-bit counter, as they do in any window of at most 2^32 headers.
      Otherwise it falls short. */
  method ComputeMean(window: seq<Header>) returns (mean: u256)
    requires 0 < |window| < TWO64
    ensures mean == MeanTarget(window) <==> RemainderSum(window, |window|) < TWO64
    ensures mean <= MeanTarget(window)
    ensures |window| <= TWO32 ==> mean == MeanTarget(window)
  {
    hide Product, Carrying, Wrap64, TargetSum, RemainderSum, Quot, Rem, MeanTarget;
    mean := 0;
    var count: u64 := |window|;
    var remainders: u64 := 0;
    ghost var carried: nat := 0;
    CarryNothing(window);
    WrapZero();
    for i := 0 to |window|
      invariant Carrying(window, i, mean, carried)
      invariant carried == RemainderSum(window[..i], |window|)
      invariant remainders == Wrap64(carried)
    {
      var target: nat := window[i].target;
      CarryStep(window, i, mean, carried);
      RemainderStep(window, i);
      WrapAbsorbs(carried, Rem(target, count));
      mean := SatAdd(mean, Quot(target, count));
      remainders := Wrap64(remainders + Rem(target, count));
      carried := carried + Rem(target, count);
    }
    assert window[..|window|] == window;
    MeanIs(window, mean, carried);
    mean := SatAdd(mean, Quot(remainders, count));
  }

  lemma CarryNothing(window: seq<Header>)
    requires window != []
    ensures Carrying(window, 0, 0, 0) && RemainderSum(window[..0], |window|) == 0
  {
  }

  lemma MeanIs(window: seq<Header>, mean: nat, carried: nat)
    requires 0 < |window| < TWO64 && Carrying(window, |window|, mean, carried)
    ensures mean + Quot(Wrap64(carried), |window|) <= MeanTarget(window)
    ensures mean + Quot(Wrap64(carried), |window|) == MeanTarget(window) <==> carried < TWO64
    ensures |window| <= TWO32 ==> carried < TWO64
  {
    hide Product, Wrap64;
    assert window[..|window|] == window;
    SumSplits(TargetSum(window), |window|, mean, carried);
    WrappedShare(carried, |window|);
    if |window| <= TWO32 {
      SmallRemainders(carried, |window|);
    }
  }

  /** A counter that wrapped is short by at least one whole share. */
  lemma WrappedShare(carried: nat, count: u64)
    requires count > 0
    ensures carried < TWO64 ==> Quot(Wrap64(carried), count) == Quot(carried, count)
    ensures carried >= TWO64 ==> Quot(Wrap64(carried), count) < Quot(carried, count)
  {
    if carried >= TWO64 {
      DivMonotone(Wrap64(carried), carried - count, count);
      QuotientUnique(carried, count, 1, carried - count);
    }
  }

  /** The first window that is too wide: 2^32 + 1 headers, each leaving 2^32. */
  lemma WideWindowOverflows(h: Header)
    requires h.target == TWO32
    ensures RemainderSum(seq(TWO32 + 1, _ => h), TWO32 + 1) >= TWO64
  {
    RepeatedRemainder(h, TWO32 + 1, TWO32 + 1);
  }

  lemma {:induction false} RepeatedRemainder(h: Header, n: nat, d: nat)
    requires h.target < d
    ensures RemainderSum(seq(n, _ => h), d) == n * h.target
  {
    if n > 0 {
      var hs := seq(n, _ => h);
      assert hs[..n - 1] == seq(n - 1, _ => h);
      RepeatedRemainder(h, n - 1, d);
      SmallMod(h.target, d);
    }
  }

  lemma ProductMonotone(a: nat, b: nat, c: nat)
    requires a <= b
    ensures Product(a, c) <= Product(b, c)
  {
    assert (b - a) * c >= 0;
  }

  lemma CarriedFits(carried: nat, count: nat, i: nat, r: nat)
    requires r < count && carried <= Product(count - 1, i)
    ensures carried + r <= Product(count - 1, i + 1)
  {
    assert (count - 1) * (i + 1) == (count - 1) * i + (count - 1);
  }

  lemma SmallRemainders(carried: nat, count: nat)
    requires 0 < count <= TWO32 && carried <= Product(count - 1, count)
    ensures carried < TWO64
  {
    hide Product;
    ProductMonotone(count - 1, TWO32 - 1, count);
    ProductSwap(TWO32 - 1, count);
    ProductMonotone(count, TWO32, TWO32 - 1);
    WideProduct();
  }

  lemma WideProduct()
    ensures Product(TWO32, TWO32 - 1) < TWO64
  {
  }

  lemma SumSplits(sum: nat, count: nat, mean: nat, carried: nat)
    requires count > 0 && Product(count, mean) + carried == sum
    ensures sum / count == mean + carried / count
  {
    QuotientUnique(sum, count, mean, carried);
  }
}
