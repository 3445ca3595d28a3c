/** The next target itself (core/pow/pow.go NextTarget): exact, bounded, fixed on
    a window that is on goal, and monotone in the last timestamp. */
module Retarget {
  import opened U256
  import opened Types
  import opened Difficulty

  // --------------------------------------------------------- the specification

  /** How many intervals the rule looks at. */
  function Intervals(recent: seq<Header>, w: WorkParams): nat
    requires recent != []
  {
    Min(w.difficultyWindow, |recent| - 1)
  }

  function WindowOf(recent: seq<Header>, w: WorkParams): (r: seq<Header>)
    requires recent != []
    ensures |r| == Intervals(recent, w) + 1
    ensures r[|r| - 1] == recent[|recent| - 1]
  {
    recent[|recent| - (Intervals(recent, w) + 1)..]
  }

  function MulDiv(u: u256, m: nat, d: nat): u256
    requires d > 0
  {
    var q := Quot(Product(u, m), d);
    if q < TWO256 then q else MAX
  }

  /** The relative clamp against the previous target, then the absolute one. */
  function ClampTarget(next: u256, last: u256, w: WorkParams): u256
    requires w.Valid()
  {
    var upper := MulDiv(last, w.clampFactor, 1);
    var lower := Quot(last, w.clampFactor);
    Max(1, Min(w.maxTarget, Max(lower, Min(next, upper))))
  }

  function Numerator(sum: int): nat {
    if sum <= 0 then 1 else sum
  }

  function SolveCap(w: WorkParams): nat {
    Product(w.targetBlockSeconds, w.clampFactor)
  }

  lemma TrianglePositive(n: nat)
    requires n > 0
    ensures Triangle(n) >= n
  {
  }

  lemma ProductPositive(a: nat, b: nat)
    requires a > 0 && b > 0
    ensures Product(a, b) >= a && Product(a, b) >= b
  {
    assert a * (b - 1) >= 0 && (a - 1) * b >= 0;
  }

  /** The mean target, scaled by the weighted average solve time over the goal. */
  function UnclampedNext(window: seq<Header>, w: WorkParams): u256
    requires w.Valid() && |window| >= 2
  {
    TrianglePositive(|window| - 1);
    ProductPositive(Triangle(|window| - 1), w.targetBlockSeconds);
    MulDiv(MeanTarget(window), Numerator(SolveSum(window, SolveCap(w))), Product(Triangle(|window| - 1), w.targetBlockSeconds))
  }

  function Ideal(recent: seq<Header>, w: WorkParams): u256
    requires w.Valid()
  {
    if |recent| < 2 then w.genesisTarget
    else ClampTarget(UnclampedNext(WindowOf(recent, w), w), recent[|recent| - 1].target, w)
  }

  // ------------------------------------------------------------------ bounds

  /** The interval every new target lies in. */
  predicate WithinStep(next: u256, last: u256, w: WorkParams)
    requires w.Valid()
  {
    && 1 <= next <= Max(1, w.maxTarget)
    && next <= Max(1, Min(MAX, Product(last, w.clampFactor)))
    && next >= Min(Quot(last, w.clampFactor), w.maxTarget)
  }

  lemma QuotOne(a: nat)
    ensures Quot(a, 1) == a
  {
  }

  lemma QuotWithinProduct(a: nat, d: nat)
    requires d > 0
    ensures Quot(a, d) <= Product(a, d)
  {
    if a > 0 {
      ProductPositive(a, d);
    } else {
      assert Quot(0, d) == 0;
    }
  }

  lemma ClampWithin(next: u256, last: u256, w: WorkParams)
    requires w.Valid()
    ensures WithinStep(ClampTarget(next, last, w), last, w)
  {
    hide Product, Quot;
    QuotOne(Product(last, w.clampFactor));
    QuotWithinProduct(last, w.clampFactor);
  }

  /** Both ends of the interval: the step around the last target, inside [1, max]. */
  function StepLow(last: u256, w: WorkParams): nat
    requires w.Valid()
  {
    Max(1, Min(w.maxTarget, Quot(last, w.clampFactor)))
  }

  function StepHigh(last: u256, w: WorkParams): nat
    requires w.Valid()
  {
    Max(1, Min(w.maxTarget, Product(last, w.clampFactor)))
  }

  /** The clamps together take the nearest point of that interval. */
  lemma ClampMeans(next: u256, last: u256, w: WorkParams)
    requires w.Valid()
    ensures NearestTo(ClampTarget(next, last, w), next, StepLow(last, w), StepHigh(last, w))
  {
    hide Product, Quot;
    QuotOne(Product(last, w.clampFactor));
    QuotWithinProduct(last, w.clampFactor);
  }

  /** The target the rule asks for: the mean times the solve sum over weights and
      goal, rounded down, where that lies in the interval; else the nearer end. */
  ghost predicate Retargeted(window: seq<Header>, w: WorkParams, next: nat)
    requires w.Valid() && |window| >= 2
  {
    var last := window[|window| - 1].target;
    var lo, hi := StepLow(last, w), StepHigh(last, w);
    var d := Product(Triangle(|window| - 1), w.targetBlockSeconds);
    var scaled := Product(MeanTarget(window), Numerator(SolveSum(window, SolveCap(w))));
    && lo <= next <= hi
    && (scaled < Product(d, lo) ==> next == lo)
    && (scaled >= Product(d, hi + 1) ==> next == hi)
    && (Product(d, lo) <= scaled < Product(d, hi + 1) ==> Product(d, next) <= scaled < Product(d, next + 1))
  }

  /** A floored quotient, compared with n through the product. */
  lemma QuotientSide(x: nat, d: nat, n: nat)
    requires d > 0
    ensures x < Product(d, n) <==> Quot(x, d) < n
  {
    QuotientIs(x, d, x / d);
    if x / d < n {
      Scales(d, x / d + 1, n);
    } else {
      Scales(d, n, x / d);
    }
  }

  lemma IdealMeans(window: seq<Header>, w: WorkParams)
    requires w.Valid() && |window| >= 2
    ensures Retargeted(window, w, ClampTarget(UnclampedNext(window, w), window[|window| - 1].target, w))
  {
    hide Product, Quot, Triangle, MeanTarget, SolveSum, ClampTarget;
    var last := window[|window| - 1].target;
    var d := Product(Triangle(|window| - 1), w.targetBlockSeconds);
    var scaled := Product(MeanTarget(window), Numerator(SolveSum(window, SolveCap(w))));
    TrianglePositive(|window| - 1);
    ProductPositive(Triangle(|window| - 1), w.targetBlockSeconds);
    var lo, hi := StepLow(last, w), StepHigh(last, w);
    var next: nat := ClampTarget(UnclampedNext(window, w), last, w);
    ClampMeans(UnclampedNext(window, w), last, w);
    QuotientSide(scaled, d, lo);
    QuotientSide(scaled, d, hi + 1);
    QuotientSide(scaled, d, next);
    QuotientSide(scaled, d, next + 1);
    HighFits(last, w);
  }

  lemma HighFits(last: u256, w: WorkParams)
    requires w.Valid()
    ensures StepHigh(last, w) < TWO256
  {
    hide Product;
  }

  // ------------------------------------------------------- a window on goal

  predicate OnGoal(window: seq<Header>, w: WorkParams, target: u256) {
    && (forall i :: 0 <= i < |window| ==> window[i].target == target)
    && (forall i :: 0 < i < |window| ==> Gap(window, i) == w.targetBlockSeconds)
  }

  lemma {:induction false} OnGoalSum(window: seq<Header>, w: WorkParams, target: u256)
    requires w.Valid() && window != [] && OnGoal(window, w, target)
    ensures SolveSum(window, SolveCap(w)) == Product(Triangle(|window| - 1), w.targetBlockSeconds)
    ensures TargetSum(window) == Product(|window|, target)
  {
    var n := |window| - 1;
    ProductPositive(w.targetBlockSeconds, w.clampFactor);
    if n > 0 {
      var front := window[..n];
      assert forall i :: 0 < i < n ==> Gap(front, i) == Gap(window, i);
      OnGoalSum(front, w, target);
      GoalStep(Triangle(n - 1), n, w.targetBlockSeconds);
      GoalStep(n, 1, target);
    }
  }

  lemma GoalStep(a: nat, b: nat, c: nat)
    ensures Product(a + b, c) == Product(a, c) + Product(b, c)
  {
  }

  lemma MulDivSame(u: u256, d: nat)
    requires d > 0
    ensures MulDiv(u, d, d) == u
  {
    DivCancels(u, d);
  }

  /** A uniform window whose blocks came exactly on goal returns its target. */
  lemma OnGoalIsFixed(recent: seq<Header>, w: WorkParams, target: u256)
    requires w.Valid() && |recent| >= 2 && 0 < target <= w.maxTarget && OnGoal(WindowOf(recent, w), w, target)
    ensures Ideal(recent, w) == target
  {
    hide Product, SolveSum, TargetSum, Triangle, MeanTarget;
    var window := WindowOf(recent, w);
    OnGoalSum(window, w, target);
    UniformMean(window, target);
    TrianglePositive(|window| - 1);
    ProductPositive(Triangle(|window| - 1), w.targetBlockSeconds);
    MulDivSame(target, Product(Triangle(|window| - 1), w.targetBlockSeconds));
    QuotOne(Product(target, w.clampFactor));
    ProductPositive(target, w.clampFactor);
  }

  lemma UniformMean(window: seq<Header>, target: u256)
    requires window != [] && TargetSum(window) == Product(|window|, target)
    ensures MeanTarget(window) == target
  {
    DivCancels(target, |window|);
  }

  // ------------------------------------------------------------ monotonicity

  lemma ScaledMonotone(k: nat, x: int, y: int)
    requires x <= y
    ensures Scaled(k, x) <= Scaled(k, y)
  {
    assert k * (y - x) >= 0;
  }

  /** A later last timestamp never lowers the sum. */
  lemma LaterRaisesSum(hs: seq<Header>, cap: nat, t: u64)
    requires hs != [] && hs[|hs| - 1].time <= t
    ensures SolveSum(hs, cap) <= SolveSum(Redated(hs, |hs| - 1, t), cap)
  {
    hide Scaled;
    var n := |hs| - 1;
    assert Redated(hs, n, t)[..n] == hs[..n];
    if n > 0 {
      ScaledMonotone(n, Bounded(Gap(hs, n), cap), Bounded(Gap(Redated(hs, n, t), n), cap));
    }
  }

  lemma MulDivMonotone(u: u256, m: nat, m': nat, d: nat)
    requires d > 0 && m <= m'
    ensures MulDiv(u, m, d) <= MulDiv(u, m', d)
  {
    assert u * (m' - m) >= 0;
    DivMonotone(u * m, u * m', d);
  }

  lemma {:induction false} RedatedTargets(hs: seq<Header>, t: u64)
    requires hs != []
    ensures TargetSum(Redated(hs, |hs| - 1, t)) == TargetSum(hs)
  {
    var n := |hs| - 1;
    assert Redated(hs, n, t)[..n] == hs[..n];
  }

  /** Declaring a later time never makes the next block harder. */
  lemma LaterIsNeverHarder(recent: seq<Header>, w: WorkParams, t: u64)
    requires w.Valid() && recent != [] && recent[|recent| - 1].time <= t
    ensures Ideal(recent, w) <= Ideal(Redated(recent, |recent| - 1, t), w)
  {
    hide Product, SolveSum, MeanTarget, Triangle;
    var later := Redated(recent, |recent| - 1, t);
    if |recent| >= 2 {
      var window := WindowOf(recent, w);
      var n := |window| - 1;
      assert WindowOf(later, w) == Redated(window, n, t);
      LaterRaisesSum(window, SolveCap(w), t);
      SameMean(window, t);
      TrianglePositive(n);
      ProductPositive(Triangle(n), w.targetBlockSeconds);
      MulDivMonotone(MeanTarget(window), Numerator(SolveSum(window, SolveCap(w))),
                     Numerator(SolveSum(Redated(window, n, t), SolveCap(w))), Product(Triangle(n), w.targetBlockSeconds));
    }
  }

  lemma SameMean(window: seq<Header>, t: u64)
    requires window != []
    ensures MeanTarget(Redated(window, |window| - 1, t)) == MeanTarget(window)
  {
    RedatedTargets(window, t);
  }

  // ------------------------------------------------------- 64-bit accumulators

  /** The window's weights and clamped gaps fit the accumulators. */
  predicate Fits(intervals: nat, w: WorkParams) {
    intervals < TWO32 && Product(SolveCap(w), Triangle(intervals)) < TWO63
  }

  lemma {:induction false} TriangleGrows(i: nat, n: nat)
    requires i <= n
    ensures Triangle(i) <= Triangle(n)
  {
    if i < n {
      TriangleGrows(i, n - 1);
    }
  }

  lemma ProductGrows(a: nat, b: nat, c: nat)
    requires b <= c
    ensures Product(a, b) <= Product(a, c)
  {
    assert a * (c - b) >= 0;
  }

  /** One interval, as the code computes it. */
  method SolveTime(prev: u64, time: u64, cap: u64) returns (solve: int)
    ensures cap < TWO63 ==> solve == Bounded(time as int - prev as int, cap)
    ensures -(TWO63 as int) <= solve < TWO63
  {
    if time >= prev {
      var d := time - prev;
      if d > cap {
        d := cap;
      }
      solve := Signed64(d);
    } else {
      // Subtracted in the order that cannot underflow, clamped, then negated.
      var d := prev - time;
      if d > cap {
        d := cap;
      }
      solve := Signed64(-Signed64(d));
    }
  }

  lemma StepFits(window: seq<Header>, cap: nat, i: nat)
    requires 0 < i < |window| && 0 < cap && Product(cap, Triangle(|window| - 1)) < TWO63
    ensures
      var x := Bounded(Gap(window, i), cap);
      && i < TWO63
      && -(TWO63 as int) <= Scaled(i, x) < TWO63
      && -(TWO63 as int) <= SolveSum(window[..i + 1], cap) < TWO63
      && SolveSum(window[..i + 1], cap) == SolveSum(window[..i], cap) + Scaled(i, x)
  {
    hide Product, Scaled, Triangle;
    var n := |window| - 1;
    TriangleGrows(i, n);
    TrianglePositive(i);
    ProductGrows(cap, Triangle(i), Triangle(n));
    ProductGrows(cap, i, Triangle(i));
    ProductPositive(cap, i);
    ScaledWithin(i, Bounded(Gap(window, i), cap), cap);
    SolveSumWithin(window[..i + 1], cap);
    assert window[..i + 1][..i] == window[..i];
  }

  /** The weighted sum in a signed 64-bit accumulator, and the weights. */
  method WeighWindow(window: seq<Header>, cap: u64) returns (weighted: int, weights: u64)
    requires 0 < |window| < TWO64
    ensures -(TWO63 as int) <= weighted < TWO63
    ensures weights == Wrap64(Triangle(|window| - 1))
    ensures 0 < cap && Product(cap, Triangle(|window| - 1)) < TWO63 ==> weighted == SolveSum(window, cap)
  {
    hide Product, SolveSum, Wrap64, Scaled;
    weighted, weights := 0, 0;
    ghost var fits := 0 < cap && Product(cap, Triangle(|window| - 1)) < TWO63;
    if fits {
      CapIsSmall(window, cap);
    }
    WrapZero();
    SingleSum(window, cap);
    for i := 1 to |window|
      invariant -(TWO63 as int) <= weighted < TWO63
      invariant weights == Wrap64(Triangle(i - 1))
      invariant fits ==> weighted == SolveSum(window[..i], cap)
    {
      var solve := SolveTime(window[i - 1].time, window[i].time, cap);
      if fits {
        StepFits(window, cap, i);
        CapIsSmall(window, cap);
      }
      WrapAbsorbs(Triangle(i - 1), i);
      weighted := AddWeighted(weighted, i, solve);
      weights := Wrap64(weights + i);
    }
    assert window[..|window|] == window;
  }

  function AddWeighted(acc: int, i: u64, solve: int): int {
    Signed64(acc + Signed64(Scaled(Signed64(i), solve)))
  }

  lemma SingleSum(window: seq<Header>, cap: nat)
    requires window != []
    ensures SolveSum(window[..1], cap) == 0
  {
  }

  lemma CapIsSmall(window: seq<Header>, cap: nat)
    requires |window| >= 1 && Product(cap, Triangle(|window| - 1)) < TWO63
    ensures |window| >= 2 ==> cap < TWO63
  {
    hide Product;
    if |window| >= 2 && cap > 0 {
      TrianglePositive(|window| - 1);
      ProductPositive(cap, Triangle(|window| - 1));
    }
  }

  // ------------------------------------------------------------- the method

  /** The unsigned denominator the code divides by. */
  function Denominator(intervals: nat, w: WorkParams): u64 {
    Wrap64(Product(Wrap64(Triangle(intervals)), w.targetBlockSeconds))
  }

  lemma FittingDenominator(intervals: nat, w: WorkParams)
    requires w.Valid() && intervals > 0 && Fits(intervals, w)
    ensures 0 < SolveCap(w) < TWO63
    ensures 0 < Triangle(intervals) < TWO63
    ensures Denominator(intervals, w) == Product(Triangle(intervals), w.targetBlockSeconds) > 0
    ensures Wrap64(Triangle(intervals)) == Triangle(intervals)
  {
    hide Product, Triangle;
    TrianglePositive(intervals);
    ProductPositive(w.targetBlockSeconds, w.clampFactor);
    ProductPositive(SolveCap(w), Triangle(intervals));
    ProductPositive(Triangle(intervals), w.targetBlockSeconds);
    CapDominates(w.targetBlockSeconds, w.clampFactor, Triangle(intervals));
  }

  lemma CapDominates(goal: nat, clamp: nat, t: nat)
    requires clamp > 0
    ensures Product(t, goal) <= Product(Product(goal, clamp), t)
  {
    assert goal * t * (clamp - 1) >= 0;
    assert goal * clamp * t == goal * t + goal * t * (clamp - 1);
  }

  /** What the 64-bit computation yields when everything fits. */
  lemma FittingNext(window: seq<Header>, w: WorkParams)
    requires w.Valid() && |window| >= 2 && Fits(|window| - 1, w)
    ensures
      var n := |window| - 1;
      var sum := SolveSum(window, SolveCap(w));
      && Wrap64(SolveCap(w)) == SolveCap(w)
      && Numerator(sum) < TWO64
      && Denominator(n, w) != 0
      && MulDiv64(MeanTarget(window), Numerator(sum), Denominator(n, w)) == UnclampedNext(window, w)
  {
    hide Product, Triangle, SolveSum, MeanTarget, Denominator;
    FittingDenominator(|window| - 1, w);
    SolveSumWithin(window, SolveCap(w));
  }

  /** The two clamps, in the order they run. */
  method ClampNext(unclamped: u256, last: u256, w: WorkParams) returns (next: u256)
    requires w.Valid()
    ensures next == ClampTarget(unclamped, last, w)
    ensures NearestTo(next, unclamped, StepLow(last, w), StepHigh(last, w))
    ensures WithinStep(next, last, w)
  {
    hide Product, Quot;
    var upper := MulDiv64(last, w.clampFactor, 1);
    var lower := Quot(last, w.clampFactor);
    QuotWithinProduct(last, w.clampFactor);
    QuotOne(Product(last, w.clampFactor));
    ClampWithin(unclamped, last, w);
    ClampMeans(unclamped, last, w);
    next := unclamped;
    if next > upper {
      next := upper;
    }
    if next < lower {
      next := lower;
    }
    if next > w.maxTarget {
      next := w.maxTarget;
    }
    if next == 0 {
      next := 1;
    }
  }

  /** The rule on the window it has cut out. */
  method NextFromWindow(window: seq<Header>, w: WorkParams) returns (next: u256)
    requires w.Valid() && 2 <= |window| < TWO64
    requires Wrap64(Triangle(|window| - 1)) != 0 ==> Denominator(|window| - 1, w) != 0
    ensures Wrap64(Triangle(|window| - 1)) != 0 ==> WithinStep(next, window[|window| - 1].target, w)
    ensures Fits(|window| - 1, w) ==> next == ClampTarget(UnclampedNext(window, w), window[|window| - 1].target, w)
    ensures Fits(|window| - 1, w) ==> Retargeted(window, w, next)
  {
    hide Product, Triangle, Wrap64, SolveSum, RemainderSum, MeanTarget, ClampTarget, MulDiv64, MulDiv, UnclampedNext,
      WithinStep, Retargeted, NearestTo;
    if Fits(|window| - 1, w) {
      FittingDenominator(|window| - 1, w);
      FittingNext(window, w);
      IdealMeans(window, w);
    }
    var weighted, weights := WeighWindow(window, Wrap64(Product(w.targetBlockSeconds, w.clampFactor)));
    if weights == 0 {
      return window[|window| - 1].target;
    }
    var mean := ComputeMean(window);
    next := MulDiv64(mean, Numerator(weighted), Wrap64(Product(weights, w.targetBlockSeconds)));
    next := ClampNext(next, window[|window| - 1].target, w);
  }

  lemma IdealAtFirst(recent: seq<Header>, w: WorkParams)
    requires w.Valid() && |recent| < 2
    ensures Ideal(recent, w) == w.genesisTarget
  {
  }

  lemma WindowIsCut(recent: seq<Header>, w: WorkParams, n: nat)
    requires w.Valid() && 2 <= |recent| < TWO63
    requires n == if |recent| < w.difficultyWindow + 1 then |recent| - 1 else w.difficultyWindow
    ensures 0 < n == Intervals(recent, w) && n + 1 < TWO64
    ensures recent[|recent| - (n + 1)..] == WindowOf(recent, w)
    ensures Ideal(recent, w) == ClampTarget(UnclampedNext(WindowOf(recent, w), w), recent[|recent| - 1].target, w)
  {
    hide ClampTarget, UnclampedNext;
  }

  /** The rule as the node runs it.  It never divides by zero while its
      denominator is not zero; the result is always one bounded step from the last
      target; and while the accumulators are wide enough it is the exact
      specification. */
  method NextTarget(recent: seq<Header>, w: WorkParams) returns (next: u256)
    requires w.Valid() && |recent| < TWO63 && w.difficultyWindow < TWO63
    requires |recent| >= 2 && Wrap64(Triangle(Intervals(recent, w))) != 0 ==> Denominator(Intervals(recent, w), w) != 0
    ensures |recent| < 2 ==> next == w.genesisTarget
    ensures |recent| >= 2 && Wrap64(Triangle(Intervals(recent, w))) != 0 ==> WithinStep(next, recent[|recent| - 1].target, w)
    ensures |recent| < 2 || Fits(Intervals(recent, w), w) ==> next == Ideal(recent, w)
    ensures |recent| >= 2 && Fits(Intervals(recent, w), w) ==>
              Intervals(recent, w) > 0 && Retargeted(recent[|recent| - (Intervals(recent, w) + 1)..], w, next)
  {
    hide *;
    if |recent| < 2 {
      IdealAtFirst(recent, w);
      return w.genesisTarget;
    }
    var n := w.difficultyWindow;
    if |recent| < n + 1 {
      n := |recent| - 1;
    }
    WindowIsCut(recent, w, n);
    var window := recent[|recent| - (n + 1)..];
    next := NextFromWindow(window, w);
  }
}
