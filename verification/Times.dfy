/** The median-time rule (core/pow/pow.go): a header is later than the median of
    the headers before it, and so the median never goes backwards. */
module Times {
  import opened U256
  import opened Types
  import opened Medians

  function TimesOf(hs: seq<Header>): (r: seq<u64>)
    ensures |r| == |hs|
    ensures forall i :: 0 <= i < |hs| ==> r[i] == hs[i].time
  {
    seq(|hs|, i requires 0 <= i < |hs| => hs[i].time)
  }

  /** The most recent headers, at most `blocks` of them. */
  function Recent(hs: seq<Header>, blocks: nat): (r: seq<Header>)
    ensures |r| == Min(blocks, |hs|)
  {
    hs[|hs| - Min(blocks, |hs|)..]
  }

  /** The element of rank `len/2` among the recent timestamps. */
  function Median(hs: seq<Header>, blocks: nat): u64
    requires blocks > 0 && hs != []
  {
    var times := TimesOf(Recent(hs, blocks));
    Sorted(times)[|times| / 2]
  }

  /** The result is a member of the window with at most half the window below it
      and at least half of it, rounded up, at or below it. */
  method MedianTime(hs: seq<Header>, blocks: nat) returns (m: u64)
    requires blocks > 0 && hs != []
    ensures m == Median(hs, blocks)
    ensures
      var times := TimesOf(Recent(hs, blocks));
      HasRank(times, m, |times| / 2)
  {
    var n := blocks;
    if |hs| < n {
      n := |hs|;
    }
    var window := hs[|hs| - n..];
    var times: seq<u64> := [];
    for i := 0 to |window|
      invariant |times| == i && forall k :: 0 <= k < i ==> times[k] == window[k].time
    {
      times := times + [window[i].time];
    }
    assert times == TimesOf(Recent(hs, blocks));
    SortedHasRank(times, |times| / 2);
    return Sorted(times)[|times| / 2];
  }

  /** CheckMedianTime. */
  predicate LateEnough(h: Header, recent: seq<Header>, blocks: nat)
    requires blocks > 0
  {
    h.height == 0 || recent == [] || h.time > Median(recent, blocks)
  }

  /** A chain whose headers each pass against everything before them. */
  ghost predicate InTime(chain: seq<Header>, blocks: nat)
    requires blocks > 0
  {
    forall i :: 0 <= i < |chain| ==> chain[i].height == i && LateEnough(chain[i], chain[..i], blocks)
  }

  /** Counting below a bound the newest header is not below: one more header
      cannot raise the count, whether the window grows or slides. */
  lemma WindowCounts(hs: seq<Header>, h: Header, blocks: nat, v: nat)
    requires blocks > 0 && h.time >= v
    ensures CountBelow(TimesOf(Recent(hs + [h], blocks)), v) <= CountBelow(TimesOf(Recent(hs, blocks)), v)
  {
    var before, after := TimesOf(Recent(hs, blocks)), TimesOf(Recent(hs + [h], blocks));
    if |hs| < blocks {
      assert after == before + [h.time];
      CountBelowAppend(before, h.time, v);
    } else {
      assert after == before[1..] + [h.time];
      CountBelowAppend(before[1..], h.time, v);
      DropFirstCounts(before, v);
    }
  }

  /** One accepted header never moves the median back. */
  lemma MedianStep(hs: seq<Header>, h: Header, blocks: nat)
    requires blocks > 0 && hs != [] && h.time >= Median(hs, blocks)
    ensures Median(hs + [h], blocks) >= Median(hs, blocks)
  {
    var before, after := TimesOf(Recent(hs, blocks)), TimesOf(Recent(hs + [h], blocks));
    var v := Median(hs, blocks);
    RankIs(before, |before| / 2, v);
    WindowCounts(hs, h, blocks, v);
    RankIs(after, |after| / 2, v);
  }

  lemma LateAt(chain: seq<Header>, blocks: nat, i: nat)
    requires blocks > 0 && InTime(chain, blocks) && 0 < i < |chain|
    ensures chain[i].time > Median(chain[..i], blocks)
  {
    hide Median;
    assert LateEnough(chain[i], chain[..i], blocks);
  }

  /** Along every chain the rule accepts, the median never goes backwards. */
  lemma {:induction false} MedianNeverGoesBack(chain: seq<Header>, blocks: nat, i: nat, j: nat)
    requires blocks > 0 && InTime(chain, blocks) && 0 < i <= j <= |chain|
    ensures Median(chain[..i], blocks) <= Median(chain[..j], blocks)
    decreases j
  {
    hide InTime, Median;
    if i < j {
      MedianNeverGoesBack(chain, blocks, i, j - 1);
      LateAt(chain, blocks, j - 1);
      assert chain[..j] == chain[..j - 1] + [chain[j - 1]];
      MedianStep(chain[..j - 1], chain[j - 1], blocks);
    }
  }

  lemma MedianIs(hs: seq<Header>, blocks: nat)
    requires 0 < blocks <= |hs|
    ensures Median(hs, blocks) == Sorted(TimesOf(Recent(hs, blocks)))[blocks / 2]
  {
  }

  // -------------------------------------------------- and it does advance

  lemma {:induction false} CountSuffixAbove(xs: seq<u64>, v: nat, k: nat)
    requires k <= |xs| && forall i :: k <= i < |xs| ==> xs[i] >= v
    ensures CountBelow(xs, v) <= k
  {
    if |xs| > k {
      CountSuffixAbove(xs[..|xs| - 1], v, k);
    } else {
      CountAtMostLength(xs, v);
    }
  }

  /** Once the window is full, half a window of accepted headers, rounded up,
      moves the median strictly forward. */
  lemma MedianAdvances(chain: seq<Header>, blocks: nat, i: nat, j: nat)
    requires blocks > 0 && InTime(chain, blocks) && blocks <= i && j == i + (blocks + 1) / 2 <= |chain|
    ensures Median(chain[..i], blocks) < Median(chain[..j], blocks)
  {
    hide InTime, Median, Sorted;
    var v := Median(chain[..i], blocks);
    var times := TimesOf(Recent(chain[..j], blocks));
    forall k | blocks / 2 <= k < blocks
      ensures times[k] > v
    {
      var at := j - blocks + k;
      assert times[k] == chain[at].time;
      LateAt(chain, blocks, at);
      MedianNeverGoesBack(chain, blocks, i, at);
    }
    CountSuffixAbove(times, (v as nat) + 1, blocks / 2);
    RankIs(times, blocks / 2, (v as nat) + 1);
    MedianIs(chain[..j], blocks);
  }
}
