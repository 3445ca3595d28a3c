/** The two feedback loops of core/params as a chain sees them: which way the
    sequential gas target and the base fees move, by how much, and where they stop;
    the gas they are fed; and the beacon. */
module Controllers {
  import opened U256
  import opened Types
  import opened Validity
  import opened Ledgers
  import opened Medians
  import opened Fold
  import opened CertLaws
  import opened BlockLaws
  import opened Conservation
  import opened BlockFrames
  import opened Solvency
  import opened Runs
  import opened Epochs
  import opened Subsidies

  // --------------------------------------------------------- the gas target

  /** The next target is twice the median demand, brought into the allowed step: down
      by at most one part in the decay divisor, up by at most one in the growth
      divisor and only in a healthy epoch, within genesis and capacity. */
  lemma TargetMoves(p: Params, t: u64, demand: u64, healthy: bool)
    requires p.Valid() && p.seqGasTargetGenesis <= t <= p.seqGasCapacity
    ensures
      var lo := Max(p.seqGasTargetGenesis, t - Quot(t, p.decayDivisor));
      var hi := if healthy then Min(p.seqGasCapacity, t + Quot(t, p.growthDivisor)) else t;
      NearestTo(p.NextSeqGasTarget(t, demand, healthy), demand, lo, hi)
    ensures Product(p.decayDivisor, Quot(t, p.decayDivisor)) <= t < Product(p.decayDivisor, Quot(t, p.decayDivisor) + 1)
    ensures Product(p.growthDivisor, Quot(t, p.growthDivisor)) <= t < Product(p.growthDivisor, Quot(t, p.growthDivisor) + 1)
  {
    hide Quot, Product, Params.Valid, Wrap64;
    TargetFits(p, t);
    QuotMeans(t, p.decayDivisor);
    QuotMeans(t, p.growthDivisor);
  }

  lemma TargetFits(p: Params, t: u64)
    requires p.Valid() && t <= p.seqGasCapacity
    ensures p.decayDivisor > 0 && p.growthDivisor > 0 && p.seqGasTargetGenesis <= p.seqGasCapacity
    ensures Wrap64(t + Quot(t, p.growthDivisor)) == t + Quot(t, p.growthDivisor)
  {
    hide Quot;
    SmallMod(t + Quot(t, p.growthDivisor), TWO64);
  }

  /** At every boundary of every run: the median of the last epoch's applied gas
      doubled, brought into the step, growth withheld when the blocks of the epoch
      cited too many competing headers. */
  lemma RunTargetMoves(run: seq<Step>, p: Params, h: nat) returns (median: u64)
    requires p.Valid() && IsRun(run, p) && 0 < h < |run| && h % p.epochLength == 0
    ensures p.epochLength <= h
    ensures HasRank(AppliedGas(run, h - p.epochLength, p.epochLength), median, (p.epochLength - 1) / 2)
    ensures
      var before, after := run[h].pre.Get(ProtocolSlot(SeqGasTarget)), run[h].post.Get(ProtocolSlot(SeqGasTarget));
      var cited := Wrap64(|CitedHeaders(run, h - p.epochLength, h)|);
      var healthy := Product(cited, 10000) <= Product(p.healthGateBps, p.epochLength);
      NearestTo(after, Wrap64(2 * median),
                Max(p.seqGasTargetGenesis, before - Quot(before, p.decayDivisor)),
                if healthy then Min(p.seqGasCapacity, before + Quot(before, p.growthDivisor)) else before)
  {
    hide Apply, Sound, Wrap64, Product, Params.NextSeqGasTarget, NearestTo, HasRank, Quot, AppliedGas, CitedHeaders;
    median := ControllerSeesItsEpoch(run, p, h);
    assert StepOk(run, h, p);
    RunIsSound(run, p, h);
    SoundBounds(run[h].pre, p, h);
    var cited := Wrap64(|CitedHeaders(run, h - p.epochLength, h)|);
    TargetMoves(p, run[h].pre.Get(ProtocolSlot(SeqGasTarget)), Wrap64(2 * median),
                Product(cited, 10000) <= Product(p.healthGateBps, p.epochLength));
  }

  lemma SoundBounds(l: Ledger, p: Params, h: nat)
    requires p.Valid() && h > 0 && Sound(l, p, h)
    ensures
      var t := l.Get(ProtocolSlot(SeqGasTarget));
      p.seqGasTargetGenesis <= t <= p.seqGasCapacity && t < TWO64 && Wrap64(t) == t
  {
  }

  // ---------------------------------------------------------- the base fees

  /** One part in the denominator of base * gap / target, rounded down. */
  ghost predicate FeeStep(p: Params, base: nat, gap: nat, target: nat, delta: nat) {
    var d := Product(target, p.baseFeeDenominator);
    Product(d, delta) <= Product(base, gap) < Product(d, delta + 1)
  }

  lemma StepIs(p: Params, base: u256, gap: u64, target: u64)
    requires p.Valid() && 0 < target && gap <= target
    ensures FeeStep(p, base, gap, target, Quot(MulDiv64(base, gap, target), p.baseFeeDenominator))
    ensures Quot(MulDiv64(base, gap, target), p.baseFeeDenominator) <= base
  {
    hide Params.Valid, Product, Quot, MulDiv64;
    DenominatorPositive(p);
    ExactMulDiv(base, gap, target);
    DividedTwice(Product(base, gap), target, p.baseFeeDenominator);
  }

  lemma ExactMulDiv(u: u256, m: u64, d: u64)
    requires d > 0 && m <= d
    ensures MulDiv64(u, m, d) == Quot(Product(u, m), d) <= u
  {
    MulDivShrinks(u, m, d);
  }

  lemma DividedTwice(x: nat, a: nat, b: nat)
    requires a > 0 && b > 0
    ensures
      var d, q := Product(a, b), Quot(Quot(x, a), b);
      Product(d, q) <= x < Product(d, q + 1)
  {
    TwoDivisions(x, a, b);
  }

  lemma DenominatorPositive(p: Params)
    requires p.Valid()
    ensures p.baseFeeDenominator > 0
  {
  }

  /** Above the target the fee rises by the step, at least one unit; below it the
      fee falls by the step and stops at the floor; on target it stays. */
  ghost predicate FeeMoved(p: Params, base: nat, used: nat, target: nat, next: nat) {
    if used == target then next == base
    else if used > target then
      var gap := used - target;
      exists delta: nat :: FeeStep(p, base, gap, target, delta) && next == Min(MAX, base + Max(delta, 1))
    else
      var gap := target - used;
      exists delta: nat :: FeeStep(p, base, gap, target, delta) && delta <= base && next == Max(p.minBaseFee, base - delta)
  }

  lemma FeeMoves(p: Params, base: u256, used: u64, target: u64)
    requires p.Valid() && 0 < target && used <= 2 * target && base >= p.minBaseFee
    ensures FeeMoved(p, base, used, target, p.NextBaseFee(base, used, target))
  {
    hide MulDiv64, Quot, Product, FeeStep;
    if used > target {
      var delta := Quot(MulDiv64(base, used - target, target), p.baseFeeDenominator);
      StepIs(p, base, used - target, target);
      assert FeeStep(p, base, used - target, target, delta);
    } else if used < target {
      var delta := Quot(MulDiv64(base, target - used, target), p.baseFeeDenominator);
      StepIs(p, base, target - used, target);
      assert FeeStep(p, base, target - used, target, delta);
    }
  }

  /** No fee ever goes below the floor. */
  lemma FeeStaysUp(p: Params, base: u256, used: u64, target: u64)
    requires p.Valid() && base >= p.minBaseFee
    ensures p.NextBaseFee(base, used, target) >= p.minBaseFee
  {
    hide MulDiv64, Quot;
  }

  // ------------------------------------------------ the gas they are fed

  /** The gas of the certificates that applied. */
  function AppliedSeqGas(cc: seq<Carried>, outs: seq<CertOutcome>, p: Params): nat
    requires |cc| == |outs|
  {
    if cc == [] then 0
    else
      var n := |cc| - 1;
      AppliedSeqGas(cc[..n], outs[..n], p) + if outs[n].outcome == Applied then p.SeqGas(cc[n].cert) else 0
  }

  function AppliedParGas(cc: seq<Carried>, outs: seq<CertOutcome>, p: Params): nat
    requires |cc| == |outs|
  {
    if cc == [] then 0
    else
      var n := |cc| - 1;
      AppliedParGas(cc[..n], outs[..n], p) + if outs[n].outcome == Applied then p.ParGas(cc[n].cert) else 0
  }

  /** The four gas counters: used counts every certificate, applied only those that
      applied, each in its own market. */
  ghost predicate Counted(cc: seq<Carried>, p: Params, outs: seq<CertOutcome>, seqUsed: u64, parUsed: u64,
                          seqApplied: u64, parApplied: u64)
  {
    && |outs| == |cc|
    && seqUsed == Wrap64(SeqGasSum(cc, p)) && parUsed == Wrap64(ParGasSum(cc, p))
    && seqApplied == Wrap64(AppliedSeqGas(cc, outs, p)) && parApplied == Wrap64(AppliedParGas(cc, outs, p))
  }

  lemma {:induction false} FoldCounts(l: Ledger, cc: seq<Carried>, p: Params, seqBase: u256, parBase: u256)
    ensures
      var g := FoldCerts(l, cc, p, seqBase, parBase);
      g.Running? ==> Counted(cc, p, g.outcomes, g.seqUsed, g.parUsed, g.seqApplied, g.parApplied)
  {
    hide FoldOne, Wrap64;
    if cc == [] {
      WrapZero();
    } else {
      var n := |cc| - 1;
      FoldCounts(l, cc[..n], p, seqBase, parBase);
      var g, g' := FoldCerts(l, cc[..n], p, seqBase, parBase), FoldCerts(l, cc, p, seqBase, parBase);
      if g.Running? && g'.Running? {
        FoldOneCounts(g, cc[n], p, seqBase, parBase);
        assert g'.outcomes[..n] == g.outcomes;
        WrapAbsorbs(SeqGasSum(cc[..n], p), p.SeqGas(cc[n].cert));
        WrapAbsorbs(ParGasSum(cc[..n], p), p.ParGas(cc[n].cert));
        WrapAbsorbs(AppliedSeqGas(cc[..n], g.outcomes, p), p.SeqGas(cc[n].cert));
        WrapAbsorbs(AppliedParGas(cc[..n], g.outcomes, p), p.ParGas(cc[n].cert));
      }
    }
  }

  lemma FoldOneCounts(g: Progress, cy: Carried, p: Params, seqBase: u256, parBase: u256)
    requires g.Running? && FoldOne(g, cy, p, seqBase, parBase).Running?
    ensures
      var g' := FoldOne(g, cy, p, seqBase, parBase);
      var n := |g.outcomes|;
      && |g'.outcomes| == n + 1 && g'.outcomes[..n] == g.outcomes
      && g'.seqUsed == Wrap64(g.seqUsed + p.SeqGas(cy.cert)) && g'.parUsed == Wrap64(g.parUsed + p.ParGas(cy.cert))
      && g'.seqApplied == (if g'.outcomes[n].outcome == Applied then Wrap64(g.seqApplied + p.SeqGas(cy.cert)) else g.seqApplied)
      && g'.parApplied == (if g'.outcomes[n].outcome == Applied then Wrap64(g.parApplied + p.ParGas(cy.cert)) else g.parApplied)
  {
    hide ApplyCertificate, Params.SeqGas, Params.ParGas, Wrap64;
  }

  /** What an accepted block reports of its gas. */
  lemma BlockCounts(l: Ledger, b: Block, p: Params, checkRoot: bool)
    requires p.Valid() && Apply(l, b, p, checkRoot).Accepted?
    ensures
      var res := Apply(l, b, p, checkRoot).res;
      Counted(FoldOrder(Carry(b.certs, p)), p, res.outcomes, res.seqGasUsed, res.parGasUsed, res.seqGasApplied, res.parGasApplied)
  {
    hide Apply, BlockRule, StagesOf, FoldOrder, FoldCerts, Counted, Prologue;
    var r := Apply(l, b, p, checkRoot);
    var s := AcceptedStages(l, b, p, checkRoot);
    FoldedIs(l, b, p, s, r.ledger, r.res);
    CountersAre(l, b, p, s, r.ledger, r.res);
    FoldCounts(s.begun, FoldOrder(Carry(b.certs, p)), p, s.seqBase, s.parBase);
  }

  lemma CountersAre(l: Ledger, b: Block, p: Params, s: Stages, l': Ledger, res: BlockResult)
    requires p.Valid() && StagesOf(l, b, p, s, l', res)
    ensures res.outcomes == s.folded.outcomes
    ensures res.seqGasUsed == s.folded.seqUsed && res.parGasUsed == s.folded.parUsed
    ensures res.seqGasApplied == s.folded.seqApplied && res.parGasApplied == s.folded.parApplied
  {
  }

  // ------------------------------------------------------- fees along a run

  lemma FeesAfter(l: Ledger, b: Block, p: Params, checkRoot: bool)
    requires p.Valid() && Apply(l, b, p, checkRoot).Accepted? && RingPaysUsers(l)
    ensures
      var r := Apply(l, b, p, checkRoot);
      var h := b.header.height;
      var t := CurrentSeqGasTarget(l, p, h);
      var seqFee, parFee := r.ledger.Get(ProtocolSlot(SeqBaseFee)), r.ledger.Get(ProtocolSlot(ParBaseFee));
      if h == 0 then seqFee == p.initialSeqBaseFee && parFee == p.initialParBaseFee
      else
        && seqFee == p.NextBaseFee(l.Get(ProtocolSlot(SeqBaseFee)), Min(r.res.seqGasApplied, p.SeqGasLimit(t)), t)
        && parFee == p.NextBaseFee(l.Get(ProtocolSlot(ParBaseFee)), r.res.parGasApplied, p.ParGasTarget(t))
  {
    hide Apply, BlockRule, FoldOrder, FoldCerts, Prologue, Bookkeeping, PruneSeen, RewardOf, PayTreasury, ReleaseCoinbase,
      RecordCoinbase, TreasuryShare, CurrentSeqGasTarget, Params.NextBaseFee, Params.SeqGasLimit, Params.ParGasTarget,
      RingPaysUsers;
    var r := Apply(l, b, p, checkRoot);
    var s := AcceptedStages(l, b, p, checkRoot);
    BasesAgree(l, b, p);
    if b.header.height == 0 {
      RecordedFee(l, b, p, s, r.ledger, r.res, SeqBaseFee);
      RecordedFee(l, b, p, s, r.ledger, r.res, ParBaseFee);
    }
  }

  /** A fee cell, before the fees are updated, is the one the block opened with. */
  lemma RecordedFee(l: Ledger, b: Block, p: Params, s: Stages, l': Ledger, res: BlockResult, w: Word)
    requires p.Valid() && BlockRule(l, b, p).None? && StagesOf(l, b, p, s, l', res) && RingPaysUsers(l) && FeeWord(w)
    ensures s.recorded.Get(ProtocolSlot(w)) == s.begun.Get(ProtocolSlot(w))
  {
    hide BlockRule, FoldOrder, FoldCerts, Prologue, Bookkeeping, PruneSeen, RewardOf, PayTreasury, ReleaseCoinbase,
      RecordCoinbase, TreasuryShare, CurrentSeqGasTarget, UpdateBaseFees;
    var slot := ProtocolSlot(w);
    var index := b.header.height % p.coinbaseMaturity;
    KeptAt(l, b, p, s, l', res, slot);
    RingKept(l, b, p, s, l', res);
    TreasuryAt(s.kept, TreasuryShare(p, b.header.height), slot);
    ReleaseAt(s.funded, index, s.reward.burned, slot);
    RecordAt(s.paid.ledger, index, b.header.emissionAddr, s.reward.miner, slot);
  }

  /** In every reachable state both base fees are at or above the floor. */
  lemma {:induction false} FeesStayUp(run: seq<Step>, p: Params, n: nat)
    requires p.Valid() && IsRun(run, p) && 0 < n <= |run|
    ensures StateAt(run, n).Get(ProtocolSlot(SeqBaseFee)) >= p.minBaseFee
    ensures StateAt(run, n).Get(ProtocolSlot(ParBaseFee)) >= p.minBaseFee
  {
    hide Apply, Sound, Params.NextBaseFee, CurrentSeqGasTarget, Params.SeqGasLimit, Params.ParGasTarget;
    var k := n - 1;
    assert StepOk(run, k, p);
    RunIsSound(run, p, k);
    SoundRing(run[k].pre, p, k);
    FeesAfter(run[k].pre, run[k].block, p, true);
    if k > 0 {
      FeesStayUp(run, p, k);
      var t := CurrentSeqGasTarget(run[k].pre, p, k);
      FeeStaysUp(p, run[k].pre.Get(ProtocolSlot(SeqBaseFee)), Min(run[k].res.seqGasApplied, p.SeqGasLimit(t)), t);
      FeeStaysUp(p, run[k].pre.Get(ProtocolSlot(ParBaseFee)), run[k].res.parGasApplied, p.ParGasTarget(t));
    }
  }

  /** At every block of every run the fees answer the applied gas: the sequential
      one against the target, counting no more than twice it; the parallel one
      against the target times the ratio, whatever that is when it is not zero. */
  lemma RunFeesMove(run: seq<Step>, p: Params, k: nat)
    requires p.Valid() && IsRun(run, p) && 0 < k < |run|
    ensures
      var t := run[k].pre.Get(ProtocolSlot(SeqGasTarget));
      FeeMoved(p, run[k].pre.Get(ProtocolSlot(SeqBaseFee)), Min(run[k].res.seqGasApplied, 2 * t), t,
               run[k].post.Get(ProtocolSlot(SeqBaseFee)))
    ensures
      var target := Product(p.parGasRatio, run[k].pre.Get(ProtocolSlot(SeqGasTarget)));
      0 < target && run[k].res.parGasApplied <= 2 * target ==>
        FeeMoved(p, run[k].pre.Get(ProtocolSlot(ParBaseFee)), run[k].res.parGasApplied, target,
                 run[k].post.Get(ProtocolSlot(ParBaseFee)))
  {
    hide Apply, Sound, Params.NextBaseFee, FeeMoved, Product;
    assert StepOk(run, k, p);
    RunIsSound(run, p, k);
    SoundRing(run[k].pre, p, k);
    SoundBounds(run[k].pre, p, k);
    FeesAfter(run[k].pre, run[k].block, p, true);
    FeesStayUp(run, p, k);
    var t := run[k].pre.Get(ProtocolSlot(SeqGasTarget));
    LimitsAre(p, t);
    FeeMoves(p, run[k].pre.Get(ProtocolSlot(SeqBaseFee)), Min(run[k].res.seqGasApplied, 2 * t), t);
    var target := Product(p.parGasRatio, t);
    if 0 < target && run[k].res.parGasApplied <= 2 * target {
      FeeMoves(p, run[k].pre.Get(ProtocolSlot(ParBaseFee)), run[k].res.parGasApplied, target);
    }
  }

  // -------------------------------------------------------------- the beacon

  lemma BeaconAfter(l: Ledger, b: Block, p: Params, checkRoot: bool, w: Word)
    requires p.Valid() && Apply(l, b, p, checkRoot).Accepted? && RingPaysUsers(l)
    requires w in {BeaconEpoch, BeaconHeight, BeaconEntropy}
    ensures Apply(l, b, p, checkRoot).ledger.Get(ProtocolSlot(w)) == Prologue(l, b, p).Get(ProtocolSlot(w))
  {
    hide Apply, BlockRule, StagesOf, Prologue;
    var r := Apply(l, b, p, checkRoot);
    var s := AcceptedStages(l, b, p, checkRoot);
    var slot := ProtocolSlot(w);
    KeptAt(l, b, p, s, r.ledger, r.res, slot);
    RingKept(l, b, p, s, r.ledger, r.res);
    TailAt(l, b, p, s, r.ledger, r.res, slot);
    BegunIs(l, b, p, s, r.ledger, r.res);
  }

  lemma PrologueBeacon(l: Ledger, b: Block, p: Params)
    requires p.Valid()
    ensures
      var l' := Prologue(l, b, p);
      if p.IsEpochBoundary(b.header.height) then
        && l'.Get(ProtocolSlot(BeaconHeight)) == b.header.height
        && l'.Get(ProtocolSlot(BeaconEpoch)) == Quot(b.header.height, p.epochLength)
        && l'.Get(ProtocolSlot(BeaconEntropy)) == TopHalf(b.header.parentId)
      else
        && l'.Get(ProtocolSlot(BeaconHeight)) == l.Get(ProtocolSlot(BeaconHeight))
        && l'.Get(ProtocolSlot(BeaconEpoch)) == l.Get(ProtocolSlot(BeaconEpoch))
        && l'.Get(ProtocolSlot(BeaconEntropy)) == l.Get(ProtocolSlot(BeaconEntropy))
  {
    hide LowerMedian, Healthy, Params.NextSeqGasTarget, Quot;
  }

  /** The high sixteen bytes of an id, the low sixteen cleared. */
  function TopHalf(id: Hash): Hash {
    id / TWO128 * TWO128
  }

  /** In every reachable state the beacon is the last boundary's: its height, its
      epoch, and the top half of the id it builds on. */
  lemma {:induction false} BeaconHolds(run: seq<Step>, p: Params, n: nat)
    requires p.Valid() && IsRun(run, p) && 0 < n <= |run|
    ensures EpochStart(p, n) < n && EpochStart(p, n) % p.epochLength == 0
    ensures
      var l, start := StateAt(run, n), EpochStart(p, n);
      && l.Get(ProtocolSlot(BeaconHeight)) == start
      && l.Get(ProtocolSlot(BeaconEpoch)) == Quot(start, p.epochLength)
      && l.Get(ProtocolSlot(BeaconEntropy)) == TopHalf(run[start].block.header.parentId)
  {
    hide Apply, Sound, Prologue, Quot, TopHalf;
    var k := n - 1;
    assert StepOk(run, k, p);
    RunIsSound(run, p, k);
    SoundRing(run[k].pre, p, k);
    var b := run[k].block;
    BeaconAfter(run[k].pre, b, p, true, BeaconHeight);
    BeaconAfter(run[k].pre, b, p, true, BeaconEpoch);
    BeaconAfter(run[k].pre, b, p, true, BeaconEntropy);
    PrologueBeacon(run[k].pre, b, p);
    if k % p.epochLength != 0 {
      ZeroIsBoundary(p);
      BeaconHolds(run, p, k);
    }
  }

  lemma ZeroIsBoundary(p: Params)
    requires p.Valid()
    ensures 0 % p.epochLength == 0
  {
  }
}
