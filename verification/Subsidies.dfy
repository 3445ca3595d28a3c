/** What a block issues and to whom (core/fold F11): the treasury's share in basis
    points, of one block and along every run, and how much of the producer's reward
    a burst forfeits. */
module Subsidies {
  import opened U256
  import opened Types
  import opened Validity
  import opened Ledgers
  import opened Fold
  import opened BlockLaws
  import opened Conservation
  import opened BlockFrames
  import opened Runs

  /** The floor of u*m/d, while it is representable. */
  lemma MulDivMeans(u: u256, m: u64, d: u64)
    requires d > 0 && m <= d
    ensures d * MulDiv64(u, m, d) <= Product(u, m) < d * (MulDiv64(u, m, d) + 1)
  {
    MulDivShrinks(u, m, d);
    var q := Product(u, m) / d;
    assert d * q <= Product(u, m) < d * (q + 1);
  }

  // ------------------------------------------------------------- the treasury

  /** The share of one block: that many basis points of the subsidy, rounded down. */
  lemma ShareMeans(p: Params, h: u64)
    requires p.Valid()
    ensures 10000 * TreasuryShare(p, h) <= Product(p.Emission(h), p.treasuryShareBps) < 10000 * (TreasuryShare(p, h) + 1)
  {
    hide Params.Emission, MulDiv64, Product;
    MulDivMeans(p.Emission(h), p.treasuryShareBps, 10000);
  }

  lemma BlockShare(l: Ledger, b: Block, p: Params, checkRoot: bool)
    requires p.Valid() && Apply(l, b, p, checkRoot).Accepted?
    ensures
      var treasury := Apply(l, b, p, checkRoot).res.treasury;
      10000 * treasury <= Product(p.Emission(b.header.height), p.treasuryShareBps) < 10000 * (treasury + 1)
  {
    hide Apply, BlockRule, Params.Emission, Product, TreasuryShare;
    var s := AcceptedStages(l, b, p, checkRoot);
    ShareMeans(p, b.header.height);
  }

  lemma {:induction false} SharesAddUp(run: seq<Step>, p: Params, n: nat)
    requires p.Valid() && IsRun(run, p) && n <= |run| && n <= TWO64
    ensures 10000 * TreasuryUpTo(run, n) <= Product(IssuedBefore(p, n), p.treasuryShareBps)
    ensures n > 0 ==> Product(IssuedBefore(p, n), p.treasuryShareBps) < 10000 * (TreasuryUpTo(run, n) + n)
  {
    hide Apply, Params.Emission, Product, Params.Valid;
    if n == 0 {
      NoShare(p.treasuryShareBps);
    } else {
      SharesAddUp(run, p, n - 1);
      assert StepOk(run, n - 1, p);
      BlockShare(run[n - 1].pre, run[n - 1].block, p, true);
      IssuedStep(p, n);
      ProductAdds(IssuedBefore(p, n - 1), p.Emission(n - 1), p.treasuryShareBps);
    }
  }

  lemma NoShare(m: nat)
    ensures Product(0, m) == 0
  {
  }

  lemma ProductAdds(a: nat, b: nat, m: nat)
    ensures Product(a + b, m) == Product(a, m) + Product(b, m)
  {
  }

  /** Along every run the treasury cell is its share of everything issued, short by
      less than one unit a block. */
  lemma TreasuryIsItsShare(run: seq<Step>, p: Params, n: nat)
    requires p.Valid() && IsRun(run, p) && 0 < n <= |run| && n <= TWO64
    ensures
      var cell := StateAt(run, n).Get(TreasurySlot());
      10000 * cell <= Product(p.treasuryShareBps, IssuedBefore(p, n)) < 10000 * (cell + n)
  {
    hide Apply, Params.Emission, Product, TreasuryUpTo;
    TreasuryIsSealed(run, p, n);
    SharesAddUp(run, p, n);
    ProductSwap(p.treasuryShareBps, IssuedBefore(p, n));
  }

  // ------------------------------------------------------------ the forfeiture

  /** Rounding down twice: F is within one unit and one part in the limit of
      reward * (excess / limit)^2. */
  lemma TwoFloors(r: nat, e: nat, d: nat, a: nat, f: nat)
    requires d * a <= r * e < d * (a + 1) && d * f <= a * e < d * (f + 1)
    ensures d * (d * f) <= r * e * e < d * (d * (f + 1)) + d * e
  {
    var x, y := r * e, a * e;
    Scales(d, d * f, y);
    Scales(e, d * a, x);
    Scales(e, x, d * (a + 1));
    Scales(d, y, d * (f + 1) - 1);
    assert e * (d * a) == d * y;
    assert e * (d * (a + 1)) == d * y + d * e by { Spreads(e, d, a); }
    assert d * (d * (f + 1) - 1) == d * (d * (f + 1)) - d;
  }

  lemma Spreads(e: int, d: int, a: int)
    ensures e * (d * (a + 1)) == d * (a * e) + d * e
  {
    assert d * (a + 1) == d * a + d;
    assert e * (d * a) == d * (a * e);
  }

  lemma ForfeitMeans(reward: u256, used: u64, limit: u64)
    requires limit < used <= 2 * limit
    ensures
      var e, f := used - limit, Forfeit(reward, used, limit);
      limit * (limit * f) <= reward * e * e < limit * (limit * (f + 1)) + limit * e
  {
    hide MulDiv64;
    var e := used - limit;
    var a := MulDiv64(reward, e, limit);
    MulDivMeans(reward, e, limit);
    MulDivMeans(a, e, limit);
    ProductsAre(reward, e, a);
    TwoFloors(reward, e, limit, a, Forfeit(reward, used, limit));
  }

  lemma ProductsAre(r: nat, e: nat, a: nat)
    ensures Product(r, e) == r * e && Product(a, e) == a * e
  {
  }

  /** The tips of a block's certificates. */
  function TipsOf(l: Ledger, b: Block, p: Params): nat
    requires p.Valid()
  {
    var begun := Prologue(l, b, p);
    var g := FoldCerts(begun, FoldOrder(Carry(b.certs, p)), p, begun.Get(ProtocolSlot(SeqBaseFee)),
                       begun.Get(ProtocolSlot(ParBaseFee)));
    if g.Running? then g.tips else 0
  }

  /** The producer gets the rest of the subsidy and the tips, less nothing up to the
      gas limit, and above it less the square of the relative excess. */
  ghost predicate Forfeited(due: nat, used: nat, limit: nat, paid: nat) {
    if used <= limit then paid == due
    else
      var e := used - limit;
      paid <= due && limit * (limit * (due - paid)) <= due * e * e < limit * (limit * (due - paid + 1)) + limit * e
  }

  lemma RewardMeans(p: Params, h: u64, tips: u256, burned: u256, used: u64, t: u64)
    requires p.Valid() && 4 * t < TWO64
    requires used <= p.SeqGasBurst(t) && BurstWellDefined(used, p.SeqGasLimit(t))
    ensures
      var r := RewardOf(p, h, tips, burned, used, p.SeqGasLimit(t));
      r.Reward? ==>
        && TreasuryShare(p, h) <= p.Emission(h)
        && Forfeited(p.Emission(h) - TreasuryShare(p, h) + tips, used, 2 * t, r.miner)
  {
    hide Params.Emission, TreasuryShare, Forfeit;
    var limit := p.SeqGasLimit(t);
    assert limit == 2 * t && p.SeqGasBurst(t) == 4 * t;
    if TreasuryShare(p, h) <= p.Emission(h) && used > limit {
      var reward := p.Emission(h) - TreasuryShare(p, h) + tips;
      if reward < TWO256 {
        ForfeitMeans(reward, used, limit);
        ForfeitWithinReward(reward, used, t, p);
      }
    }
  }

  /** What an accepted block pays its producer. */
  lemma BlockPays(l: Ledger, b: Block, p: Params, checkRoot: bool)
    requires p.Valid() && Apply(l, b, p, checkRoot).Accepted? && TargetInRange(l, p, b.header.height)
    ensures
      var res := Apply(l, b, p, checkRoot).res;
      && res.treasury <= p.Emission(b.header.height)
      && Forfeited(p.Emission(b.header.height) - res.treasury + TipsOf(l, b, p), res.seqGasUsed,
                   2 * CurrentSeqGasTarget(l, p, b.header.height), res.minerReward)
  {
    hide Apply, BlockRule, Params.Emission, TreasuryShare, Forfeited, FoldCerts, FoldOrder, Prologue, Bookkeeping, PruneSeen,
      RewardOf, PayTreasury, ReleaseCoinbase, RecordCoinbase, UpdateBaseFees, CurrentSeqGasTarget, BurstWellDefined,
      Params.SeqGasBurst, Params.SeqGasLimit;
    var h := b.header.height;
    var s := AcceptedStages(l, b, p, checkRoot);
    TargetIsSmall(l, p, h);
    RewardMeans(p, h, s.folded.tips, s.folded.burned, s.folded.seqUsed, s.t);
  }

  // -------------------------------------------------------------- the schedule

  /** One epoch to the next: down by one part in the divisor, rounded down but at
      least one unit, and never below the tail, where it stays. */
  lemma RateStep(p: Params, epoch: nat)
    requires p.Valid()
    ensures
      var r, next, d := p.EpochRate(epoch), p.EpochRate(epoch + 1), p.emissionDecayDivisor;
      && p.tailEmission <= next <= r
      && (r == p.tailEmission ==> next == r)
      && (r > p.tailEmission ==> next < r)
      && (next > p.tailEmission ==>
            && (Product(d, r - next) <= r || r - next == 1)
            && r < Product(d, r - next + 1))
  {
    RateAboveTail(p, epoch);
    var r, d: nat := p.EpochRate(epoch), p.emissionDecayDivisor;
    var q := Quot(r, d);
    QuotMeans(r, d);
    hide Quot;
    if q == 0 {
      assert Product(d, 2) == 2 * d && Product(d, 1) == d;
    }
  }

  lemma {:induction false} RateAboveTail(p: Params, epoch: nat)
    requires p.Valid()
    ensures p.EpochRate(epoch) >= p.tailEmission
  {
    hide Quot;
    if epoch > 0 {
      RateAboveTail(p, epoch - 1);
    }
  }

  lemma QuotMeans(a: nat, d: nat)
    requires d > 0
    ensures Product(d, Quot(a, d)) <= a < Product(d, Quot(a, d) + 1)
  {
  }

  /** The rate reaches its tail, and keeps it. */
  lemma {:induction false} RateReachesTail(p: Params, epoch: nat)
    requires p.Valid()
    ensures p.EpochRate(epoch) == p.tailEmission || p.EpochRate(epoch) + epoch <= p.genesisEmission
  {
    hide Params.EpochRate, Product;
    if epoch == 0 {
      RateBegins(p);
    } else {
      RateReachesTail(p, epoch - 1);
      RateStep(p, epoch - 1);
    }
  }

  lemma RateBegins(p: Params)
    requires p.Valid()
    ensures p.EpochRate(0) == p.genesisEmission
  {
  }

  /** Height 0 pays nothing; every other height its epoch's rate. */
  lemma EmissionMeans(p: Params, h: u64, epoch: nat)
    requires p.Valid() && epoch * p.epochLength <= h < (epoch + 1) * p.epochLength
    ensures p.Emission(h) == if h == 0 then 0 else p.EpochRate(epoch)
  {
    hide Params.EpochRate;
    EpochIs(h, p.epochLength, epoch);
  }

  lemma EpochIs(h: nat, length: nat, epoch: nat)
    requires length > 0 && epoch * length <= h < (epoch + 1) * length
    ensures h / length == epoch
  {
    var q := h / length;
    assert length * q <= h < length * (q + 1);
    MulCancels(length, q, epoch + 1);
    MulCancels(length, epoch, q + 1);
  }

  // ---------------------------------------------------------- the gas limits

  /** In range, the limits derived from a gas target are its exact multiples. */
  lemma LimitsAre(p: Params, t: u64)
    requires p.Valid() && t <= p.seqGasCapacity
    ensures p.SeqGasLimit(t) == 2 * t && p.SeqGasBurst(t) == 4 * t
    ensures p.ParGasTarget(t) == Product(p.parGasRatio, t)
    ensures p.ParGasLimit(t) == 2 * Product(p.parGasRatio, t) < TWO64
  {
    hide Params.Valid, Product, Wrap64;
    TargetsFit(p, t);
    WrapSmall(2 * t);
    WrapSmall(4 * t);
    WrapSmall(Product(p.parGasRatio, t));
    DoubledProduct(p.parGasRatio, t);
    WrapSmall(Product(p.parGasRatio, 2 * t));
  }

  lemma TargetsFit(p: Params, t: u64)
    requires p.Valid() && t <= p.seqGasCapacity
    ensures 4 * t < TWO64 && 2 * Product(p.parGasRatio, t) < TWO64
  {
    Scales(p.parGasRatio, t, p.seqGasCapacity);
  }

  lemma DoubledProduct(a: nat, b: nat)
    ensures Product(a, 2 * b) == 2 * Product(a, b)
  {
  }

  lemma WrapSmall(n: nat)
    requires n < TWO64
    ensures Wrap64(n) == n
  {
  }
}
