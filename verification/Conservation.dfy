/** Native conservation across one block, and the frame of each block stage. */
module Conservation {
  import opened U256
  import opened Types
  import opened Validity
  import opened Ledgers
  import opened Fold
  import opened CertLaws
  import opened BlockLaws

  // --------------------------------------------------- what each stage writes

  predicate PrologueWord(w: Word) {
    w in {BeaconEpoch, BeaconHeight, BeaconEntropy, SeqGasTarget, CitedCount, SeqBaseFee, ParBaseFee}
  }

  predicate BookWord(w: Word) {
    w.AppliedGasSample? || w in {CitedCount, PrevParentId, PrevTarget}
  }

  predicate FeeWord(w: Word) {
    w in {SeqBaseFee, ParBaseFee}
  }

  /** A protocol word that no pool counts. */
  predicate QuietWord(w: Word) {
    PrologueWord(w) || BookWord(w) || FeeWord(w)
  }

  lemma QuietPut(l: Ledger, w: Word, v: u256, pool: Pool)
    requires QuietWord(w)
    ensures Total(l.Put(ProtocolSlot(w), v).cells, pool) == Total(l.cells, pool)
  {
    TotalPut(l.cells, pool, ProtocolSlot(w), v);
  }

  lemma BeaconQuiet(l: Ledger, b: Block, p: Params, pool: Pool)
    requires p.Valid()
    ensures Total(WriteBeacon(l, b, p).cells, pool) == Total(l.cells, pool)
  {
    hide Total;
    var l1 := l.Put(ProtocolSlot(BeaconEpoch), Quot(b.header.height, p.epochLength));
    var l2 := l1.Put(ProtocolSlot(BeaconHeight), b.header.height);
    QuietPut(l, BeaconEpoch, Quot(b.header.height, p.epochLength), pool);
    QuietPut(l1, BeaconHeight, b.header.height, pool);
    QuietPut(l2, BeaconEntropy, b.header.parentId - b.header.parentId % TWO128, pool);
  }

  lemma TargetQuiet(l: Ledger, p: Params, pool: Pool)
    requires p.Valid()
    ensures Total(UpdateSeqGasTarget(l, p).cells, pool) == Total(l.cells, pool)
  {
    hide Total, LowerMedian, Healthy, Params.NextSeqGasTarget;
    var next := p.NextSeqGasTarget(Wrap64(l.Get(ProtocolSlot(SeqGasTarget))), Wrap64(2 * LowerMedian(l, p)), Healthy(l, p));
    QuietPut(l, SeqGasTarget, next, pool);
    QuietPut(l.Put(ProtocolSlot(SeqGasTarget), next), CitedCount, 0, pool);
  }

  lemma PrologueQuiet(l: Ledger, b: Block, p: Params, pool: Pool)
    requires p.Valid()
    ensures Total(Prologue(l, b, p).cells, pool) == Total(l.cells, pool)
  {
    hide Total, WriteBeacon, UpdateSeqGasTarget;
    var h := b.header.height;
    BeaconQuiet(l, b, p, pool);
    var l1 := if p.IsEpochBoundary(h) then WriteBeacon(l, b, p) else l;
    TargetQuiet(l1, p, pool);
    var l2 := if p.IsEpochBoundary(h) && h > 0 then UpdateSeqGasTarget(l1, p) else l1;
    var l3 := l2.Put(ProtocolSlot(SeqBaseFee), p.initialSeqBaseFee);
    var l4 := l3.Put(ProtocolSlot(ParBaseFee), p.initialParBaseFee);
    QuietPut(l2, SeqBaseFee, p.initialSeqBaseFee, pool);
    QuietPut(l3, ParBaseFee, p.initialParBaseFee, pool);
    QuietPut(l4, SeqGasTarget, p.seqGasTargetGenesis, pool);
  }

  lemma BookkeepingQuiet(l: Ledger, b: Block, p: Params, seqApplied: u64, pool: Pool)
    requires p.Valid()
    ensures Total(Bookkeeping(l, b, p, seqApplied).cells, pool) == Total(l.cells, pool)
  {
    hide Total, Wrap64;
    var w := AppliedGasSample(b.header.height % p.epochLength);
    QuietPut(l, w, seqApplied, pool);
    var l1 := l.Put(ProtocolSlot(w), seqApplied);
    var count := Wrap64(Wrap64(l1.Get(ProtocolSlot(CitedCount))) + |b.cites|);
    QuietPut(l1, CitedCount, count, pool);
    var l2 := if b.cites == [] then l1 else l1.Put(ProtocolSlot(CitedCount), count);
    QuietPut(l2, PrevParentId, b.header.parentId, pool);
    QuietPut(l2.Put(ProtocolSlot(PrevParentId), b.header.parentId), PrevTarget, b.header.target, pool);
  }

  lemma BaseFeesQuiet(l: Ledger, b: Block, p: Params, t: u64, seqBase: u256, parBase: u256, sa: u64, pa: u64, pool: Pool)
    requires p.Valid()
    ensures Total(UpdateBaseFees(l, b, p, t, seqBase, parBase, sa, pa).cells, pool) == Total(l.cells, pool)
  {
    hide Total, Params.NextBaseFee;
    var s := p.NextBaseFee(seqBase, Min(sa, p.SeqGasLimit(t)), t);
    var q := p.NextBaseFee(parBase, pa, p.ParGasTarget(t));
    QuietPut(l, SeqBaseFee, s, pool);
    QuietPut(l.Put(ProtocolSlot(SeqBaseFee), s), ParBaseFee, q, pool);
  }

  // ------------------------------------------------------ where value moves

  lemma TreasuryTotal(l: Ledger, treasury: u256, maturity: nat)
    ensures
      var r := PayTreasury(l, treasury);
      r.Some? ==> Total(r.value.cells, Native(maturity)) == Total(l.cells, Native(maturity)) + treasury
  {
    if l.Get(TreasurySlot()) + treasury < TWO256 {
      TotalPut(l.cells, Native(maturity), TreasurySlot(), l.Get(TreasurySlot()) + treasury);
    }
  }

  lemma ReleaseTotal(l: Ledger, index: nat, burned: u256, maturity: nat)
    ensures
      var r := ReleaseCoinbase(l, index, burned);
      r.Paid? ==>
        Total(r.ledger.cells, Native(maturity)) + r.burned
        == Total(l.cells, Native(maturity)) + burned + l.Get(ProtocolSlot(PendingAmount(index)))
  {
    var payee := l.Get(ProtocolSlot(PendingAddr(index)));
    var amount := l.Get(ProtocolSlot(PendingAmount(index)));
    if l.Get(NativeSlot(payee)) + amount < TWO256 {
      TotalPut(l.cells, Native(maturity), NativeSlot(payee), l.Get(NativeSlot(payee)) + amount);
    }
  }

  lemma ReleaseKeepsRing(l: Ledger, index: nat, burned: u256, w: Word)
    requires !w.Balance?
    ensures
      var r := ReleaseCoinbase(l, index, burned);
      r.Paid? ==> r.ledger.Get(ProtocolSlot(w)) == l.Get(ProtocolSlot(w))
  {
  }

  lemma RecordTotal(l: Ledger, index: nat, payee: Address, reward: u256, maturity: nat)
    requires index < maturity
    ensures Total(RecordCoinbase(l, index, payee, reward).cells, Native(maturity))
            == Total(l.cells, Native(maturity)) - l.Get(ProtocolSlot(PendingAmount(index))) + reward
  {
    var who := if reward == 0 then 0 else payee;
    TotalPut(l.cells, Native(maturity), ProtocolSlot(PendingAddr(index)), who);
    TotalPut(l.Put(ProtocolSlot(PendingAddr(index)), who).cells, Native(maturity), ProtocolSlot(PendingAmount(index)), reward);
  }

  /** Inside the burst band the forfeit never exceeds the reward, so the
      saturating subtraction of the source is exact. */
  lemma ForfeitWithinReward(reward: u256, used: u64, t: u64, p: Params)
    requires 4 * t < TWO64
    requires used > p.SeqGasLimit(t) > 0 && used <= p.SeqGasBurst(t)
    ensures Forfeit(reward, used, p.SeqGasLimit(t)) <= reward
  {
    var limit := p.SeqGasLimit(t);
    assert limit == 2 * t && p.SeqGasBurst(t) == 4 * t;
    var excess := used - limit;
    MulDivShrinks(reward, excess, limit);
    MulDivShrinks(MulDiv64(reward, excess, limit), excess, limit);
  }

  /** F11 hands out the subsidy and the tips, or burns them. */
  lemma RewardSplits(p: Params, h: u64, tips: u256, burned: u256, used: u64, t: u64)
    requires p.Valid() && 4 * t < TWO64
    requires used <= p.SeqGasBurst(t) && BurstWellDefined(used, p.SeqGasLimit(t))
    ensures
      var r := RewardOf(p, h, tips, burned, used, p.SeqGasLimit(t));
      r.Reward? ==> r.miner + r.burned + TreasuryShare(p, h) == p.Emission(h) + tips + burned
  {
    hide Params.Emission, TreasuryShare, MulDiv64;
    var reward := p.Emission(h) - TreasuryShare(p, h) + tips;
    if used > p.SeqGasLimit(t) && TreasuryShare(p, h) <= p.Emission(h) && reward < TWO256 {
      ForfeitWithinReward(reward, used, t, p);
    }
  }

  /** The sequential target stays small enough for its multiples to be exact. */
  predicate TargetInRange(l: Ledger, p: Params, h: u64) {
    h > 0 ==> 0 < l.Get(ProtocolSlot(SeqGasTarget)) <= p.seqGasCapacity
  }

  lemma TargetIsSmall(l: Ledger, p: Params, h: u64)
    requires p.Valid() && TargetInRange(l, p, h)
    ensures 0 < CurrentSeqGasTarget(l, p, h) <= p.seqGasCapacity
    ensures 4 * CurrentSeqGasTarget(l, p, h) < TWO64
  {
  }

  /** Native conservation across one accepted block: the coin in existence grows
      by the scheduled emission and shrinks by what the block reports burned. */
  lemma BlockConserves(l: Ledger, b: Block, p: Params, checkRoot: bool)
    requires p.Valid() && Apply(l, b, p, checkRoot).Accepted?
    requires TargetInRange(l, p, b.header.height)
    ensures
      var r := Apply(l, b, p, checkRoot);
      Total(r.ledger.cells, Native(p.coinbaseMaturity)) + r.res.burned
      == Total(l.cells, Native(p.coinbaseMaturity)) + p.Emission(b.header.height)
  {
    hide Apply, Total, BlockRule, FoldCerts, FoldOrder, Prologue, Bookkeeping, RewardOf, PayTreasury, ReleaseCoinbase,
      RecordCoinbase, UpdateBaseFees, TreasuryShare, AllAdmitted, AllValid, Params.Emission;
    var h := b.header.height;
    var m := p.coinbaseMaturity;
    var s := AcceptedStages(l, b, p, checkRoot);
    var cc := Carry(b.certs, p);
    RulesGive(l, b, p);
    FoldOrderAdmitted(l, h, p, cc);
    AdmittedAreValid(l, h, p, FoldOrder(cc));
    PrologueQuiet(l, b, p, Native(m));
    FoldConserves(s.begun, FoldOrder(cc), p, s.seqBase, s.parBase, m);
    BookkeepingQuiet(s.folded.ledger, b, p, s.folded.seqApplied, Native(m));
    PruneKeepsCells(Bookkeeping(s.folded.ledger, b, p, s.folded.seqApplied), h);
    TargetIsSmall(l, p, h);
    RewardSplits(p, h, s.folded.tips, s.folded.burned, s.folded.seqUsed, s.t);
    TreasuryTotal(s.kept, TreasuryShare(p, h), m);
    ReleaseTotal(s.funded, h % m, s.reward.burned, m);
    ReleaseKeepsRing(s.funded, h % m, s.reward.burned, PendingAmount(h % m));
    RecordTotal(s.paid.ledger, h % m, b.header.emissionAddr, s.reward.miner, m);
    BaseFeesQuiet(s.recorded, b, p, s.t, s.seqBase, s.parBase, s.folded.seqApplied, s.folded.parApplied, Native(m));
  }

  lemma PruneKeepsCells(l: Ledger, h: u64)
    ensures PruneSeen(l, h).cells == l.cells && PruneSeen(l, h).spent == l.spent
  {
  }
}
