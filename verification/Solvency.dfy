/** No conservation assertion of the fold can fire on a reachable state: a block
    that breaks no rule is refused only by the epoch state root. */
module Solvency {
  import opened U256
  import opened Types
  import opened Validity
  import opened Ledgers
  import opened Fold
  import opened Derivation
  import opened CertLaws
  import opened BlockLaws
  import opened Conservation
  import opened BlockFrames
  import opened AssetLaws
  import opened NoOverflow

  // -------------------------------------------------------- one certificate

  lemma SettleSucceeds(l: Ledger, c: Certificate, id: Hash, outcome: Outcome, charge: u256, burned: u256, maturity: nat)
    requires c.deposit.refundTo.word == Balance(NATIVE_ASSET) && charge <= c.deposit.amount
    requires burned + (if outcome == Applied then 0 else charge) + (c.deposit.amount - charge) < TWO256
    requires Total(l.cells, Native(maturity)) + (c.deposit.amount - charge) < TWO256
    ensures Settle(l, c, id, outcome, charge, burned).CertDone?
  {
    hide Total;
    CellWithinTotal(l.cells, Native(maturity), c.deposit.refundTo);
  }

  /** An outcome that neither overflowed nor left anything behind for want of room. */
  ghost predicate Clean(c: Certificate, r: CertResult) {
    && r.CertSettled?
    && r.out.outcome != SkippedOverflow
    && (c.deposit.refundTo.addr !in r.ledger.spent ==> r.out.sweptStranded == 0 && r.out.strandedCells == 0)
  }

  lemma StagedIsClean(l: Ledger, c: Certificate, id: Hash, p: Params, seqBase: u256, parBase: u256, burned: u256, maturity: nat)
    requires Tame(c) && DerivationMatches(c, p) && PoolsFit(l, maturity)
    requires ReadsHold(l, c.readList) && Stage(l, c.writes).Staged?
    requires Fees(c, p, seqBase, parBase).Some? && Fees(c, p, seqBase, parBase).value.charge <= c.deposit.amount
    requires Total(l.cells, Native(maturity)) + burned + c.deposit.amount < TWO256
    ensures
      var s := Stage(l, c.writes);
      Clean(c, ApplyStaged(l, c, id, p, seqBase, parBase, burned, s.cells, s.spend))
  {
    hide Total, Stage, DerivationMatches, Tame, CommitCells, SweepBurned, Settle, Fees, PoolsFit, ReadsHold,
      RoomEverywhere;
    TameRefunds(c);
    FeesSplit(c, p, seqBase, parBase);
    var fee := Fees(c, p, seqBase, parBase).value;
    var s := Stage(l, c.writes);
    var committed := CommitCells(l, s.cells);
    var l2 := CommitSpends(committed, s.spend);
    var l3 := SweptLedger(l, c, s.cells, s.spend);
    StagedTotal(l, c, p, Native(maturity));
    SettleSucceeds(l3, c, id, Applied, fee.charge, burned + fee.burned, maturity);
    SettleFacts(l3, c, id, Applied, fee.charge, burned + fee.burned, c.deposit.cell);
    SweepFacts(l2, c, |c.writes|, c.deposit.cell);
    if c.deposit.refundTo.addr !in l2.spent {
      CommittedHasRoom(l, c, p, maturity);
      SweepStrandsNothing(l2, c, |c.writes|, maturity);
    }
  }

  lemma MarksCommitted(l: Ledger, c: Certificate)
    requires Stage(l, c.writes).Staged?
    ensures
      var s := Stage(l, c.writes);
      var l2 := CommitSpends(CommitCells(l, s.cells), s.spend);
      forall w :: w in c.writes && w.op.OpMarkSpent? ==> w.slot.addr in l2.spent
  {
    var s := Stage(l, c.writes);
    StageFacts(l, c.writes);
    CommitSpendsIs(CommitCells(l, s.cells), s.spend);
    forall w | w in c.writes && w.op.OpMarkSpent?
      ensures w.slot.addr in MarkedAddrs(c.writes)
    {
    }
  }

  /** The committed writes leave every pool representable, a mint included. */
  lemma CommittedHasRoom(l: Ledger, c: Certificate, p: Params, maturity: nat)
    requires Tame(c) && DerivationMatches(c, p) && PoolsFit(l, maturity)
    requires ReadsHold(l, c.readList) && Stage(l, c.writes).Staged?
    ensures
      var s := Stage(l, c.writes);
      var l2 := CommitSpends(CommitCells(l, s.cells), s.spend);
      && (forall w :: w in c.writes && w.op.OpMarkSpent? ==> w.slot.addr in l2.spent)
      && RoomEverywhere(l2, maturity)
  {
    hide Total, Stage, DerivationMatches, Tame, CommitCells, CommitSpends, SweepBurned, ReadsHold;
    var s := Stage(l, c.writes);
    var l2 := CommitSpends(CommitCells(l, s.cells), s.spend);
    TameRefunds(c);
    MarksCommitted(l, c);
    forall asset: Address | AssetOk(asset)
      ensures Total(l2.cells, PoolOf(asset, maturity)) < TWO256
    {
      var pool := PoolOf(asset, maturity);
      SweepTotal(l2, c, |c.writes|, pool);
      StagedTotal(l, c, p, pool);
      if asset != NATIVE_ASSET {
        assert Backed(l, asset);
        StagedKeepsBacked(l, c, p, asset);
      }
    }
  }

  lemma ApplyReservedIsClean(l: Ledger, c: Certificate, id: Hash, p: Params, seqBase: u256, parBase: u256, burned: u256,
                             maturity: nat)
    requires Tame(c) && DerivationMatches(c, p) && PoolsFit(l, maturity)
    requires Fees(c, p, seqBase, parBase).Some? && Fees(c, p, seqBase, parBase).value.charge <= c.deposit.amount
    requires p.skipFee <= c.deposit.amount
    requires Total(l.cells, Native(maturity)) + burned + c.deposit.amount < TWO256
    ensures Clean(c, ApplyReserved(l, c, id, p, seqBase, parBase, burned))
  {
    hide Total, Stage, DerivationMatches, Tame, Settle, Fees, PoolsFit, ReadsHold, ApplyStaged;
    TameRefunds(c);
    SettleSucceeds(l, c, id, SkippedStale, p.skipFee, burned, maturity);
    SettleIsUnswept(l, c, id, SkippedStale, p.skipFee, burned);
    if ReadsHold(l, c.readList) {
      StageNeverOverflows(l, c, p, maturity);
      StageOutcome(l, c.writes);
      if Stage(l, c.writes).Staged? {
        StagedIsClean(l, c, id, p, seqBase, parBase, burned, maturity);
      }
    }
  }

  lemma SettleIsUnswept(l: Ledger, c: Certificate, id: Hash, outcome: Outcome, charge: u256, burned: u256)
    ensures
      var s := Settle(l, c, id, outcome, charge, burned);
      s.CertDone? ==> s.out.outcome == outcome && s.out.sweptStranded == 0 && s.out.strandedCells == 0
  {
  }

  /** A certificate that passed the rules always settles or drops: no conservation
      failure, no overflow skip, nothing stranded for want of room. */
  lemma CertIsClean(l: Ledger, c: Certificate, id: Hash, p: Params, seqBase: u256, parBase: u256, burned: u256, maturity: nat)
    requires p.Valid() && StatelessValid(c, p) && AssetsBacked(l)
    requires c.feeBid.seqMax >= seqBase && c.feeBid.parMax >= parBase
    requires Total(l.cells, Native(maturity)) + burned < TWO256
    ensures Clean(c, ApplyCertificate(l, c, id, p, seqBase, parBase, burned))
  {
    hide StatelessValid, ApplyReserved, Total, DerivationMatches, Tame, Fees, Backed, DepositOk;
    ValidIsTame(c, p);
    ValidDerives(c, p);
    ValidDeposits(c, p);
    TameRefunds(c);
    FeesAffordable(c, p, seqBase, parBase);
    if Reservable(l, c) {
      TotalPut(l.cells, Native(maturity), c.deposit.cell, l.Get(c.deposit.cell) - c.deposit.amount);
      forall a: Address | Version(a) == VERSION_ASSET
        ensures Backed(Reserved(l, c), a)
      {
        ReservedKeepsBacked(l, c, a);
      }
      ApplyReservedIsClean(Reserved(l, c), c, id, p, seqBase, parBase, burned, maturity);
    }
  }

  lemma ValidDeposits(c: Certificate, p: Params)
    requires p.Valid() && StatelessValid(c, p)
    ensures DepositOk(c, p)
  {
  }

  // ------------------------------------------------------- the whole block

  /** What a fold of certificates reports when nothing overflows: no overflow skip,
      and a sweep that left something behind belongs to a certificate whose refund
      address was in the registry before that certificate ran. */
  ghost predicate NothingOverflowed(l: Ledger, cc: seq<Carried>, p: Params, seqBase: u256, parBase: u256, outs: seq<CertOutcome>) {
    |outs| == |cc| && forall i :: 0 <= i < |outs| ==> CleanAt(l, cc, p, seqBase, parBase, outs, i)
  }

  ghost predicate CleanAt(l: Ledger, cc: seq<Carried>, p: Params, seqBase: u256, parBase: u256, outs: seq<CertOutcome>, i: nat)
    requires i < |outs| == |cc|
  {
    var before := FoldCerts(l, cc[..i], p, seqBase, parBase);
    && before.Running?
    && outs[i].outcome != SkippedOverflow
    && (outs[i].strandedCells != 0 || outs[i].sweptStranded != 0 ==> cc[i].cert.deposit.refundTo.addr in before.ledger.spent)
  }

  /** The refund address of a clean certificate was dead before it, not by it. */
  lemma StrandedMeansDeadBefore(l: Ledger, c: Certificate, id: Hash, p: Params, seqBase: u256, parBase: u256, burned: u256)
    requires p.Valid() && StatelessValid(c, p)
    requires Clean(c, ApplyCertificate(l, c, id, p, seqBase, parBase, burned))
    ensures
      var r := ApplyCertificate(l, c, id, p, seqBase, parBase, burned);
      r.out.strandedCells != 0 || r.out.sweptStranded != 0 ==> c.deposit.refundTo.addr in l.spent
  {
    hide StatelessValid, ApplyCertificate, DepositOk;
    CertFrame(l, c, id, p, seqBase, parBase, burned, TreasurySlot());
    ValidDeposits(c, p);
    RefundUnmarked(c, p);
  }

  lemma RefundUnmarked(c: Certificate, p: Params)
    requires p.Valid() && DepositOk(c, p)
    ensures c.deposit.refundTo.addr !in MarkedAddrs(c.writes)
  {
    forall w | w in c.writes && w.op.OpMarkSpent?
      ensures w.slot.addr != c.deposit.refundTo.addr
    {
      var i :| 0 <= i < |c.writes| && c.writes[i] == w;
    }
  }

  lemma CleanExtends(l: Ledger, cc: seq<Carried>, p: Params, seqBase: u256, parBase: u256, outs: seq<CertOutcome>, out: CertOutcome)
    requires cc != [] && NothingOverflowed(l, cc[..|cc| - 1], p, seqBase, parBase, outs)
    requires CleanAt(l, cc, p, seqBase, parBase, outs + [out], |cc| - 1)
    ensures NothingOverflowed(l, cc, p, seqBase, parBase, outs + [out])
  {
    hide FoldCerts;
    var n := |cc| - 1;
    forall i | 0 <= i < n
      ensures CleanAt(l, cc, p, seqBase, parBase, outs + [out], i)
    {
      assert cc[..n][..i] == cc[..i];
      assert CleanAt(l, cc[..n], p, seqBase, parBase, outs, i);
    }
  }

  ghost predicate BidsCover(cc: seq<Carried>, seqBase: u256, parBase: u256) {
    forall i :: 0 <= i < |cc| ==> cc[i].cert.feeBid.seqMax >= seqBase && cc[i].cert.feeBid.parMax >= parBase
  }

  /** Folding the certificates of an admitted block never halts. */
  lemma {:induction false} FoldNeverHalts(l: Ledger, cc: seq<Carried>, p: Params, seqBase: u256, parBase: u256, maturity: nat)
    requires p.Valid() && AllValid(cc, p) && BidsCover(cc, seqBase, parBase)
    requires AssetsBacked(l) && Total(l.cells, Native(maturity)) < TWO256
    ensures
      var g := FoldCerts(l, cc, p, seqBase, parBase);
      && g.Running? && AssetsBacked(g.ledger)
      && NothingOverflowed(l, cc, p, seqBase, parBase, g.outcomes)
  {
    hide StatelessValid, ApplyCertificate, Total, AssetsBacked, NothingOverflowed;
    if cc == [] {
      NothingFolded(l, p, seqBase, parBase);
    } else {
      var n := |cc| - 1;
      FoldNeverHalts(l, cc[..n], p, seqBase, parBase, maturity);
      FoldConserves(l, cc[..n], p, seqBase, parBase, maturity);
      var g := FoldCerts(l, cc[..n], p, seqBase, parBase);
      var c := cc[n].cert;
      CertIsClean(g.ledger, c, cc[n].id, p, seqBase, parBase, g.burned, maturity);
      CertConserves(g.ledger, c, cc[n].id, p, seqBase, parBase, g.burned, Native(maturity));
      CertKeepsBacked(g.ledger, c, cc[n].id, p, seqBase, parBase, g.burned);
      StrandedMeansDeadBefore(g.ledger, c, cc[n].id, p, seqBase, parBase, g.burned);
      var r := ApplyCertificate(g.ledger, c, cc[n].id, p, seqBase, parBase, g.burned);
      OutcomesMatch(l, cc[..n], p, seqBase, parBase, g.outcomes);
      CleanExtends(l, cc, p, seqBase, parBase, g.outcomes, r.out);
    }
  }

  lemma NothingFolded(l: Ledger, p: Params, seqBase: u256, parBase: u256)
    ensures NothingOverflowed(l, [], p, seqBase, parBase, [])
  {
  }

  lemma OutcomesMatch(l: Ledger, cc: seq<Carried>, p: Params, seqBase: u256, parBase: u256, outs: seq<CertOutcome>)
    requires NothingOverflowed(l, cc, p, seqBase, parBase, outs)
    ensures |outs| == |cc|
  {
  }

  /** A transition that touches no asset: its totals and its own cells. */
  ghost predicate AssetFrame(l: Ledger, l': Ledger, a: Address) {
    && Total(l'.cells, Asset(a)) == Total(l.cells, Asset(a))
    && l'.Get(MintedSlot(a)) == l.Get(MintedSlot(a))
    && l'.Get(CapSlot(a)) == l.Get(CapSlot(a))
  }

  lemma PrologueAssets(l: Ledger, b: Block, p: Params)
    requires p.Valid() && AssetsBacked(l)
    ensures AssetsBacked(Prologue(l, b, p))
  {
    hide Prologue, Total;
    forall a: Address | Version(a) == VERSION_ASSET
      ensures Backed(Prologue(l, b, p), a)
    {
      assert Backed(l, a);
      PrologueQuiet(l, b, p, Asset(a));
      PrologueAt(l, b, p, MintedSlot(a));
      PrologueAt(l, b, p, CapSlot(a));
    }
  }

  lemma KeptAssets(l: Ledger, b: Block, p: Params, seqApplied: u64)
    requires p.Valid() && AssetsBacked(l)
    ensures AssetsBacked(PruneSeen(Bookkeeping(l, b, p, seqApplied), b.header.height))
  {
    hide Bookkeeping, Total;
    var l1 := Bookkeeping(l, b, p, seqApplied);
    PruneKeepsCells(l1, b.header.height);
    forall a: Address | Version(a) == VERSION_ASSET
      ensures Backed(PruneSeen(l1, b.header.height), a)
    {
      assert Backed(l, a);
      BookkeepingQuiet(l, b, p, seqApplied, Asset(a));
      BookkeepingAt(l, b, p, seqApplied, MintedSlot(a));
      BookkeepingAt(l, b, p, seqApplied, CapSlot(a));
    }
  }

  lemma NativePutAssets(l: Ledger, slot: Slot, v: u256, a: Address)
    requires Version(a) == VERSION_ASSET && Version(slot.addr) != VERSION_ASSET
    requires slot.word == Balance(NATIVE_ASSET) || slot.word.PendingAddr? || slot.word.PendingAmount?
    ensures AssetFrame(l, l.Put(slot, v), a)
  {
    hide Total;
    TotalPut(l.cells, Asset(a), slot, v);
  }

  lemma TailAssets(l: Ledger, b: Block, p: Params, s: Stages, l': Ledger, res: BlockResult, a: Address)
    requires p.Valid() && StagesOf(l, b, p, s, l', res) && RingPaysUsers(s.kept)
    requires Version(a) == VERSION_ASSET && Backed(s.kept, a)
    ensures Backed(l', a)
  {
    hide Total, FoldCerts, FoldOrder, Prologue, Bookkeeping, PruneSeen, RewardOf, TreasuryShare, UpdateBaseFees;
    var index := b.header.height % p.coinbaseMaturity;
    var h := b.header.height;
    TreasuryAt(s.kept, TreasuryShare(p, h), ProtocolSlot(PendingAddr(index)));
    TreasuryAt(s.kept, TreasuryShare(p, h), ProtocolSlot(PendingAmount(index)));
    var payee := s.funded.Get(ProtocolSlot(PendingAddr(index)));
    var amount := s.funded.Get(ProtocolSlot(PendingAmount(index)));
    if TreasuryShare(p, h) != 0 {
      NativePutAssets(s.kept, TreasurySlot(), s.kept.Get(TreasurySlot()) + TreasuryShare(p, h), a);
    }
    assert AssetFrame(s.kept, s.funded, a);
    if amount != 0 && payee !in s.funded.spent {
      NativePutAssets(s.funded, NativeSlot(payee), s.funded.Get(NativeSlot(payee)) + amount, a);
    }
    assert AssetFrame(s.funded, s.paid.ledger, a);
    var who := if s.reward.miner == 0 then 0 else b.header.emissionAddr;
    NativePutAssets(s.paid.ledger, ProtocolSlot(PendingAddr(index)), who, a);
    NativePutAssets(s.paid.ledger.Put(ProtocolSlot(PendingAddr(index)), who), ProtocolSlot(PendingAmount(index)), s.reward.miner, a);
    assert AssetFrame(s.paid.ledger, s.recorded, a);
    BaseFeesQuiet(s.recorded, b, p, s.t, s.seqBase, s.parBase, s.folded.seqApplied, s.folded.parApplied, Asset(a));
    BaseFeesAt(s.recorded, b, p, s.t, s.seqBase, s.parBase, s.folded.seqApplied, s.folded.parApplied, MintedSlot(a));
    BaseFeesAt(s.recorded, b, p, s.t, s.seqBase, s.parBase, s.folded.seqApplied, s.folded.parApplied, CapSlot(a));
  }

  lemma {:induction false} FoldKeepsBacked(l: Ledger, cc: seq<Carried>, p: Params, seqBase: u256, parBase: u256)
    requires p.Valid() && AllValid(cc, p) && AssetsBacked(l)
    ensures
      var g := FoldCerts(l, cc, p, seqBase, parBase);
      g.Running? ==> AssetsBacked(g.ledger)
  {
    hide StatelessValid, ApplyCertificate, AssetsBacked, FoldOne;
    if cc != [] {
      var n := |cc| - 1;
      FoldKeepsBacked(l, cc[..n], p, seqBase, parBase);
      var g := FoldCerts(l, cc[..n], p, seqBase, parBase);
      if g.Running? {
        FoldOneIs(g, cc[n], p, seqBase, parBase);
        CertKeepsBacked(g.ledger, cc[n].cert, cc[n].id, p, seqBase, parBase, g.burned);
      }
    }
  }

  /** The supply law of every asset survives every accepted block. */
  lemma BlockKeepsBacked(l: Ledger, b: Block, p: Params, checkRoot: bool)
    requires p.Valid() && Apply(l, b, p, checkRoot).Accepted?
    requires RingPaysUsers(l) && AssetsBacked(l)
    ensures AssetsBacked(Apply(l, b, p, checkRoot).ledger)
  {
    hide Apply, BlockRule, StagesOf, FoldOrder, AllAdmitted, AllValid, FoldCerts, Backed;
    var r := Apply(l, b, p, checkRoot);
    var h := b.header.height;
    var cc := Carry(b.certs, p);
    var s := AcceptedStages(l, b, p, checkRoot);
    RulesGive(l, b, p);
    FoldOrderAdmitted(l, h, p, cc);
    AdmittedAreValid(l, h, p, FoldOrder(cc));
    BegunIs(l, b, p, s, r.ledger, r.res);
    FoldedIs(l, b, p, s, r.ledger, r.res);
    PrologueAssets(l, b, p);
    FoldKeepsBacked(s.begun, FoldOrder(cc), p, s.seqBase, s.parBase);
    KeptAssets(s.folded.ledger, b, p, s.folded.seqApplied);
    RingKept(l, b, p, s, r.ledger, r.res);
    forall a: Address | Version(a) == VERSION_ASSET
      ensures Backed(r.ledger, a)
    {
      TailAssets(l, b, p, s, r.ledger, r.res, a);
    }
  }

  // --------------------------------------------------------- no assertion fires

  lemma TreasuryWithinSubsidy(p: Params, h: u64)
    requires p.Valid()
    ensures TreasuryShare(p, h) <= p.Emission(h)
  {
    hide Params.Emission;
    MulDivShrinks(p.Emission(h), p.treasuryShareBps, 10000);
  }

  /** F11 to F12b succeed while the coin in existence plus this block's emission
      fits in 256 bits. */
  lemma EpilogueSucceeds(l: Ledger, b: Block, p: Params, checkRoot: bool, t: u64, seqBase: u256, parBase: u256, g: Progress)
    requires p.Valid() && g.Running? && 4 * t < TWO64
    requires g.seqUsed <= p.SeqGasBurst(t) && BurstWellDefined(g.seqUsed, p.SeqGasLimit(t))
    requires Total(l.cells, Native(p.coinbaseMaturity)) + g.burned + g.tips + p.Emission(b.header.height) < TWO256
    ensures
      var r := Epilogue(l, b, p, checkRoot, t, seqBase, parBase, g);
      r.Accepted? || r == Rejected(RuleFault(F14))
  {
    hide Total, RewardOf, TreasuryShare, PayTreasury, ReleaseCoinbase, RecordCoinbase, UpdateBaseFees, Params.Emission,
      Wrap64, Params.Valid, Params.SeqGasLimit, Params.SeqGasBurst;
    var h := b.header.height;
    var m := p.coinbaseMaturity;
    var limit := p.SeqGasLimit(t);
    RewardSucceeds(p, h, g.tips, g.burned, g.seqUsed, t);
    RewardSplits(p, h, g.tips, g.burned, g.seqUsed, t);
    var reward := RewardOf(p, h, g.tips, g.burned, g.seqUsed, limit);
    TreasurySucceeds(l, TreasuryShare(p, h), m);
    TreasuryTotal(l, TreasuryShare(p, h), m);
    var funded := PayTreasury(l, TreasuryShare(p, h)).value;
    IndexInRing(h, p);
    ReleaseSucceeds(funded, h % m, reward.burned, m);
  }

  lemma IndexInRing(h: u64, p: Params)
    requires p.Valid()
    ensures 0 < p.coinbaseMaturity && h % p.coinbaseMaturity < p.coinbaseMaturity
  {
  }

  lemma RewardSucceeds(p: Params, h: u64, tips: u256, burned: u256, used: u64, t: u64)
    requires p.Valid() && 4 * t < TWO64
    requires used <= p.SeqGasBurst(t) && BurstWellDefined(used, p.SeqGasLimit(t))
    requires burned + tips + p.Emission(h) < TWO256
    ensures RewardOf(p, h, tips, burned, used, p.SeqGasLimit(t)).Reward?
  {
    hide Params.Emission, TreasuryShare, MulDiv64, Forfeit, Params.SeqGasLimit, Params.SeqGasBurst;
    TreasuryWithinSubsidy(p, h);
    var reward := p.Emission(h) - TreasuryShare(p, h) + tips;
    if used > p.SeqGasLimit(t) {
      ForfeitWithinReward(reward, used, t, p);
    }
  }

  lemma TreasurySucceeds(l: Ledger, treasury: u256, maturity: nat)
    requires Total(l.cells, Native(maturity)) + treasury < TWO256
    ensures PayTreasury(l, treasury).Some?
  {
    hide Total;
    CellWithinTotal(l.cells, Native(maturity), TreasurySlot());
  }

  lemma ReleaseSucceeds(l: Ledger, index: nat, burned: u256, maturity: nat)
    requires index < maturity
    requires Total(l.cells, Native(maturity)) + burned < TWO256
    ensures ReleaseCoinbase(l, index, burned).Paid?
  {
    hide Total;
    var ring := ProtocolSlot(PendingAmount(index));
    CellWithinTotal(l.cells, Native(maturity), ring);
    TwoCellsWithinTotal(l.cells, Native(maturity), ring, NativeSlot(l.Get(ProtocolSlot(PendingAddr(index)))));
  }

  lemma BasesAgree(l: Ledger, b: Block, p: Params)
    requires p.Valid()
    ensures Prologue(l, b, p).Get(ProtocolSlot(SeqBaseFee)) == RuleSeqBaseFee(l, p, b.header.height)
    ensures Prologue(l, b, p).Get(ProtocolSlot(ParBaseFee)) == RuleParBaseFee(l, p, b.header.height)
  {
    hide LowerMedian, Healthy, Params.NextSeqGasTarget, Quot;
  }

  lemma AdmittedBids(l: Ledger, h: u64, p: Params, cc: seq<Carried>)
    requires p.Valid() && AllAdmitted(l, h, p, cc)
    ensures BidsCover(cc, RuleSeqBaseFee(l, p, h), RuleParBaseFee(l, p, h))
  {
    hide StatelessValid;
    forall i | 0 <= i < |cc|
      ensures cc[i].cert.feeBid.seqMax >= RuleSeqBaseFee(l, p, h) && cc[i].cert.feeBid.parMax >= RuleParBaseFee(l, p, h)
    {
      assert Admitted(l, h, p, cc[i]);
    }
  }

  /** The same of a whole block, whose certificates run in fold order on what its
      opening leaves. */
  ghost predicate BlockNothingOverflowed(l: Ledger, b: Block, p: Params, outs: seq<CertOutcome>)
    requires p.Valid()
  {
    var begun := Prologue(l, b, p);
    NothingOverflowed(begun, FoldOrder(Carry(b.certs, p)), p,
                      begun.Get(ProtocolSlot(SeqBaseFee)), begun.Get(ProtocolSlot(ParBaseFee)), outs)
  }

  /** Overflow is unreachable in a whole block: one that breaks no rule, on a state
      whose coin and emission fit, is accepted or refused by its state root alone;
      it reports no overflow skip, and its sweeps leave something behind only where
      the refund address was already dead. */
  lemma BlockNeverFails(l: Ledger, b: Block, p: Params, checkRoot: bool)
    requires p.Valid() && BlockRule(l, b, p).None?
    requires AssetsBacked(l) && TargetInRange(l, p, b.header.height)
    requires Total(l.cells, Native(p.coinbaseMaturity)) + p.Emission(b.header.height) < TWO256
    ensures
      var r := Apply(l, b, p, checkRoot);
      && (r.Accepted? || r == Rejected(RuleFault(F14)))
      && (r.Accepted? ==> BlockNothingOverflowed(l, b, p, r.res.outcomes))
  {
    hide BlockRule, Prologue, FoldCerts, FoldOrder, Bookkeeping, PruneSeen, Epilogue, AllAdmitted, AllValid, AssetsBacked,
      NothingOverflowed,
      CurrentSeqGasTarget, Total, Params.Emission, Wrap64, RuleSeqBaseFee, RuleParBaseFee;
    var h := b.header.height;
    var m := p.coinbaseMaturity;
    var cc := Carry(b.certs, p);
    RulesGive(l, b, p);
    FoldOrderAdmitted(l, h, p, cc);
    AdmittedAreValid(l, h, p, FoldOrder(cc));
    AdmittedBids(l, h, p, FoldOrder(cc));
    BasesAgree(l, b, p);
    PrologueAssets(l, b, p);
    PrologueQuiet(l, b, p, Native(m));
    var t := CurrentSeqGasTarget(l, p, h);
    TargetIsSmall(l, p, h);
    var l1 := Prologue(l, b, p);
    var seqBase := l1.Get(ProtocolSlot(SeqBaseFee));
    var parBase := l1.Get(ProtocolSlot(ParBaseFee));
    FoldNeverHalts(l1, FoldOrder(cc), p, seqBase, parBase, m);
    FoldConserves(l1, FoldOrder(cc), p, seqBase, parBase, m);
    UsedWithinBurst(l, b, p, l1, seqBase, parBase);
    var g := FoldCerts(l1, FoldOrder(cc), p, seqBase, parBase);
    var kept := PruneSeen(Bookkeeping(g.ledger, b, p, g.seqApplied), h);
    BookkeepingQuiet(g.ledger, b, p, g.seqApplied, Native(m));
    PruneKeepsCells(Bookkeeping(g.ledger, b, p, g.seqApplied), h);
    EpilogueSucceeds(kept, b, p, checkRoot, t, seqBase, parBase, g);
    EpilogueOutcomes(kept, b, p, checkRoot, t, seqBase, parBase, g);
  }

  lemma EpilogueOutcomes(l: Ledger, b: Block, p: Params, checkRoot: bool, t: u64, seqBase: u256, parBase: u256, g: Progress)
    requires p.Valid() && g.Running? && BurstWellDefined(g.seqUsed, p.SeqGasLimit(t))
    ensures
      var r := Epilogue(l, b, p, checkRoot, t, seqBase, parBase, g);
      r.Accepted? ==> r.res.outcomes == g.outcomes
  {
    hide RewardOf, TreasuryShare, PayTreasury, ReleaseCoinbase, RecordCoinbase, UpdateBaseFees;
  }
}
