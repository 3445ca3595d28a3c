/** Every certificate of every run did what its program says: the effect of one
    certificate, carried through the fold to the outcomes of accepted blocks and
    along runs from the empty state. */
module Histories {
  import opened U256
  import opened Types
  import opened Validity
  import opened Ledgers
  import opened Fold
  import opened CertLaws
  import opened BlockLaws
  import opened Conservation
  import opened BlockFrames
  import opened AssetLaws
  import opened NoOverflow
  import opened Solvency
  import opened FoldOrders
  import opened Verdicts
  import opened Runs
  import opened Liveness
  import opened WalletLaws
  import opened Billing
  import opened Effects

  /** The outcome is the one the state calls for, and the ledger after it is the
      one the outcome calls for. */
  ghost predicate Acted(l: Ledger, c: Certificate, p: Params, out: CertOutcome, after: Ledger) {
    && out.outcome == (if !Reservable(l, c) then Dropped else if Runnable(l, c, p) then Applied else SkippedStale)
    && Effected(l, c, p, out, after)
  }

  lemma CertActs(l: Ledger, c: Certificate, id: Hash, p: Params, seqBase: u256, parBase: u256, burned: u256, maturity: nat)
    requires p.Valid() && StatelessValid(c, p) && PoolsFit(l, maturity) && OneShotsOnly(l)
    ensures
      var r := ApplyCertificate(l, c, id, p, seqBase, parBase, burned);
      r.CertSettled? ==> Acted(l, c, p, r.out, r.ledger)
  {
    hide StatelessValid, PoolsFit, ApplyCertificate, Effected, Runnable, Verdict, Reservable;
    CertEffect(l, c, id, p, seqBase, parBase, burned, maturity);
    VerdictMeans(l, c, p, maturity);
    VerdictDecides(l, c, id, p, seqBase, parBase, burned);
  }

  // ------------------------------------------------------------ along a fold

  /** A fold's outcomes extend those of its prefixes. */
  lemma {:induction false} FoldPrefix(l: Ledger, cc: seq<Carried>, p: Params, seqBase: u256, parBase: u256, n: nat)
    requires n <= |cc| && FoldCerts(l, cc, p, seqBase, parBase).Running?
    ensures
      var mid, end := FoldCerts(l, cc[..n], p, seqBase, parBase), FoldCerts(l, cc, p, seqBase, parBase);
      mid.Running? && |mid.outcomes| == n && |end.outcomes| == |cc| && end.outcomes[..n] == mid.outcomes
    decreases |cc|
  {
    hide FoldOne;
    if cc == [] {
      assert cc[..n] == cc;
    } else {
      var k := |cc| - 1;
      FoldPrefix(l, cc[..k], p, seqBase, parBase, if n < k then n else k);
      var g := FoldCerts(l, cc[..k], p, seqBase, parBase);
      FoldOneIs(g, cc[k], p, seqBase, parBase);
      assert cc[..k][..k] == cc[..k];
      if n <= k {
        assert cc[..k][..n] == cc[..n];
      } else {
        assert cc[..n] == cc;
      }
    }
  }

  /** The state every prefix of a fold leaves is sound enough for the next. */
  lemma PrefixIsSound(l: Ledger, cc: seq<Carried>, p: Params, seqBase: u256, parBase: u256, n: nat, maturity: nat)
    requires p.Valid() && AllValid(cc, p) && n <= |cc| && FoldCerts(l, cc, p, seqBase, parBase).Running?
    requires PoolsFit(l, maturity) && OneShotsOnly(l)
    ensures
      var mid := FoldCerts(l, cc[..n], p, seqBase, parBase);
      mid.Running? && PoolsFit(mid.ledger, maturity) && OneShotsOnly(mid.ledger)
  {
    hide FoldCerts, StatelessValid, Total, AssetsBacked;
    FoldPrefix(l, cc, p, seqBase, parBase, n);
    FoldKeepsBacked(l, cc[..n], p, seqBase, parBase);
    FoldConserves(l, cc[..n], p, seqBase, parBase, maturity);
    FoldFrame(l, cc[..n], p, seqBase, parBase, TreasurySlot());
  }

  ghost predicate ActedAt(l: Ledger, cc: seq<Carried>, p: Params, seqBase: u256, parBase: u256, outs: seq<CertOutcome>, i: nat)
    requires i < |outs| == |cc|
  {
    var before, after := FoldCerts(l, cc[..i], p, seqBase, parBase), FoldCerts(l, cc[..i + 1], p, seqBase, parBase);
    && before.Running? && after.Running?
    && Acted(before.ledger, cc[i].cert, p, outs[i], after.ledger)
  }

  lemma FoldActs(l: Ledger, cc: seq<Carried>, p: Params, seqBase: u256, parBase: u256, i: nat, maturity: nat)
    requires p.Valid() && AllValid(cc, p) && i < |cc| && FoldCerts(l, cc, p, seqBase, parBase).Running?
    requires PoolsFit(l, maturity) && OneShotsOnly(l)
    ensures
      var outs := FoldCerts(l, cc, p, seqBase, parBase).outcomes;
      |outs| == |cc| && ActedAt(l, cc, p, seqBase, parBase, outs, i)
  {
    hide StatelessValid, PoolsFit, OneShotsOnly, Acted, FoldOne;
    PrefixIsSound(l, cc, p, seqBase, parBase, i, maturity);
    FoldPrefix(l, cc, p, seqBase, parBase, i);
    FoldPrefix(l, cc, p, seqBase, parBase, i + 1);
    var before := FoldCerts(l, cc[..i], p, seqBase, parBase);
    assert cc[..i + 1][..i] == cc[..i];
    FoldOneIs(before, cc[i], p, seqBase, parBase);
    CertActs(before.ledger, cc[i].cert, cc[i].id, p, seqBase, parBase, before.burned, maturity);
    var after := FoldCerts(l, cc[..i + 1], p, seqBase, parBase);
    var outs := FoldCerts(l, cc, p, seqBase, parBase).outcomes;
    assert outs[..i + 1][i] == outs[i];
  }

  // ----------------------------------------------------- blocks and runs

  lemma BlockCertsValid(l: Ledger, b: Block, p: Params)
    requires p.Valid() && BlockRule(l, b, p).None?
    ensures AllValid(FoldOrder(Carry(b.certs, p)), p)
  {
    hide BlockRule, FoldOrder, AllAdmitted, AllValid;
    var cc := Carry(b.certs, p);
    RulesGive(l, b, p);
    FoldOrderAdmitted(l, b.header.height, p, cc);
    AdmittedAreValid(l, b.header.height, p, FoldOrder(cc));
  }

  /** In fold order, on what the block's opening leaves, every certificate acted as
      its program says and its outcome is the one the state before it calls for. */
  ghost predicate BlockActed(l: Ledger, b: Block, p: Params, outs: seq<CertOutcome>)
    requires p.Valid()
  {
    var begun, cc := Prologue(l, b, p), FoldOrder(Carry(b.certs, p));
    var seqBase, parBase := begun.Get(ProtocolSlot(SeqBaseFee)), begun.Get(ProtocolSlot(ParBaseFee));
    |outs| == |cc| && forall i :: 0 <= i < |outs| ==> ActedAt(begun, cc, p, seqBase, parBase, outs, i)
  }

  lemma BlockActs(l: Ledger, b: Block, p: Params, checkRoot: bool)
    requires p.Valid() && Apply(l, b, p, checkRoot).Accepted?
    requires PoolsFit(l, p.coinbaseMaturity) && OneShotsOnly(l)
    ensures BlockActed(l, b, p, Apply(l, b, p, checkRoot).res.outcomes)
  {
    hide Apply, BlockRule, Prologue, FoldOrder, FoldCerts, AllValid, Total, AssetsBacked, ActedAt, Bookkeeping, PruneSeen,
      RewardOf, PayTreasury, ReleaseCoinbase, RecordCoinbase, UpdateBaseFees, TreasuryShare, CurrentSeqGasTarget;
    var s := AcceptedStages(l, b, p, checkRoot);
    var cc := FoldOrder(Carry(b.certs, p));
    BlockCertsValid(l, b, p);
    PrologueAssets(l, b, p);
    PrologueQuiet(l, b, p, Native(p.coinbaseMaturity));
    PrologueAt(l, b, p, TreasurySlot());
    FoldPrefix(s.begun, cc, p, s.seqBase, s.parBase, 0);
    forall i | 0 <= i < |cc|
      ensures ActedAt(s.begun, cc, p, s.seqBase, s.parBase, s.folded.outcomes, i)
    {
      FoldActs(s.begun, cc, p, s.seqBase, s.parBase, i, p.coinbaseMaturity);
    }
  }

  /** Along every run, while the issued coin fits in 256 bits, every outcome of
      every block is right and so is the state it leaves. */
  lemma RunActs(run: seq<Step>, p: Params, k: nat)
    requires p.Valid() && IsRun(run, p) && k < |run| && k <= TWO64 && IssuedBefore(p, k) < TWO256
    ensures BlockActed(run[k].pre, run[k].block, p, run[k].res.outcomes)
  {
    hide Apply, AssetsBacked, Sound, Total, Params.Emission, BlockActed, OneShotsOnly;
    RunIsBacked(run, p, k);
    RunIsSound(run, p, k);
    SoundOneShots(StateAt(run, k), p, k);
    RunConserves(run, p, k);
    assert StepOk(run, k, p);
    BlockActs(run[k].pre, run[k].block, p, true);
  }

  // ------------------------------------------------------------- their order

  /** Position i settles the certificate there: underwriters in address order, one
      underwriter's certificates by sequence number, and those that share one by id. */
  ghost predicate InFoldOrder(ordered: seq<Carried>, outs: seq<CertOutcome>) {
    && |outs| == |ordered|
    && (forall i :: 0 <= i < |outs| ==> outs[i].id == ordered[i].id)
    && (forall i, j :: 0 <= i < j < |ordered| ==>
          var a, b := ordered[i], ordered[j];
          && a.cert.deposit.cell.addr <= b.cert.deposit.cell.addr
          && (a.cert.deposit.cell.addr == b.cert.deposit.cell.addr ==>
                a.cert.seqNo < b.cert.seqNo || (a.cert.seqNo == b.cert.seqNo && a.id < b.id)))
  }

  /** An accepted block settles its own certificates, each once, in that order. */
  lemma BlockSettlesInOrder(l: Ledger, b: Block, p: Params, checkRoot: bool)
    requires p.Valid() && Apply(l, b, p, checkRoot).Accepted?
    ensures
      var ordered := FoldOrder(Carry(b.certs, p));
      && multiset(ordered) == multiset(Carry(b.certs, p))
      && InFoldOrder(ordered, Apply(l, b, p, checkRoot).res.outcomes)
  {
    hide Apply, BlockRule, StagesOf, FoldOrder, FoldCerts, BilledAt, AllAdmitted, Prologue;
    var r := Apply(l, b, p, checkRoot);
    var s := AcceptedStages(l, b, p, checkRoot);
    var cc := Carry(b.certs, p);
    var ordered := FoldOrder(cc);
    RulesGive(l, b, p);
    FoldOrderBag(cc);
    FoldOrderIsOrdered(cc);
    FoldedIs(l, b, p, s, r.ledger, r.res);
    OutcomesAre(l, b, p, s, r.ledger, r.res);
    FoldBills(s.begun, ordered, p, s.seqBase, s.parBase);
    forall i | 0 <= i < |ordered|
      ensures r.res.outcomes[i].id == ordered[i].id
    {
      BilledName(s.begun, ordered, p, s.seqBase, s.parBase, s.folded.outcomes, i);
    }
  }

  lemma OutcomesAre(l: Ledger, b: Block, p: Params, s: Stages, l': Ledger, res: BlockResult)
    requires p.Valid() && StagesOf(l, b, p, s, l', res)
    ensures res.outcomes == s.folded.outcomes
  {
  }

  lemma BilledName(l: Ledger, cc: seq<Carried>, p: Params, seqBase: u256, parBase: u256, outs: seq<CertOutcome>, i: nat)
    requires i < |outs| == |cc| && BilledAt(l, cc, p, seqBase, parBase, outs, i)
    ensures outs[i].id == cc[i].id
  {
    hide FoldCerts, Billed;
  }

  // ------------------------------------------------------- what is forgotten

  lemma PruneForgets(l: Ledger, h: u64)
    ensures
      var kept := PruneSeen(l, h).seen;
      forall id :: id in kept ==> kept[id] + 1 >= h
  {
  }

  /** The seen set keeps nothing whose TTL lies before the parent of the last block:
      it is bounded by what the TTL horizon admits. */
  lemma SeenIsPruned(run: seq<Step>, p: Params, k: nat)
    requires p.Valid() && IsRun(run, p) && k < |run|
    ensures
      var seen := StateAt(run, k + 1).seen;
      forall id :: id in seen ==> seen[id] + 1 >= k
  {
    hide Apply, BlockRule, StagesOf, PruneSeen, Bookkeeping, FoldCerts, FoldOrder, Sound;
    assert StepOk(run, k, p);
    var l, b := run[k].pre, run[k].block;
    var s := AcceptedStages(l, b, p, true);
    RunIsSound(run, p, k);
    SoundRing(l, p, k);
    RingKept(l, b, p, s, run[k].post, run[k].res);
    TailAt(l, b, p, s, run[k].post, run[k].res, TreasurySlot());
    FoldedIs(l, b, p, s, run[k].post, run[k].res);
    PruneForgets(Bookkeeping(s.folded.ledger, b, p, s.folded.seqApplied), k);
  }

  // -------------------------------------------------------- what is committed

  lemma EpilogueRoot(l: Ledger, b: Block, p: Params, t: u64, seqBase: u256, parBase: u256, g: Progress)
    requires p.Valid() && g.Running? && BurstWellDefined(g.seqUsed, p.SeqGasLimit(t))
    ensures
      var r := Epilogue(l, b, p, true, t, seqBase, parBase, g);
      r.Accepted? && p.IsEpochBoundary(b.header.height) ==>
        b.header.stateRoot == r.res.stateRoot == p.stateRootOf(r.ledger.cells, r.ledger.spent)
  {
    hide RewardOf, TreasuryShare, PayTreasury, ReleaseCoinbase, RecordCoinbase, UpdateBaseFees, Params.SeqGasLimit;
  }

  /** Along every run a block at an epoch boundary commits to the state it leaves,
      and no other block commits to anything. */
  lemma RootIsCommitted(run: seq<Step>, p: Params, k: nat)
    requires p.Valid() && IsRun(run, p) && k < |run|
    ensures run[k].block.header.stateRoot ==
            if k % p.epochLength == 0 then p.stateRootOf(run[k].post.cells, run[k].post.spent) else 0
  {
    hide BlockRule, FoldCerts, FoldOrder, Prologue, Bookkeeping, PruneSeen, Epilogue, CurrentSeqGasTarget,
      Params.SeqGasLimit, BurstWellDefined;
    assert StepOk(run, k, p);
    var l, b := run[k].pre, run[k].block;
    var l1 := Prologue(l, b, p);
    var seqBase, parBase := l1.Get(ProtocolSlot(SeqBaseFee)), l1.Get(ProtocolSlot(ParBaseFee));
    UsedWithinBurst(l, b, p, l1, seqBase, parBase);
    var g := FoldCerts(l1, FoldOrder(Carry(b.certs, p)), p, seqBase, parBase);
    EpilogueRoot(PruneSeen(Bookkeeping(g.ledger, b, p, g.seqApplied), k), b, p, CurrentSeqGasTarget(l, p, k), seqBase,
                 parBase, g);
    NoRootBetween(l, b, p);
  }

  lemma NoRootBetween(l: Ledger, b: Block, p: Params)
    requires p.Valid() && BlockRule(l, b, p).None?
    ensures !p.IsEpochBoundary(b.header.height) ==> b.header.stateRoot == 0
  {
    hide CertsRule, WritesProtocol, SigCount, BlockSize, CheckCites, CheckGenesisShape, CheckSeedEpoch,
      Params.MaxCertsPerBlock, Params.MaxSigsPerBlock, Params.BlockByteLimit, CurrentSeqGasTarget;
  }
}
