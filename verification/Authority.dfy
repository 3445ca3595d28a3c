/** Nobody's balance shrinks without their signature (core/validity V2 and V4):
    stated of one certificate, of a fold, of a block, and along every run. */
module Authority {
  import opened U256
  import opened Types
  import opened Validity
  import opened Ledgers
  import opened Seqs
  import opened Fold
  import opened Derivation
  import opened CertLaws
  import opened BlockLaws
  import opened Conservation
  import opened BlockFrames
  import opened AssetLaws
  import opened Solvency
  import opened Runs
  import opened Billing
  import opened Histories

  /** Some signature of the certificate verifies and belongs to this address. */
  ghost predicate SignedFor(c: Certificate, p: Params, a: Address) {
    exists s :: s in c.sigs && SignsFor(c, p, s, a) && p.sigVerifies(c, s)
  }

  lemma ValidIsSigned(c: Certificate, p: Params)
    requires p.Valid() && StatelessValid(c, p)
    ensures Authorized(c, p) && SignaturesVerify(c, p)
  {
    hide Canonical, DerivationMatches, SelfConsistent, DepositOk, KnownVersions, NoProtocolWrites, Authorized,
      SignaturesVerify;
  }

  lemma RequiredIsSigned(c: Certificate, p: Params, a: Address)
    requires p.Valid() && StatelessValid(c, p) && a in RequiredAddresses(c)
    ensures SignedFor(c, p, a)
  {
    hide StatelessValid, RequiredAddresses, SignsFor;
    ValidIsSigned(c, p);
    var s :| s in c.sigs && SignsFor(c, p, s, a);
  }

  predicate HolderCell(slot: Slot) {
    IsUser(slot.addr) && slot.word.Balance?
  }

  // ------------------------------------------------------- one certificate

  lemma MoveNeverTakes(l: Ledger, src: Slot, dst: Address, slot: Slot)
    requires slot != src
    ensures MoveResidual(l, src, dst).ledger.Get(slot) >= l.Get(slot)
  {
  }

  lemma {:induction false} NamedNeverTakes(s: Sweep, c: Certificate, a: Address, n: nat, slot: Slot)
    requires n <= |c.writes| && slot.addr != a
    ensures SweepNamed(s, c, a, n).ledger.Get(slot) >= s.ledger.Get(slot)
  {
    hide MoveResidual;
    if n > 0 {
      NamedNeverTakes(s, c, a, n - 1, slot);
      if SweepsAlso(c.writes[n - 1], a) {
        MoveNeverTakes(SweepNamed(s, c, a, n - 1).ledger, c.writes[n - 1].slot, c.deposit.refundTo.addr, slot);
      }
    }
  }

  /** The sweep takes only from the addresses the certificate burns. */
  lemma {:induction false} SweepNeverTakes(l: Ledger, c: Certificate, n: nat, slot: Slot)
    requires n <= |c.writes| && slot.addr !in MarkedAddrs(c.writes)
    ensures SweepBurned(l, c, n).ledger.Get(slot) >= l.Get(slot)
  {
    hide MoveResidual, SweepNamed;
    if n > 0 {
      SweepNeverTakes(l, c, n - 1, slot);
      var s, w := SweepBurned(l, c, n - 1), c.writes[n - 1];
      if w.op.OpMarkSpent? {
        assert w in c.writes && w.slot.addr in MarkedAddrs(c.writes);
        MoveNeverTakes(s.ledger, NativeSlot(w.slot.addr), c.deposit.refundTo.addr, slot);
        NamedNeverTakes(SweepNative(s, c, w.slot.addr), c, w.slot.addr, |c.writes|, slot);
      }
    }
  }

  /** A write that can lower a holder's balance needs the holder's signature. */
  lemma UnsignedWrites(c: Certificate, slot: Slot)
    requires Tame(c) && HolderCell(slot) && slot.addr !in RequiredAddresses(c)
    ensures slot.addr !in MarkedAddrs(c.writes) && slot != c.deposit.cell
    ensures forall i :: 0 <= i < |c.writes| && !c.writes[i].op.OpMarkSpent? && c.writes[i].slot == slot ==>
              c.writes[i].op.OpDeltaAdd?
  {
    forall w | w in c.writes && w.slot.addr == slot.addr
      ensures w.op.OpDeltaAdd? || (!w.op.OpMarkSpent? && w.slot != slot)
    {
      assert WriteShape(w);
    }
    assert forall i :: 0 <= i < |c.writes| ==> c.writes[i] in c.writes;
  }

  lemma CommitNeverTakes(l: Ledger, c: Certificate, slot: Slot)
    requires Tame(c) && HolderCell(slot) && slot.addr !in RequiredAddresses(c) && Stage(l, c.writes).Staged?
    ensures CommitCells(l, Stage(l, c.writes).cells).Get(slot) >= l.Get(slot)
  {
    hide Stage, CommitCells, RequiredAddresses;
    UnsignedWrites(c, slot);
    if i :| 0 <= i < |c.writes| && !c.writes[i].op.OpMarkSpent? && c.writes[i].slot == slot {
      StageValue(l, c.writes, i);
    } else {
      StageFacts(l, c.writes);
      assert slot !in WrittenSlots(c.writes);
      CommitCellsAt(l, Stage(l, c.writes).cells, slot);
    }
  }

  lemma StagedNeverTakes(l: Ledger, c: Certificate, slot: Slot)
    requires Tame(c) && HolderCell(slot) && slot.addr !in RequiredAddresses(c) && Stage(l, c.writes).Staged?
    ensures
      var s := Stage(l, c.writes);
      SweptLedger(l, c, s.cells, s.spend).Get(slot) >= l.Get(slot)
  {
    hide Stage, CommitCells, CommitSpends, SweepBurned, RequiredAddresses, Tame;
    var s := Stage(l, c.writes);
    UnsignedWrites(c, slot);
    CommitNeverTakes(l, c, slot);
    CommitSpendsIs(CommitCells(l, s.cells), s.spend);
    SweepNeverTakes(CommitSpends(CommitCells(l, s.cells), s.spend), c, |c.writes|, slot);
  }

  lemma SettleNeverTakes(l: Ledger, c: Certificate, id: Hash, outcome: Outcome, charge: u256, burned: u256, slot: Slot)
    ensures
      var s := Settle(l, c, id, outcome, charge, burned);
      s.CertDone? ==> s.ledger.Get(slot) >= l.Get(slot)
  {
  }

  /** One certificate lowers no balance it has no signature for. */
  lemma CertNeverTakes(l: Ledger, c: Certificate, id: Hash, p: Params, seqBase: u256, parBase: u256, burned: u256, slot: Slot)
    requires p.Valid() && StatelessValid(c, p) && HolderCell(slot) && !SignedFor(c, p, slot.addr)
    ensures
      var r := ApplyCertificate(l, c, id, p, seqBase, parBase, burned);
      r.CertSettled? ==> r.ledger.Get(slot) >= l.Get(slot)
  {
    hide StatelessValid, Stage, Settle, Fees, SweepBurned, CommitCells, CommitSpends, ReadsHold, RequiredAddresses, SignedFor,
      Tame;
    if slot.addr in RequiredAddresses(c) {
      RequiredIsSigned(c, p, slot.addr);
    } else {
      ValidIsTame(c, p);
      UnsignedWrites(c, slot);
      if Reservable(l, c) {
        var r := Reserved(l, c);
        SettleNeverTakes(r, c, id, SkippedStale, p.skipFee, burned, slot);
        match Stage(r, c.writes) {
          case NotStaged(o) => SettleNeverTakes(r, c, id, o, p.skipFee, burned, slot);
          case Staged(cells, spend) =>
            StagedNeverTakes(r, c, slot);
            var fees := Fees(c, p, seqBase, parBase);
            if fees.Some? && burned + fees.value.burned < TWO256 {
              SettleNeverTakes(SweptLedger(r, c, cells, spend), c, id, Applied, fees.value.charge,
                               burned + fees.value.burned, slot);
            }
        }
      }
    }
  }

  // ------------------------------------------------------ folds, blocks, runs

  /** A balance a fold lowers is lowered by a certificate signed for its holder. */
  lemma {:induction false} FoldTakes(l: Ledger, cc: seq<Carried>, p: Params, seqBase: u256, parBase: u256, slot: Slot)
    returns (i: nat)
    requires p.Valid() && AllValid(cc, p) && HolderCell(slot)
    requires FoldCerts(l, cc, p, seqBase, parBase).Running?
    requires FoldCerts(l, cc, p, seqBase, parBase).ledger.Get(slot) < l.Get(slot)
    ensures i < |cc| == |FoldCerts(l, cc, p, seqBase, parBase).outcomes|
    ensures SignedFor(cc[i].cert, p, slot.addr)
    ensures FoldCerts(l, cc, p, seqBase, parBase).outcomes[i].outcome != Dropped
  {
    hide FoldOne, StatelessValid, ApplyCertificate, SignedFor;
    var n := |cc| - 1;
    var mid := FoldCerts(l, cc[..n], p, seqBase, parBase);
    FoldPrefix(l, cc, p, seqBase, parBase, n);
    FoldOneIs(mid, cc[n], p, seqBase, parBase);
    if mid.ledger.Get(slot) < l.Get(slot) {
      i := FoldTakes(l, cc[..n], p, seqBase, parBase, slot);
    } else {
      i := n;
      if !SignedFor(cc[n].cert, p, slot.addr) {
        CertNeverTakes(mid.ledger, cc[n].cert, cc[n].id, p, seqBase, parBase, mid.burned, slot);
      }
      DroppedTakesNothing(mid.ledger, cc[n].cert, cc[n].id, p, seqBase, parBase, mid.burned);
    }
  }

  lemma DroppedTakesNothing(l: Ledger, c: Certificate, id: Hash, p: Params, seqBase: u256, parBase: u256, burned: u256)
    ensures
      var r := ApplyCertificate(l, c, id, p, seqBase, parBase, burned);
      r.CertSettled? && r.out.outcome == Dropped ==> r.ledger == l
  {
    hide ApplyCertificate, Billed, Reservable, AtSettlement;
    CertBilled(l, c, id, p, seqBase, parBase, burned);
  }

  lemma ReleaseNeverTakes(l: Ledger, index: nat, burned: u256, slot: Slot)
    ensures
      var r := ReleaseCoinbase(l, index, burned);
      r.Paid? ==> r.ledger.Get(slot) >= l.Get(slot)
  {
  }

  /** Outside the certificates a block takes from no holder. */
  lemma RestNeverTakes(l: Ledger, b: Block, p: Params, s: Stages, l': Ledger, res: BlockResult, slot: Slot)
    requires p.Valid() && StagesOf(l, b, p, s, l', res) && HolderCell(slot)
    ensures s.begun.Get(slot) == l.Get(slot) && l'.Get(slot) >= s.folded.ledger.Get(slot)
  {
    hide FoldCerts, FoldOrder, Prologue, Bookkeeping, RewardOf, PayTreasury, ReleaseCoinbase, RecordCoinbase,
      UpdateBaseFees, TreasuryShare, PruneSeen, CurrentSeqGasTarget;
    var h, index := b.header.height, b.header.height % p.coinbaseMaturity;
    PrologueAt(l, b, p, slot);
    BookkeepingAt(s.folded.ledger, b, p, s.folded.seqApplied, slot);
    PruneAt(Bookkeeping(s.folded.ledger, b, p, s.folded.seqApplied), h, slot);
    TreasuryAt(s.kept, TreasuryShare(p, h), slot);
    ReleaseNeverTakes(s.funded, index, s.reward.burned, slot);
    RecordAt(s.paid.ledger, index, b.header.emissionAddr, s.reward.miner, slot);
    BaseFeesAt(s.recorded, b, p, s.t, s.seqBase, s.parBase, s.folded.seqApplied, s.folded.parApplied, slot);
  }

  /** A balance a block lowers belongs to a signer of one of its certificates, and
      that certificate was not dropped. */
  lemma BlockTakes(l: Ledger, b: Block, p: Params, checkRoot: bool, slot: Slot) returns (c: Certificate, i: nat)
    requires p.Valid() && Apply(l, b, p, checkRoot).Accepted? && HolderCell(slot)
    requires Apply(l, b, p, checkRoot).ledger.Get(slot) < l.Get(slot)
    ensures c in b.certs && SignedFor(c, p, slot.addr)
    ensures
      var outs := Apply(l, b, p, checkRoot).res.outcomes;
      i < |outs| && outs[i].id == p.CertId(c) && outs[i].outcome != Dropped
  {
    hide Apply, BlockRule, StagesOf, FoldOrder, AllValid, FoldCerts, SignedFor, HolderCell, BilledAt, Prologue,
      Bookkeeping, PruneSeen;
    var r := Apply(l, b, p, checkRoot);
    var s := AcceptedStages(l, b, p, checkRoot);
    var cc := FoldOrder(Carry(b.certs, p));
    BlockCertsValid(l, b, p);
    RestNeverTakes(l, b, p, s, r.ledger, r.res, slot);
    FoldedIs(l, b, p, s, r.ledger, r.res);
    BegunIs(l, b, p, s, r.ledger, r.res);
    OutcomesAre(l, b, p, s, r.ledger, r.res);
    i := FoldTakes(s.begun, cc, p, s.seqBase, s.parBase, slot);
    FoldBills(s.begun, cc, p, s.seqBase, s.parBase);
    BilledName(s.begun, cc, p, s.seqBase, s.parBase, s.folded.outcomes, i);
    var k := CarriedFrom(b, p, i);
    c := b.certs[k];
  }

  /** What is folded at position i is one of the block's certificates. */
  lemma CarriedFrom(b: Block, p: Params, i: nat) returns (k: nat)
    requires i < |FoldOrder(Carry(b.certs, p))|
    ensures k < |b.certs| && FoldOrder(Carry(b.certs, p))[i] == Carried(b.certs[k], p.CertId(b.certs[k]))
  {
    hide FoldOrder;
    var cc := Carry(b.certs, p);
    FoldOrderBag(cc);
    EqualBagsEqualMembers(FoldOrder(cc), cc, FoldOrder(cc)[i]);
    k :| 0 <= k < |cc| && cc[k] == FoldOrder(cc)[i];
  }

  /** Along every run: a holder's balance falls at a block only if that block
      carries a certificate with the holder's verifying signature, and settles it. */
  lemma RunTakes(run: seq<Step>, p: Params, k: nat, slot: Slot) returns (c: Certificate, i: nat)
    requires p.Valid() && IsRun(run, p) && k < |run| && HolderCell(slot)
    requires StateAt(run, k + 1).Get(slot) < StateAt(run, k).Get(slot)
    ensures c in run[k].block.certs && SignedFor(c, p, slot.addr)
    ensures i < |run[k].res.outcomes| && run[k].res.outcomes[i].id == p.CertId(c) && run[k].res.outcomes[i].outcome != Dropped
  {
    hide Apply, SignedFor, HolderCell;
    assert StepOk(run, k, p);
    c, i := BlockTakes(run[k].pre, run[k].block, p, true, slot);
  }
}
