/** What a certificate pays and gets back (core/fold F6, F9): the charge market by
    market, and where the rest of the deposit goes.  Stated of one certificate and
    of every outcome an accepted block reports. */
module Billing {
  import opened U256
  import opened Types
  import opened Validity
  import opened Ledgers
  import opened Fold
  import opened CertLaws
  import opened BlockLaws
  import opened NoOverflow

  // -------------------------------------------------------------- the charge

  /** The base portion of both markets, which is burned. */
  function BaseFees(c: Certificate, p: Params, seqBase: u256, parBase: u256): nat {
    Product(p.SeqGas(c), seqBase) + Product(p.ParGas(c), parBase)
  }

  /** Each market's gas at the price bid above its base fee: the priority, or what
      the maximum leaves of it. */
  function Tips(c: Certificate, p: Params, seqBase: u256, parBase: u256): nat
    requires seqBase <= c.feeBid.seqMax && parBase <= c.feeBid.parMax
  {
    Product(p.SeqGas(c), Min(c.feeBid.seqPriority, c.feeBid.seqMax - seqBase))
    + Product(p.ParGas(c), Min(c.feeBid.parPriority, c.feeBid.parMax - parBase))
  }

  /** The fee arithmetic succeeds if and only if the bids reach the base fees and
      the whole charge fits; then the base portion burns and the rest is the tip. */
  lemma FeesMean(c: Certificate, p: Params, seqBase: u256, parBase: u256)
    ensures Fees(c, p, seqBase, parBase).Some? <==>
              && seqBase <= c.feeBid.seqMax && parBase <= c.feeBid.parMax
              && BaseFees(c, p, seqBase, parBase) + Tips(c, p, seqBase, parBase) < TWO256
    ensures
      var f := Fees(c, p, seqBase, parBase);
      f.Some? ==> f.value.burned == BaseFees(c, p, seqBase, parBase) && f.value.tip == Tips(c, p, seqBase, parBase)
  {
    hide Product, Params.SeqGas, Params.ParGas;
  }

  /** The fee ceiling a deposit must cover is the worst charge there is: no base fees
      within the bids charge more, and base fees at the bids charge that. */
  lemma CeilingIsTheWorst(c: Certificate, p: Params, seqBase: u256, parBase: u256)
    requires FeeCeiling(c, p).Some? && seqBase <= c.feeBid.seqMax && parBase <= c.feeBid.parMax
    ensures Fees(c, p, seqBase, parBase).Some? && Fees(c, p, seqBase, parBase).value.charge <= FeeCeiling(c, p).value
    ensures
      var worst := Fees(c, p, c.feeBid.seqMax, c.feeBid.parMax);
      worst.Some? && FeeCeiling(c, p).value == Max(p.skipFee, worst.value.charge)
  {
    hide Product, Fees, Params.SeqGas, Params.ParGas;
    var seqGas, parGas := p.SeqGas(c), p.ParGas(c);
    FeesMean(c, p, seqBase, parBase);
    FeesSplit(c, p, seqBase, parBase);
    FeesMean(c, p, c.feeBid.seqMax, c.feeBid.parMax);
    FeesSplit(c, p, c.feeBid.seqMax, c.feeBid.parMax);
    ProductSplits(seqGas, seqBase, Min(c.feeBid.seqPriority, c.feeBid.seqMax - seqBase), c.feeBid.seqMax);
    ProductSplits(parGas, parBase, Min(c.feeBid.parPriority, c.feeBid.parMax - parBase), c.feeBid.parMax);
    FreeGas(seqGas);
    FreeGas(parGas);
  }

  /** The priorities of a valid bid are what it tips when the base fees are zero. */
  lemma PriorityIsTheTip(c: Certificate, p: Params)
    requires p.Valid() && StatelessValid(c, p)
    ensures Tips(c, p, 0, 0) == Product(p.SeqGas(c), c.feeBid.seqPriority) + Product(p.ParGas(c), c.feeBid.parPriority)
  {
    hide Product, Params.SeqGas, Params.ParGas, DerivationMatches, SelfConsistent, DepositOk, Authorized;
  }

  lemma FreeGas(gas: nat)
    ensures Product(gas, 0) == 0
  {
  }

  /** What one more of each thing costs: a read, a write, a burned address and a
      signature, with the bytes they add. */
  lemma GasMargins(c: Certificate, p: Params, r: Read, w: Write, s: Sig)
    ensures p.SeqGas(c.(readList := c.readList + [r])) == Wrap64(p.SeqGas(c) + p.gasSeqPerRead)
    ensures p.SeqGas(c.(writes := c.writes + [w])) ==
            Wrap64(p.SeqGas(c) + p.gasSeqPerWrite + if w.op.OpMarkSpent? then p.gasSeqPerRegistryInsert else 0)
    ensures p.SeqGas(c.(sigs := c.sigs + [s])) == p.SeqGas(c)
    ensures p.ParGas(c.(readList := c.readList + [r])) == Wrap64(p.ParGas(c) + 97 * p.gasParPerByte)
    ensures p.ParGas(c.(writes := c.writes + [w])) == Wrap64(p.ParGas(c) + 97 * p.gasParPerByte)
    ensures p.ParGas(c.(sigs := c.sigs + [s])) == Wrap64(p.ParGas(c) + p.gasParPerSig + 96 * p.gasParPerByte)
  {
    hide Product, Wrap64;
    SeqMargins(c, p, r, w);
    ParMargins(c, p, r, w, s);
  }

  function SeqUnits(c: Certificate, p: Params): nat {
    Product(p.gasSeqPerRead, |c.readList|) + Product(p.gasSeqPerWrite, |c.writes|)
    + Product(p.gasSeqPerRegistryInsert, MarkSpentCount(c.writes)) + p.gasSeqPerSeenInsert
  }

  function ParUnits(c: Certificate, p: Params): nat {
    Product(p.gasParPerSig, |c.sigs|) + Product(p.gasParPerByte, CertSize(c))
    + Product(p.gasParPerDeriveUnit, DeriveUnits(c.program))
  }

  lemma SeqMargins(c: Certificate, p: Params, r: Read, w: Write)
    ensures p.SeqGas(c.(readList := c.readList + [r])) == Wrap64(p.SeqGas(c) + p.gasSeqPerRead)
    ensures p.SeqGas(c.(writes := c.writes + [w])) ==
            Wrap64(p.SeqGas(c) + p.gasSeqPerWrite + if w.op.OpMarkSpent? then p.gasSeqPerRegistryInsert else 0)
  {
    hide Product, Wrap64;
    var units := SeqUnits(c, p);
    OneMore(p.gasSeqPerRead, |c.readList|, 1);
    OneMore(p.gasSeqPerWrite, |c.writes|, 1);
    OneMore(p.gasSeqPerRegistryInsert, MarkSpentCount(c.writes), 1);
    assert (c.writes + [w])[..|c.writes|] == c.writes;
    WrapAbsorbs(units, p.gasSeqPerRead);
    WrapAbsorbs(units, p.gasSeqPerWrite);
    WrapAbsorbs(units, p.gasSeqPerWrite + p.gasSeqPerRegistryInsert);
  }

  lemma ParMargins(c: Certificate, p: Params, r: Read, w: Write, s: Sig)
    ensures p.ParGas(c.(readList := c.readList + [r])) == Wrap64(p.ParGas(c) + 97 * p.gasParPerByte)
    ensures p.ParGas(c.(writes := c.writes + [w])) == Wrap64(p.ParGas(c) + 97 * p.gasParPerByte)
    ensures p.ParGas(c.(sigs := c.sigs + [s])) == Wrap64(p.ParGas(c) + p.gasParPerSig + 96 * p.gasParPerByte)
  {
    hide Product, Wrap64;
    var units := ParUnits(c, p);
    OneMore(p.gasParPerByte, CertSize(c), 97);
    OneMore(p.gasParPerByte, CertSize(c), 96);
    OneMore(p.gasParPerSig, |c.sigs|, 1);
    WrapAbsorbs(units, 97 * p.gasParPerByte);
    WrapAbsorbs(units, p.gasParPerSig + 96 * p.gasParPerByte);
  }

  lemma OneMore(price: nat, n: nat, k: nat)
    ensures Product(price, n + k) == Product(price, n) + k * price
  {
  }

  // -------------------------------------------------------------- the refund

  /** The ledger settlement runs on: the deposit reserved and, for an applied
      certificate, its writes committed and its burned addresses swept. */
  function AtSettlement(l: Ledger, c: Certificate, outcome: Outcome): Ledger
    requires Reservable(l, c)
  {
    var r := Reserved(l, c);
    match Stage(r, c.writes)
    case NotStaged(_) => r
    case Staged(cells, spend) => if outcome == Applied then SweptLedger(r, c, cells, spend) else r
  }

  /** What is due back. */
  function Due(c: Certificate, charged: u256): int {
    c.deposit.amount - charged
  }

  /** A settled certificate's bill: what is charged, burned and tipped, and the
      remainder burned if the refund address is dead and credited to the refund
      cell if it is not. */
  ghost predicate Billed(c: Certificate, p: Params, seqBase: u256, parBase: u256, at: Ledger, burned: nat,
                         out: CertOutcome, tip: nat, after: Ledger, burned': nat)
  {
    var applied := out.outcome == Applied;
    var dead := c.deposit.refundTo.addr in after.spent;
    && Due(c, out.charged) >= 0
    && (applied ==> seqBase <= c.feeBid.seqMax && parBase <= c.feeBid.parMax)
    && tip == (if applied then Tips(c, p, seqBase, parBase) else 0)
    && out.charged == (if applied then BaseFees(c, p, seqBase, parBase) + tip else p.skipFee)
    && burned' == burned + (out.charged - tip) + out.refundBurned
    && (out.refundBurned != 0 <==> Due(c, out.charged) > 0 && dead)
    && (out.refunded != 0 <==> Due(c, out.charged) > 0 && !dead)
    && out.refunded + out.refundBurned == Due(c, out.charged)
    && after.spent == at.spent
    && (forall slot :: after.Get(slot) ==
                       at.Get(slot) + if slot == c.deposit.refundTo && !dead then Due(c, out.charged) else 0)
  }

  lemma SettleBills(l: Ledger, c: Certificate, id: Hash, outcome: Outcome, charge: u256, burned: u256)
    ensures
      var s := Settle(l, c, id, outcome, charge, burned);
      s.CertDone? ==>
        var dead := c.deposit.refundTo.addr in l.spent;
        && s.ledger.spent == l.spent && s.out.outcome == outcome && s.out.charged == charge <= c.deposit.amount
        && s.out.refundBurned == (if dead then c.deposit.amount - charge else 0)
        && s.out.refunded == (if dead then 0 else c.deposit.amount - charge)
        && s.burned == burned + (if outcome == Applied then 0 else charge) + s.out.refundBurned
        && forall slot :: s.ledger.Get(slot) ==
                          l.Get(slot) + if slot == c.deposit.refundTo && !dead then c.deposit.amount - charge else 0
  {
  }

  /** Skipped: nothing but the skip fee. */
  lemma SkipBills(l: Ledger, c: Certificate, id: Hash, p: Params, seqBase: u256, parBase: u256, burned: u256, o: Outcome)
    requires o != Applied
    ensures
      var r := Untipped(Settle(l, c, id, o, p.skipFee, burned));
      r.CertSettled? ==>
        r.out.outcome == o && Billed(c, p, seqBase, parBase, l, burned, r.out, r.tip, r.ledger, r.burned)
  {
    hide Settle;
    SettleBills(l, c, id, o, p.skipFee, burned);
  }

  lemma StagedBills(l: Ledger, c: Certificate, id: Hash, p: Params, seqBase: u256, parBase: u256, burned: u256,
                    cells: seq<PendingCell>, spend: seq<Address>)
    ensures
      var r := ApplyStaged(l, c, id, p, seqBase, parBase, burned, cells, spend);
      r.CertSettled? ==>
        && r.out.outcome == Applied
        && Billed(c, p, seqBase, parBase, SweptLedger(l, c, cells, spend), burned, r.out, r.tip, r.ledger, r.burned)
  {
    hide Settle, Fees, SweepBurned, CommitCells, CommitSpends, BaseFees, Tips;
    FeesMean(c, p, seqBase, parBase);
    FeesSplit(c, p, seqBase, parBase);
    var fees := Fees(c, p, seqBase, parBase);
    if fees.Some? && burned + fees.value.burned < TWO256 {
      SettleBills(SweptLedger(l, c, cells, spend), c, id, Applied, fees.value.charge, burned + fees.value.burned);
    }
  }

  /** One certificate's bill, whatever state it meets and whatever it decides.  A
      dropped one changes nothing and pays nothing. */
  lemma CertBilled(l: Ledger, c: Certificate, id: Hash, p: Params, seqBase: u256, parBase: u256, burned: u256)
    ensures
      var r := ApplyCertificate(l, c, id, p, seqBase, parBase, burned);
      r.CertSettled? ==>
        if r.out.outcome == Dropped then
          && !Reservable(l, c)
          && r.ledger == l && r.out == CertOutcome(id, Dropped, 0, 0, 0, 0, 0, 0) && r.tip == 0 && r.burned == burned
        else
          && Reservable(l, c)
          && Billed(c, p, seqBase, parBase, AtSettlement(l, c, r.out.outcome), burned, r.out, r.tip, r.ledger, r.burned)
  {
    hide Billed, Settle, Stage, ReadsHold, ApplyStaged, SweptLedger;
    if Reservable(l, c) {
      var r := Reserved(l, c);
      StageOutcome(r, c.writes);
      SkipBills(r, c, id, p, seqBase, parBase, burned, SkippedStale);
      match Stage(r, c.writes) {
        case NotStaged(o) => SkipBills(r, c, id, p, seqBase, parBase, burned, o);
        case Staged(cells, spend) => StagedBills(r, c, id, p, seqBase, parBase, burned, cells, spend);
      }
    }
  }

  // ------------------------------------------------ every outcome of a block

  /** One step of the fold, against the progress before and after it. */
  ghost predicate BilledStep(before: Progress, cy: Carried, p: Params, seqBase: u256, parBase: u256, out: CertOutcome,
                             after: Progress)
  {
    && before.Running? && after.Running?
    && out.id == cy.id
    && if out.outcome == Dropped then
         && !Reservable(before.ledger, cy.cert)
         && after.ledger == before.ledger && after.tips == before.tips && after.burned == before.burned
         && out == CertOutcome(cy.id, Dropped, 0, 0, 0, 0, 0, 0)
       else
         && Reservable(before.ledger, cy.cert)
         && after.tips >= before.tips
         && Billed(cy.cert, p, seqBase, parBase, AtSettlement(before.ledger, cy.cert, out.outcome), before.burned,
                   out, after.tips - before.tips, after.ledger, after.burned)
  }

  /** An outcome carries the id it was folded under. */
  lemma CertNames(l: Ledger, c: Certificate, id: Hash, p: Params, seqBase: u256, parBase: u256, burned: u256)
    ensures
      var r := ApplyCertificate(l, c, id, p, seqBase, parBase, burned);
      r.CertSettled? ==> r.out.id == id
  {
    hide Stage, ReadsHold, Fees, SweepBurned, CommitCells, CommitSpends;
  }

  lemma FoldOneBills(g: Progress, cy: Carried, p: Params, seqBase: u256, parBase: u256)
    requires g.Running? && FoldOne(g, cy, p, seqBase, parBase).Running?
    ensures
      var g' := FoldOne(g, cy, p, seqBase, parBase);
      var n := |g.outcomes|;
      && |g'.outcomes| == n + 1 && g'.outcomes == g.outcomes + [g'.outcomes[n]]
      && BilledStep(g, cy, p, seqBase, parBase, g'.outcomes[n], g')
  {
    hide ApplyCertificate, Billed, AtSettlement, Reservable, Params.SeqGas, Params.ParGas, Wrap64;
    CertBilled(g.ledger, cy.cert, cy.id, p, seqBase, parBase, g.burned);
    CertNames(g.ledger, cy.cert, cy.id, p, seqBase, parBase, g.burned);
  }

  /** Outcome i of a fold, against the states before and after certificate i. */
  ghost predicate BilledAt(l: Ledger, cc: seq<Carried>, p: Params, seqBase: u256, parBase: u256,
                           outs: seq<CertOutcome>, i: nat)
    requires i < |outs| == |cc|
  {
    BilledStep(FoldCerts(l, cc[..i], p, seqBase, parBase), cc[i], p, seqBase, parBase, outs[i],
               FoldCerts(l, cc[..i + 1], p, seqBase, parBase))
  }

  ghost predicate AllBilled(l: Ledger, cc: seq<Carried>, p: Params, seqBase: u256, parBase: u256, outs: seq<CertOutcome>) {
    |outs| == |cc| && forall i :: 0 <= i < |outs| ==> BilledAt(l, cc, p, seqBase, parBase, outs, i)
  }

  lemma BilledPrefix(l: Ledger, cc: seq<Carried>, p: Params, seqBase: u256, parBase: u256, outs: seq<CertOutcome>,
                     out: CertOutcome, i: nat)
    requires |cc| == |outs| + 1 && i < |outs| && BilledAt(l, cc[..|outs|], p, seqBase, parBase, outs, i)
    ensures BilledAt(l, cc, p, seqBase, parBase, outs + [out], i)
  {
    hide FoldCerts, BilledStep;
    assert cc[..|outs|][..i] == cc[..i];
    assert cc[..|outs|][..i + 1] == cc[..i + 1];
  }

  /** Folding bills every certificate in turn. */
  lemma {:induction false} FoldBills(l: Ledger, cc: seq<Carried>, p: Params, seqBase: u256, parBase: u256)
    ensures
      var g := FoldCerts(l, cc, p, seqBase, parBase);
      g.Running? ==> AllBilled(l, cc, p, seqBase, parBase, g.outcomes)
  {
    hide FoldOne, BilledStep;
    var g := FoldCerts(l, cc, p, seqBase, parBase);
    if cc != [] && g.Running? {
      var n := |cc| - 1;
      FoldBills(l, cc[..n], p, seqBase, parBase);
      var before := FoldCerts(l, cc[..n], p, seqBase, parBase);
      FoldOneBills(before, cc[n], p, seqBase, parBase);
      assert cc[..n + 1] == cc;
      forall i | 0 <= i < n
        ensures BilledAt(l, cc, p, seqBase, parBase, g.outcomes, i)
      {
        BilledPrefix(l, cc, p, seqBase, parBase, before.outcomes, g.outcomes[n], i);
      }
    }
  }

  /** Every outcome an accepted block reports is a correct bill, in fold order, at
      the base fees the block opened with. */
  lemma BlockBills(l: Ledger, b: Block, p: Params, checkRoot: bool)
    requires p.Valid() && Apply(l, b, p, checkRoot).Accepted?
    ensures
      var begun := Prologue(l, b, p);
      AllBilled(begun, FoldOrder(Carry(b.certs, p)), p, begun.Get(ProtocolSlot(SeqBaseFee)),
                begun.Get(ProtocolSlot(ParBaseFee)), Apply(l, b, p, checkRoot).res.outcomes)
  {
    hide Apply, BlockRule, AllBilled, FoldOrder, Prologue, FoldCerts;
    var s := AcceptedStages(l, b, p, checkRoot);
    FoldBills(s.begun, FoldOrder(Carry(b.certs, p)), p, s.seqBase, s.parBase);
  }
}
