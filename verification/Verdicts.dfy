/** The verdict on one certificate, on its own: what decides it, what cannot
    change it, and that a credit from somebody else can only help it. */
module Verdicts {
  import opened U256
  import opened Types
  import opened Validity
  import opened Ledgers
  import opened Fold
  import opened Derivation
  import opened CertLaws
  import opened AssetLaws
  import opened NoOverflow
  import opened Solvency

  /** F3, F6 and F7 alone. */
  function Verdict(l: Ledger, c: Certificate): Outcome {
    if !Reservable(l, c) then Dropped
    else if !ReadsHold(Reserved(l, c), c.readList) then SkippedStale
    else
      match Stage(Reserved(l, c), c.writes)
      case NotStaged(o) => o
      case Staged(_, _) => Applied
  }

  lemma ReservedVerdict(l: Ledger, c: Certificate, id: Hash, p: Params, seqBase: u256, parBase: u256, burned: u256)
    ensures
      var r := ApplyReserved(l, c, id, p, seqBase, parBase, burned);
      r.CertSettled? ==>
        r.out.outcome == if !ReadsHold(l, c.readList) then SkippedStale
                         else if Stage(l, c.writes).NotStaged? then Stage(l, c.writes).outcome
                         else Applied
  {
    hide ReadsHold, Stage, Settle, Fees, SweepBurned, CommitCells, CommitSpends;
    SettleIsUnswept(l, c, id, SkippedStale, p.skipFee, burned);
    match Stage(l, c.writes) {
      case NotStaged(o) => SettleIsUnswept(l, c, id, o, p.skipFee, burned);
      case Staged(cells, spend) =>
        var fees := Fees(c, p, seqBase, parBase);
        if fees.Some? && burned + fees.value.burned < TWO256 {
          SettleIsUnswept(SweptLedger(l, c, cells, spend), c, id, Applied, fees.value.charge, burned + fees.value.burned);
        }
    }
  }

  /** The commit, the sweep and the settlement come after the verdict and cannot
      change it. */
  lemma VerdictDecides(l: Ledger, c: Certificate, id: Hash, p: Params, seqBase: u256, parBase: u256, burned: u256)
    ensures
      var r := ApplyCertificate(l, c, id, p, seqBase, parBase, burned);
      r.CertSettled? ==> r.out.outcome == Verdict(l, c)
  {
    hide ReadsHold, Stage, ApplyReserved;
    if Reservable(l, c) {
      ReservedVerdict(Reserved(l, c), c, id, p, seqBase, parBase, burned);
    }
  }

  // ---------------------------------------------------- credits only help

  /** Every read a lower bound, every write a delta or a burn. */
  predicate Monotone(c: Certificate) {
    && (forall i :: 0 <= i < |c.readList| ==> c.readList[i].access.GuardGE?)
    && (forall i :: 0 <= i < |c.writes| ==> !c.writes[i].op.OpSet?)
  }

  /** The same registry, and no cell poorer. */
  ghost predicate Richer(l: Ledger, l': Ledger) {
    && l'.spent == l.spent
    && forall slot :: l.Get(slot) <= l'.Get(slot)
  }

  predicate CreditsFit(l: Ledger, ws: seq<Write>) {
    forall i :: 0 <= i < |ws| && ws[i].op.OpDeltaAdd? ==> l.Get(ws[i].slot) + ws[i].value < TWO256
  }

  lemma RicherStagesOne(l: Ledger, l': Ledger, w: Write, s: Overlay, s': Overlay)
    requires Richer(l, l') && s.Staged? && s'.Staged? && StageOne(l, w, s.cells, s.spend).Staged?
    ensures StageOne(l', w, s'.cells, s'.spend).Staged? <==>
              (w.op.OpDeltaAdd? ==> l'.Get(w.slot) + w.value < TWO256)
  {
  }

  lemma {:induction false} RicherStages(l: Ledger, l': Ledger, ws: seq<Write>)
    requires Richer(l, l') && Stage(l, ws).Staged?
    ensures Stage(l', ws).Staged? <==> CreditsFit(l', ws)
  {
    hide StageOne, Richer;
    if ws != [] {
      var n := |ws| - 1;
      RicherStages(l, l', ws[..n]);
      assert forall i :: 0 <= i < n ==> ws[..n][i] == ws[i];
      if Stage(l', ws[..n]).Staged? {
        RicherStagesOne(l, l', ws[n], Stage(l, ws[..n]), Stage(l', ws[..n]));
      }
    }
  }

  lemma RicherReserves(l: Ledger, l': Ledger, c: Certificate)
    requires Richer(l, l') && Reservable(l, c)
    ensures Reservable(l', c) && Richer(Reserved(l, c), Reserved(l', c))
  {
    assert l.Get(c.deposit.cell) <= l'.Get(c.deposit.cell);
    forall slot
      ensures Reserved(l, c).Get(slot) <= Reserved(l', c).Get(slot)
    {
      assert l.Get(slot) <= l'.Get(slot);
    }
  }

  lemma RicherReads(l: Ledger, l': Ledger, c: Certificate)
    requires Richer(l, l') && Monotone(c) && ReadsHold(l, c.readList)
    ensures ReadsHold(l', c.readList)
  {
    forall i | 0 <= i < |c.readList|
      ensures ReadHolds(l', c.readList[i])
    {
      assert ReadHolds(l, c.readList[i]);
      assert l.Get(c.readList[i].slot) <= l'.Get(c.readList[i].slot);
    }
  }

  /** A certificate of lower bounds and deltas that applies keeps applying when
      anybody adds to any cell, unless one of its own credits would then leave
      256 bits. */
  lemma CreditsOnlyHelp(l: Ledger, l': Ledger, c: Certificate)
    requires Monotone(c) && Richer(l, l') && Verdict(l, c) == Applied
    ensures Reservable(l', c) && ReadsHold(Reserved(l', c), c.readList)
    ensures Verdict(l', c) == Applied <==> CreditsFit(Reserved(l', c), c.writes)
  {
    hide Stage, Richer, Monotone, ReadsHold, Reserved, CreditsFit;
    VerdictNeeds(l, c);
    RicherReserves(l, l', c);
    RicherReads(Reserved(l, c), Reserved(l', c), c);
    RicherStages(Reserved(l, c), Reserved(l', c), c.writes);
    StageOutcome(Reserved(l', c), c.writes);
  }

  lemma PlainIsMonotone(c: Certificate, p: Params)
    requires DerivationMatches(c, p) && (c.program.Transfer? || c.program.Retire?)
    ensures Monotone(c)
  {
    hide DerivationMatches;
    DerivesSomething(c, p);
    forall i | 0 <= i < |c.readList|
      ensures c.readList[i].access.GuardGE?
    {
      DeclaredRead(c, p, c.readList[i]);
    }
    forall i | 0 <= i < |c.writes|
      ensures !c.writes[i].op.OpSet?
    {
      DeclaredWrite(c, p, c.writes[i]);
    }
  }

  /** On a state whose pools fit, the exception never happens: a transfer or a
      retirement that applies here applies on every richer such state. */
  lemma TransfersOnlyHelped(l: Ledger, l': Ledger, c: Certificate, p: Params, maturity: nat)
    requires p.Valid() && StatelessValid(c, p) && (c.program.Transfer? || c.program.Retire?)
    requires Richer(l, l') && PoolsFit(l', maturity) && Verdict(l, c) == Applied
    ensures Verdict(l', c) == Applied
  {
    hide StatelessValid, Stage, DerivationMatches, Tame, Total, Backed, Verdict;
    ValidIsTame(c, p);
    ValidDerives(c, p);
    TameRefunds(c);
    PlainIsMonotone(c, p);
    CreditsOnlyHelp(l, l', c);
    VerdictNeeds(l, c);
    ReservedFits(l', c, maturity);
    var r := Reserved(l', c);
    forall i | 0 <= i < |c.writes| && c.writes[i].op.OpDeltaAdd?
      ensures r.Get(c.writes[i].slot) + c.writes[i].value < TWO256
    {
      WriteFits(r, c, p, c.writes[i], maturity);
    }
  }

  lemma VerdictNeeds(l: Ledger, c: Certificate)
    requires Verdict(l, c) == Applied
    ensures Reservable(l, c) && ReadsHold(Reserved(l, c), c.readList) && Stage(Reserved(l, c), c.writes).Staged?
  {
    if Reservable(l, c) {
      StageOutcome(Reserved(l, c), c.writes);
    }
  }

  /** Reserving a deposit keeps every pool representable. */
  lemma ReservedFits(l: Ledger, c: Certificate, maturity: nat)
    requires Tame(c) && Reservable(l, c) && PoolsFit(l, maturity)
    ensures PoolsFit(Reserved(l, c), maturity)
    ensures Total(Reserved(l, c).cells, Native(maturity)) == Total(l.cells, Native(maturity)) - c.deposit.amount
  {
    hide Total, Backed, Tame;
    TameRefunds(c);
    TotalPut(l.cells, Native(maturity), c.deposit.cell, l.Get(c.deposit.cell) - c.deposit.amount);
    forall a: Address | Version(a) == VERSION_ASSET
      ensures Backed(Reserved(l, c), a)
    {
      ReservedKeepsBacked(l, c, a);
    }
  }
}
