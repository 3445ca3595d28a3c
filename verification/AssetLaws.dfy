/** Assets: every asset's balances sum to its minted cell, which never passes its
    cap, and staging a certificate whose reads hold can never overflow. */
module AssetLaws {
  import opened U256
  import opened Types
  import opened Validity
  import opened Ledgers
  import opened Seqs
  import opened Fold
  import opened Derivation
  import opened CertLaws

  function MintedSlot(a: Address): Slot {
    Slot(a, AssetMinted)
  }

  function CapSlot(a: Address): Slot {
    Slot(a, AssetCap)
  }

  /** The supply law of one asset. */
  ghost predicate Backed(l: Ledger, a: Address) {
    Total(l.cells, Asset(a)) == l.Get(MintedSlot(a)) <= l.Get(CapSlot(a))
  }

  ghost predicate AssetsBacked(l: Ledger) {
    forall a: Address :: Version(a) == VERSION_ASSET ==> Backed(l, a)
  }

  lemma EmptyIsBacked()
    ensures AssetsBacked(EMPTY)
  {
    forall a: Address | Version(a) == VERSION_ASSET
      ensures Backed(EMPTY, a)
    {
      TotalOfEmpty(Asset(a));
    }
  }

  // -------------------------------------------- what a staged write becomes

  /** The value a staged write commits. */
  function StagedValue(l: Ledger, w: Write): int {
    match w.op
    case OpDeltaAdd => l.Get(w.slot) + w.value
    case OpDeltaSub => l.Get(w.slot) - w.value
    case _ => w.value
  }

  lemma {:induction false} StageValue(l: Ledger, ws: seq<Write>, i: nat)
    requires DistinctSlots(ws) && i < |ws| && !ws[i].op.OpMarkSpent? && Stage(l, ws).Staged?
    ensures CommitCells(l, Stage(l, ws).cells).Get(ws[i].slot) == StagedValue(l, ws[i])
  {
    var n := |ws| - 1;
    var s := Stage(l, ws[..n]);
    var w := ws[n];
    StageFacts(l, ws[..n]);
    StageOneCommits(l, w, s.cells, s.spend, ws[i].slot);
    if i < n {
      StageValue(l, ws[..n], i);
    }
  }

  lemma StageOneCommits(l: Ledger, w: Write, cells: seq<PendingCell>, spend: seq<Address>, slot: Slot)
    ensures
      var s := StageOne(l, w, cells, spend);
      s.Staged? ==>
        if !w.op.OpMarkSpent? && slot == w.slot then CommitCells(l, s.cells).Get(slot) == StagedValue(l, w)
        else CommitCells(l, s.cells).Get(slot) == CommitCells(l, cells).Get(slot)
  {
    var s := StageOne(l, w, cells, spend);
    if s.Staged? && !w.op.OpMarkSpent? {
      assert s.cells == cells + [s.cells[|cells|]];
      assert s.cells[..|cells|] == cells;
    }
  }

  /** An asset's own cell, through commit and sweep. */
  lemma AssetCellSwept(l: Ledger, c: Certificate, slot: Slot)
    requires Tame(c) && Stage(l, c.writes).Staged? && Version(slot.addr) == VERSION_ASSET
    ensures
      var s := Stage(l, c.writes);
      SweptLedger(l, c, s.cells, s.spend).Get(slot) == CommitCells(l, s.cells).Get(slot)
  {
    var s := Stage(l, c.writes);
    var l2 := CommitSpends(CommitCells(l, s.cells), s.spend);
    CommitSpendsIs(CommitCells(l, s.cells), s.spend);
    forall w | w in c.writes && w.op.OpMarkSpent?
      ensures slot.addr != w.slot.addr
    {
      assert WriteShape(w);
    }
    SweepFacts(l2, c, |c.writes|, slot);
  }

  lemma UnwrittenAssetCell(l: Ledger, c: Certificate, slot: Slot)
    requires Tame(c) && Stage(l, c.writes).Staged? && Version(slot.addr) == VERSION_ASSET
    requires forall w :: w in c.writes && !w.op.OpMarkSpent? ==> w.slot != slot
    ensures
      var s := Stage(l, c.writes);
      SweptLedger(l, c, s.cells, s.spend).Get(slot) == l.Get(slot)
  {
    var s := Stage(l, c.writes);
    StageFacts(l, c.writes);
    assert slot !in WrittenSlots(c.writes);
    CommitCellsAt(l, s.cells, slot);
    AssetCellSwept(l, c, slot);
  }

  lemma WrittenAssetCell(l: Ledger, c: Certificate, w: Write)
    requires Tame(c) && Stage(l, c.writes).Staged? && Version(w.slot.addr) == VERSION_ASSET
    requires w in c.writes && !w.op.OpMarkSpent?
    ensures
      var s := Stage(l, c.writes);
      SweptLedger(l, c, s.cells, s.spend).Get(w.slot) == StagedValue(l, w)
  {
    var i :| 0 <= i < |c.writes| && c.writes[i] == w;
    StageValue(l, c.writes, i);
    AssetCellSwept(l, c, w.slot);
  }

  // ------------------------------------------------ the four programs, once

  /** The writes a certificate declares are those its program derives, and the
      deposit's own burn. */
  lemma DeclaredWrite(c: Certificate, p: Params, w: Write)
    requires DerivationMatches(c, p)
    ensures w in c.writes <==>
              || w in Derive(c.program, p, c.chainId, c.seqNo).value.writes
              || w in WithDepositMark(Derive(c.program, p, c.chainId, c.seqNo).value.writes, c.deposit.cell.addr)
    ensures w in c.writes && !w.op.OpMarkSpent? <==>
              w in Derive(c.program, p, c.chainId, c.seqNo).value.writes && !w.op.OpMarkSpent?
  {
    var d := DeriveCert(c, p).value;
    EqualBagsEqualMembers(c.writes, d.writes, w);
  }

  lemma DeclaredRead(c: Certificate, p: Params, r: Read)
    requires DerivationMatches(c, p)
    ensures r in c.readList <==> r in Derive(c.program, p, c.chainId, c.seqNo).value.readList
  {
    EqualBagsEqualMembers(c.readList, DeriveCert(c, p).value.readList, r);
  }

  lemma HeldRead(l: Ledger, c: Certificate, r: Read)
    requires ReadsHold(l, c.readList) && r in c.readList
    ensures ReadHolds(l, r)
  {
    var i :| 0 <= i < |c.readList| && c.readList[i] == r;
  }

  lemma MintDeclares(c: Certificate, p: Params)
    requires DerivationMatches(c, p) && c.program.Mint?
    ensures Write(MintedSlot(c.program.asset), OpDeltaAdd, c.program.amount) in c.writes
    ensures Write(BalanceSlot(c.program.dst, c.program.asset), OpDeltaAdd, c.program.amount) in c.writes
    ensures c.program.amount <= c.program.cap && Version(c.program.asset) == VERSION_ASSET
    ensures Read(CapSlot(c.program.asset), Exact, c.program.cap) in c.readList
    ensures Read(MintedSlot(c.program.asset), GuardLE, c.program.cap - c.program.amount) in c.readList
  {
    hide DerivationMatches;
    DerivesSomething(c, p);
    var d := DeriveMint(c.program).value;
    assert d.writes[0] in d.writes && d.writes[1] in d.writes && d.readList[0] in d.readList && d.readList[2] in d.readList;
    DeclaredWrite(c, p, d.writes[0]);
    DeclaredWrite(c, p, d.writes[1]);
    DeclaredRead(c, p, d.readList[0]);
    DeclaredRead(c, p, d.readList[2]);
  }

  lemma DerivesSomething(c: Certificate, p: Params)
    requires DerivationMatches(c, p)
    ensures Derive(c.program, p, c.chainId, c.seqNo).Some?
  {
  }

  lemma MintWrites(c: Certificate, p: Params, w: Write)
    requires DerivationMatches(c, p) && c.program.Mint? && w in c.writes && !w.op.OpMarkSpent?
    ensures w.op.OpDeltaAdd? && w.value == c.program.amount
    ensures w.slot == MintedSlot(c.program.asset) || w.slot == BalanceSlot(c.program.dst, c.program.asset)
  {
    hide DerivationMatches;
    DerivesSomething(c, p);
    DeclaredWrite(c, p, w);
  }

  /** Minting moves the minted cell by its amount and stays under the cap. */
  lemma MintStaged(l: Ledger, c: Certificate, p: Params, a: Address)
    requires Tame(c) && DerivationMatches(c, p) && c.program.Mint?
    requires ReadsHold(l, c.readList) && Stage(l, c.writes).Staged?
    requires Version(a) == VERSION_ASSET && l.Get(MintedSlot(a)) <= l.Get(CapSlot(a))
    ensures
      var s := Stage(l, c.writes);
      var l' := SweptLedger(l, c, s.cells, s.spend);
      l'.Get(MintedSlot(a)) == l.Get(MintedSlot(a)) + Minted(c, Asset(a)) <= l'.Get(CapSlot(a))
  {
    hide Tame, DerivationMatches, ReadsHold, Stage, SweptLedger;
    var g := c.program;
    forall w | w in c.writes && !w.op.OpMarkSpent?
      ensures w.slot != CapSlot(a) && (a != g.asset ==> w.slot != MintedSlot(a))
    {
      MintWrites(c, p, w);
    }
    UnwrittenAssetCell(l, c, CapSlot(a));
    if a == g.asset {
      MintDeclares(c, p);
      WrittenAssetCell(l, c, Write(MintedSlot(a), OpDeltaAdd, g.amount));
      HeldRead(l, c, Read(CapSlot(a), Exact, g.cap));
      HeldRead(l, c, Read(MintedSlot(a), GuardLE, g.cap - g.amount));
    } else {
      UnwrittenAssetCell(l, c, MintedSlot(a));
    }
  }

  lemma IssueDeclares(c: Certificate, p: Params) returns (asset: Address)
    requires DerivationMatches(c, p) && c.program.Issue?
    ensures Read(CapSlot(asset), Exact, 0) in c.readList
    ensures forall w :: w in c.writes && !w.op.OpMarkSpent? ==> w.slot.addr == asset && w.slot.word != AssetMinted
  {
    hide DerivationMatches;
    DerivesSomething(c, p);
    asset := p.DeriveAssetAddress(c.program.issuer, c.seqNo, c.chainId);
    var d := DeriveIssue(c.program, asset).value;
    assert d.readList[0] in d.readList;
    DeclaredRead(c, p, d.readList[0]);
    forall w | w in c.writes && !w.op.OpMarkSpent?
      ensures w.slot.addr == asset && w.slot.word != AssetMinted
    {
      DeclaredWrite(c, p, w);
    }
  }

  /** Issuing can only give a cap to an asset that has none. */
  lemma IssueStaged(l: Ledger, c: Certificate, p: Params, a: Address)
    requires Tame(c) && DerivationMatches(c, p) && c.program.Issue?
    requires ReadsHold(l, c.readList) && Stage(l, c.writes).Staged?
    requires Version(a) == VERSION_ASSET && l.Get(MintedSlot(a)) <= l.Get(CapSlot(a))
    ensures
      var s := Stage(l, c.writes);
      var l' := SweptLedger(l, c, s.cells, s.spend);
      l'.Get(MintedSlot(a)) == l.Get(MintedSlot(a)) <= l'.Get(CapSlot(a))
  {
    hide Tame, DerivationMatches, ReadsHold, Stage, SweptLedger;
    var asset := IssueDeclares(c, p);
    UnwrittenAssetCell(l, c, MintedSlot(a));
    if a == asset {
      HeldRead(l, c, Read(CapSlot(a), Exact, 0));
    } else {
      UnwrittenAssetCell(l, c, CapSlot(a));
    }
  }

  lemma PlainStaged(l: Ledger, c: Certificate, p: Params, a: Address)
    requires Tame(c) && DerivationMatches(c, p) && (c.program.Transfer? || c.program.Retire?)
    requires Stage(l, c.writes).Staged?
    requires Version(a) == VERSION_ASSET
    ensures
      var s := Stage(l, c.writes);
      var l' := SweptLedger(l, c, s.cells, s.spend);
      l'.Get(MintedSlot(a)) == l.Get(MintedSlot(a)) && l'.Get(CapSlot(a)) == l.Get(CapSlot(a))
  {
    forall w | w in c.writes && !w.op.OpMarkSpent?
      ensures IsUser(w.slot.addr)
    {
      DeclaredWrite(c, p, w);
      PlainWritesAreUsers(c, p, w);
    }
    UnwrittenAssetCell(l, c, MintedSlot(a));
    UnwrittenAssetCell(l, c, CapSlot(a));
  }

  lemma PlainWritesAreUsers(c: Certificate, p: Params, w: Write)
    requires c.program.Transfer? || c.program.Retire?
    requires Derive(c.program, p, c.chainId, c.seqNo).Some?
    requires w in Derive(c.program, p, c.chainId, c.seqNo).value.writes
    ensures IsUser(w.slot.addr)
  {
    var ws := Derive(c.program, p, c.chainId, c.seqNo).value.writes;
    var i :| 0 <= i < |ws| && ws[i] == w;
    if c.program.Transfer? {
      MoveSlotsAreBalances(c.program.moves);
    }
  }

  /** An applied certificate keeps every asset backed and under its cap. */
  lemma StagedKeepsBacked(l: Ledger, c: Certificate, p: Params, a: Address)
    requires Tame(c) && DerivationMatches(c, p)
    requires ReadsHold(l, c.readList) && Stage(l, c.writes).Staged?
    requires Version(a) == VERSION_ASSET && Backed(l, a)
    ensures
      var s := Stage(l, c.writes);
      Backed(SweptLedger(l, c, s.cells, s.spend), a)
  {
    hide Stage, SweepBurned, DerivationMatches, ReadsHold, Tame, Total;
    StagedTotal(l, c, p, Asset(a));
    match c.program {
      case Transfer(_) => PlainStaged(l, c, p, a);
      case Retire(_) => PlainStaged(l, c, p, a);
      case Issue(_, _, _, _, _) => IssueStaged(l, c, p, a);
      case Mint(_, _, _, _, _) => MintStaged(l, c, p, a);
    }
  }

  lemma SettleKeepsBacked(l: Ledger, c: Certificate, id: Hash, outcome: Outcome, charge: u256, burned: u256, a: Address)
    requires Tame(c) && Version(a) == VERSION_ASSET && Backed(l, a)
    ensures
      var s := Settle(l, c, id, outcome, charge, burned);
      s.CertDone? ==> Backed(s.ledger, a)
  {
    hide Settle, Total;
    SettleTotal(l, c, id, outcome, charge, burned, Asset(a));
    SettleFacts(l, c, id, outcome, charge, burned, MintedSlot(a));
    SettleFacts(l, c, id, outcome, charge, burned, CapSlot(a));
  }

  lemma ReservedKeepsBacked(l: Ledger, c: Certificate, a: Address)
    requires Tame(c) && Reservable(l, c) && Version(a) == VERSION_ASSET && Backed(l, a)
    ensures Backed(Reserved(l, c), a)
  {
    hide Total;
    TotalPut(l.cells, Asset(a), c.deposit.cell, l.Get(c.deposit.cell) - c.deposit.amount);
  }

  lemma ApplyReservedKeepsBacked(l: Ledger, c: Certificate, id: Hash, p: Params, seqBase: u256, parBase: u256, burned: u256,
                                 a: Address)
    requires Tame(c) && DerivationMatches(c, p) && Version(a) == VERSION_ASSET && Backed(l, a)
    ensures
      var r := ApplyReserved(l, c, id, p, seqBase, parBase, burned);
      r.CertSettled? ==> Backed(r.ledger, a)
  {
    hide Tame, DerivationMatches, Stage, SweepBurned, CommitCells, CommitSpends, Settle, Fees, Backed, ReadsHold;
    SettleKeepsBacked(l, c, id, SkippedStale, p.skipFee, burned, a);
    if ReadsHold(l, c.readList) {
      match Stage(l, c.writes) {
        case NotStaged(o) => SettleKeepsBacked(l, c, id, o, p.skipFee, burned, a);
        case Staged(cells, spend) =>
          StagedKeepsBacked(l, c, p, a);
          var fees := Fees(c, p, seqBase, parBase);
          if fees.Some? && burned + fees.value.burned < TWO256 {
            SettleKeepsBacked(SweptLedger(l, c, cells, spend), c, id, Applied, fees.value.charge,
                              burned + fees.value.burned, a);
          }
      }
    }
  }

  /** The supply law survives every certificate, whatever its outcome. */
  lemma CertKeepsBacked(l: Ledger, c: Certificate, id: Hash, p: Params, seqBase: u256, parBase: u256, burned: u256)
    requires p.Valid() && StatelessValid(c, p) && AssetsBacked(l)
    ensures
      var r := ApplyCertificate(l, c, id, p, seqBase, parBase, burned);
      r.CertSettled? ==> AssetsBacked(r.ledger)
  {
    hide StatelessFailure, ApplyReserved, Backed, Tame, DerivationMatches, Reserved;
    ValidIsTame(c, p);
    ValidDerives(c, p);
    if Reservable(l, c) {
      forall a: Address | Version(a) == VERSION_ASSET
        ensures
          var r := ApplyReserved(Reserved(l, c), c, id, p, seqBase, parBase, burned);
          r.CertSettled? ==> Backed(r.ledger, a)
      {
        ReservedKeepsBacked(l, c, a);
        ApplyReservedKeepsBacked(Reserved(l, c), c, id, p, seqBase, parBase, burned, a);
      }
    }
  }

  lemma ValidDerives(c: Certificate, p: Params)
    requires p.Valid() && StatelessValid(c, p)
    ensures DerivationMatches(c, p)
  {
  }
}
