/** Overflow is unreachable: while every pool fits in 256 bits, staging never
    reports an overflow, the sweep never strands for lack of room, and no
    conservation assertion of the fold can fire. */
module NoOverflow {
  import opened U256
  import opened Types
  import opened Validity
  import opened Ledgers
  import opened Seqs
  import opened Fold
  import opened Derivation
  import opened CertLaws
  import opened BlockLaws
  import opened AssetLaws

  /** Every pool is representable. */
  ghost predicate PoolsFit(l: Ledger, maturity: nat) {
    && Total(l.cells, Native(maturity)) < TWO256
    && AssetsBacked(l)
  }

  function PoolOf(asset: Address, maturity: nat): Pool {
    if asset == NATIVE_ASSET then Native(maturity) else Asset(asset)
  }

  lemma PoolFits(l: Ledger, maturity: nat, asset: Address)
    requires PoolsFit(l, maturity) && AssetOk(asset)
    ensures Total(l.cells, PoolOf(asset, maturity)) < TWO256
  {
    if asset != NATIVE_ASSET {
      assert Backed(l, asset);
    }
  }

  // ------------------------------------------------ a transfer's credits fit

  predicate DistinctSums(sums: seq<SlotSum>) {
    forall i, j :: 0 <= i < j < |sums| ==> sums[i].slot != sums[j].slot
  }

  lemma {:induction false} AddSumSlots(sums: seq<SlotSum>, slot: Slot, v: nat, i: nat)
    requires i < |AddSum(sums, slot, v)|
    ensures AddSum(sums, slot, v)[i].slot == slot || exists j :: 0 <= j < |sums| && sums[j].slot == AddSum(sums, slot, v)[i].slot
  {
    if sums != [] && sums[0].slot != slot && i > 0 {
      AddSumSlots(sums[1..], slot, v, i - 1);
      if AddSum(sums, slot, v)[i].slot != slot {
        var j :| 0 <= j < |sums[1..]| && sums[1..][j].slot == AddSum(sums[1..], slot, v)[i - 1].slot;
        assert sums[j + 1].slot == AddSum(sums, slot, v)[i].slot;
      }
    }
  }

  lemma {:induction false} AddSumDistinct(sums: seq<SlotSum>, slot: Slot, v: nat)
    requires DistinctSums(sums)
    ensures DistinctSums(AddSum(sums, slot, v))
  {
    if sums != [] && sums[0].slot != slot {
      AddSumDistinct(sums[1..], slot, v);
      var rest := AddSum(sums[1..], slot, v);
      forall j | 0 <= j < |rest|
        ensures sums[0].slot != rest[j].slot
      {
        AddSumSlots(sums[1..], slot, v, j);
      }
    }
  }

  lemma {:induction false} DebitsDistinct(moves: seq<Move>)
    ensures DistinctSums(Debits(moves))
  {
    if moves != [] {
      var n := |moves| - 1;
      DebitsDistinct(moves[..n]);
      AddSumDistinct(Debits(moves[..n]), BalanceSlot(moves[n].src, moves[n].asset), moves[n].amount);
    }
  }

  lemma {:induction false} CoveredSubsStage(l: Ledger, ws: seq<Write>)
    requires forall i :: 0 <= i < |ws| ==> ws[i].op.OpDeltaSub? && ws[i].slot.addr !in l.spent && l.Get(ws[i].slot) >= ws[i].value
    ensures Stage(l, ws).Staged?
  {
    if ws != [] {
      CoveredSubsStage(l, ws[..|ws| - 1]);
    }
  }

  lemma {:induction false} TermWithinPoolSum(sums: seq<SlotSum>, i: nat, pool: Pool)
    requires i < |sums| && Counts(pool, sums[i].slot)
    ensures sums[i].total <= PoolSum(sums, pool)
  {
    if i > 0 {
      TermWithinPoolSum(sums[1..], i - 1, pool);
    }
  }

  /** Take every debit out first: what is left of the pool has room for any one
      credit, because the credits are worth no more than the debits. */
  lemma CreditFits(l: Ledger, moves: seq<Move>, i: nat, pool: Pool)
    requires TransferOk(moves) && i < |Credits(moves)| && Counts(pool, Credits(moves)[i].slot)
    requires forall j :: 0 <= j < |Debits(moves)| ==>
               Debits(moves)[j].slot.addr !in l.spent && l.Get(Debits(moves)[j].slot) >= Debits(moves)[j].total
    ensures l.Get(Credits(moves)[i].slot) + Credits(moves)[i].total <= Total(l.cells, pool)
  {
    hide Total;
    var sums := Debits(moves);
    var ws := DeltaWrites(sums, OpDeltaSub);
    var slot := Credits(moves)[i].slot;
    CoveredSubsStage(l, ws);
    DebitsDistinct(moves);
    assert DistinctSlots(ws);
    StageTotal(l, ws, pool);
    DeltaWritesNet(sums, OpDeltaSub, pool);
    DebitsEqualCredits(moves, pool);
    TermWithinPoolSum(Credits(moves), i, pool);
    var drained := CommitCells(l, Stage(l, ws).cells);
    StageFacts(l, ws);
    assert slot !in WrittenSlots(ws);
    CommitCellsAt(l, Stage(l, ws).cells, slot);
    CellWithinTotal(drained.cells, pool, slot);
  }

  // ------------------------------------------------- staging never overflows

  lemma TransferAddFits(l: Ledger, c: Certificate, p: Params, w: Write, maturity: nat)
    requires Tame(c) && DerivationMatches(c, p) && c.program.Transfer?
    requires ReadsHold(l, c.readList) && PoolsFit(l, maturity)
    requires w in c.writes && w.op.OpDeltaAdd?
    ensures l.Get(w.slot) + w.value < TWO256
  {
    hide Total, DerivationMatches, ReadsHold, Tame;
    var moves := c.program.moves;
    DerivesSomething(c, p);
    DeclaredWrite(c, p, w);
    var i := CreditIndex(moves, w);
    MoveSlotsAreBalances(moves);
    var pool := PoolOf(w.slot.word.asset, maturity);
    forall j | 0 <= j < |Debits(moves)|
      ensures Debits(moves)[j].slot.addr !in l.spent && l.Get(Debits(moves)[j].slot) >= Debits(moves)[j].total
    {
      var r := GuardReads(Debits(moves))[j];
      assert r in GuardReads(Debits(moves));
      DeclaredRead(c, p, r);
      HeldRead(l, c, r);
    }
    CreditFits(l, moves, i, pool);
    PoolFits(l, maturity, w.slot.word.asset);
  }

  lemma CreditIndex(moves: seq<Move>, w: Write) returns (i: nat)
    requires TransferOk(moves) && SumsFit(Debits(moves)) && SumsFit(Credits(moves))
    requires w in DeriveTransfer(moves).value.writes && w.op.OpDeltaAdd?
    ensures i < |Credits(moves)| && w == Write(Credits(moves)[i].slot, OpDeltaAdd, Credits(moves)[i].total)
  {
    hide TransferOk, Debits, Credits, BurnedSources;
    var d, k, m := DeltaWrites(Debits(moves), OpDeltaSub), DeltaWrites(Credits(moves), OpDeltaAdd),
                   MarkWrites(BurnedSources(moves));
    assert w in d + k + m;
    assert w !in d && w !in m;
    i :| 0 <= i < |k| && k[i] == w;
  }

  lemma MintAddFits(l: Ledger, c: Certificate, p: Params, w: Write, maturity: nat)
    requires Tame(c) && DerivationMatches(c, p) && c.program.Mint?
    requires ReadsHold(l, c.readList) && PoolsFit(l, maturity)
    requires w in c.writes && w.op.OpDeltaAdd?
    ensures l.Get(w.slot) + w.value < TWO256
  {
    hide Total, DerivationMatches, ReadsHold, Tame;
    var g := c.program;
    MintDeclares(c, p);
    MintWrites(c, p, w);
    HeldRead(l, c, Read(CapSlot(g.asset), Exact, g.cap));
    HeldRead(l, c, Read(MintedSlot(g.asset), GuardLE, g.cap - g.amount));
    assert Backed(l, g.asset);
    if w.slot == BalanceSlot(g.dst, g.asset) {
      CellWithinTotal(l.cells, Asset(g.asset), w.slot);
    }
  }

  lemma OtherProgramsAddNothing(c: Certificate, p: Params, w: Write)
    requires DerivationMatches(c, p) && (c.program.Issue? || c.program.Retire?)
    requires w in c.writes
    ensures !w.op.OpDeltaAdd?
  {
    hide DerivationMatches;
    DerivesSomething(c, p);
    DeclaredWrite(c, p, w);
  }

  /** No declared arithmetic of a valid certificate whose reads hold can leave the
      256-bit range. */
  lemma WriteFits(l: Ledger, c: Certificate, p: Params, w: Write, maturity: nat)
    requires Tame(c) && DerivationMatches(c, p) && ReadsHold(l, c.readList) && PoolsFit(l, maturity)
    requires w in c.writes
    ensures w.op.OpDeltaAdd? ==> l.Get(w.slot) + w.value < TWO256
    ensures w.op.OpDeltaSub? ==> l.Get(w.slot) >= w.value
  {
    hide Tame, DerivationMatches, ReadsHold, PoolsFit;
    if w.op.OpDeltaSub? {
      SubIsGuarded(c, p, w);
      HeldRead(l, c, Read(w.slot, GuardGE, w.value));
    } else if w.op.OpDeltaAdd? {
      match c.program {
        case Transfer(_) => TransferAddFits(l, c, p, w, maturity);
        case Mint(_, _, _, _, _) => MintAddFits(l, c, p, w, maturity);
        case Issue(_, _, _, _, _) => OtherProgramsAddNothing(c, p, w);
        case Retire(_) => OtherProgramsAddNothing(c, p, w);
      }
    }
  }

  lemma {:induction false} StageFits(l: Ledger, ws: seq<Write>)
    requires forall i :: 0 <= i < |ws| && ws[i].op.OpDeltaAdd? ==> l.Get(ws[i].slot) + ws[i].value < TWO256
    requires forall i :: 0 <= i < |ws| && ws[i].op.OpDeltaSub? ==> l.Get(ws[i].slot) >= ws[i].value
    ensures Stage(l, ws) != NotStaged(SkippedOverflow)
    ensures Stage(l, ws).Staged? <==> forall i :: 0 <= i < |ws| ==> ws[i].slot.addr !in l.spent
  {
    if ws != [] {
      var n := |ws| - 1;
      StageFits(l, ws[..n]);
      hide Ledger.Get, StageOne;
      assert forall i :: 0 <= i < n ==> ws[..n][i] == ws[i];
      StageOutcome(l, ws[..n]);
      var s := Stage(l, ws[..n]);
      if s.Staged? {
        StageOneFits(l, ws[n], s.cells, s.spend);
      }
    }
  }

  lemma StageOneFits(l: Ledger, w: Write, cells: seq<PendingCell>, spend: seq<Address>)
    requires w.op.OpDeltaAdd? ==> l.Get(w.slot) + w.value < TWO256
    requires w.op.OpDeltaSub? ==> l.Get(w.slot) >= w.value
    ensures StageOne(l, w, cells, spend) != NotStaged(SkippedOverflow)
    ensures StageOne(l, w, cells, spend).Staged? <==> w.slot.addr !in l.spent
  {
  }

  /** F7 never answers overflow, and stages exactly when no written address is
      burned. */
  lemma StageNeverOverflows(l: Ledger, c: Certificate, p: Params, maturity: nat)
    requires Tame(c) && DerivationMatches(c, p) && ReadsHold(l, c.readList) && PoolsFit(l, maturity)
    ensures Stage(l, c.writes) != NotStaged(SkippedOverflow)
    ensures Stage(l, c.writes).Staged? <==> forall i :: 0 <= i < |c.writes| ==> c.writes[i].slot.addr !in l.spent
  {
    hide Tame, DerivationMatches, ReadsHold, PoolsFit, Stage;
    forall i | 0 <= i < |c.writes|
      ensures c.writes[i].op.OpDeltaAdd? ==> l.Get(c.writes[i].slot) + c.writes[i].value < TWO256
      ensures c.writes[i].op.OpDeltaSub? ==> l.Get(c.writes[i].slot) >= c.writes[i].value
    {
      WriteFits(l, c, p, c.writes[i], maturity);
    }
    StageFits(l, c.writes);
  }

  // ----------------------------------------------- the sweep always has room

  /** Every pool a balance can belong to is representable. */
  ghost predicate RoomEverywhere(l: Ledger, maturity: nat) {
    forall asset: Address :: AssetOk(asset) ==> Total(l.cells, PoolOf(asset, maturity)) < TWO256
  }

  lemma ResidualFits(l: Ledger, src: Slot, dst: Address, maturity: nat)
    requires UserBalance(src) && src.addr in l.spent && dst !in l.spent && IsUser(dst)
    requires RoomEverywhere(l, maturity)
    ensures MoveResidual(l, src, dst).left == 0
    ensures RoomEverywhere(MoveResidual(l, src, dst).ledger, maturity)
  {
    hide Total;
    var pool := PoolOf(src.word.asset, maturity);
    assert Total(l.cells, pool) < TWO256;
    TwoCellsWithinTotal(l.cells, pool, src, Slot(dst, src.word));
    forall asset: Address | AssetOk(asset)
      ensures Total(MoveResidual(l, src, dst).ledger.cells, PoolOf(asset, maturity)) < TWO256
    {
      SamePools(PoolOf(asset, maturity), src, dst);
      MoveResidualTotal(l, src, dst, PoolOf(asset, maturity));
    }
  }

  lemma SweepsBalances(c: Certificate, x: Write, a: Address)
    requires Tame(c) && x in c.writes && SweepsAlso(x, a) && IsOneShot(a)
    ensures UserBalance(x.slot)
  {
    assert WriteShape(x);
  }

  lemma {:induction false} SweepNamedStrandsNothing(s: Sweep, c: Certificate, a: Address, n: nat, maturity: nat)
    requires n <= |c.writes| && Tame(c) && IsOneShot(a)
    requires a in s.ledger.spent && c.deposit.refundTo.addr !in s.ledger.spent && RoomEverywhere(s.ledger, maturity)
    ensures
      var r := SweepNamed(s, c, a, n);
      && r.stranded == s.stranded && r.cells == s.cells
      && r.ledger.spent == s.ledger.spent
      && RoomEverywhere(r.ledger, maturity)
  {
    hide RoomEverywhere, MoveResidual, Tame;
    if n > 0 {
      SweepNamedStrandsNothing(s, c, a, n - 1, maturity);
      var t := SweepNamed(s, c, a, n - 1);
      var x := c.writes[n - 1];
      if SweepsAlso(x, a) {
        TameRefunds(c);
        SweepsBalances(c, x, a);
        ResidualFits(t.ledger, x.slot, c.deposit.refundTo.addr, maturity);
        MoveResidualFacts(t.ledger, x.slot, c.deposit.refundTo.addr, x.slot);
      }
    }
  }

  lemma TameRefunds(c: Certificate)
    requires Tame(c)
    ensures IsUser(c.deposit.refundTo.addr) && c.deposit.refundTo.word == Balance(NATIVE_ASSET)
    ensures IsUser(c.deposit.cell.addr) && c.deposit.cell.word == Balance(NATIVE_ASSET)
    ensures forall w :: w in c.writes && w.op.OpMarkSpent? ==> IsOneShot(w.slot.addr)
  {
    forall w | w in c.writes && w.op.OpMarkSpent?
      ensures IsOneShot(w.slot.addr)
    {
      assert WriteShape(w);
    }
  }

  /** F8b leaves nothing behind while the refund address is alive: the only branch
      that could decline for lack of room is unreachable. */
  lemma {:induction false} SweepStrandsNothing(l: Ledger, c: Certificate, n: nat, maturity: nat)
    requires n <= |c.writes| && Tame(c)
    requires forall w :: w in c.writes && w.op.OpMarkSpent? ==> w.slot.addr in l.spent
    requires c.deposit.refundTo.addr !in l.spent && RoomEverywhere(l, maturity)
    ensures
      var r := SweepBurned(l, c, n);
      && r.stranded == 0 && r.cells == 0
      && r.ledger.spent == l.spent
      && RoomEverywhere(r.ledger, maturity)
  {
    hide RoomEverywhere, MoveResidual, Tame, SweepNamed;
    if n > 0 {
      SweepStrandsNothing(l, c, n - 1, maturity);
      var s := SweepBurned(l, c, n - 1);
      var w := c.writes[n - 1];
      if w.op.OpMarkSpent? {
        TameRefunds(c);
        assert w in c.writes;
        var a := w.slot.addr;
        ResidualFits(s.ledger, NativeSlot(a), c.deposit.refundTo.addr, maturity);
        MoveResidualFacts(s.ledger, NativeSlot(a), c.deposit.refundTo.addr, w.slot);
        SweepNamedStrandsNothing(SweepNative(s, c, a), c, a, |c.writes|, maturity);
      }
    }
  }

  // --------------------------------------------------- fees are affordable

  lemma ProductSplits(gas: nat, a: nat, b: nat, top: nat)
    requires a + b <= top
    ensures Product(gas, a) + Product(gas, b) <= Product(gas, top)
  {
    assert gas * (top - a - b) >= 0;
  }

  lemma MarketWithinBid(gas: u64, base: u256, maxPrice: u256, priority: u256)
    requires base <= maxPrice && Product(gas, maxPrice) < TWO256
    ensures
      var m := MarketOf(gas, base, maxPrice, priority);
      m.Some? && m.value.burn + m.value.tip <= Product(gas, maxPrice)
  {
    hide Product;
    ProductSplits(gas, base, Min(priority, maxPrice - base), maxPrice);
  }

  /** V5 and B4 together: the fee arithmetic succeeds and the deposit covers it. */
  lemma FeesAffordable(c: Certificate, p: Params, seqBase: u256, parBase: u256)
    requires p.Valid() && DepositOk(c, p)
    requires c.feeBid.seqMax >= seqBase && c.feeBid.parMax >= parBase
    ensures Fees(c, p, seqBase, parBase).Some?
    ensures Fees(c, p, seqBase, parBase).value.charge <= c.deposit.amount
    ensures p.skipFee <= c.deposit.amount
  {
    hide MarketOf, Product, Params.SeqGas, Params.ParGas, Params.Issued, Marks;
    MarketWithinBid(p.SeqGas(c), seqBase, c.feeBid.seqMax, c.feeBid.seqPriority);
    MarketWithinBid(p.ParGas(c), parBase, c.feeBid.parMax, c.feeBid.parPriority);
  }
}
