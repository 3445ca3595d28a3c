/** The wallet's pre-check against the fold's verdict: what CheckAll accepts
    applies, exactly when the addresses it debits are still unspent, and what it
    burns is already empty when the sweep looks. */
module WalletLaws {
  import opened U256
  import opened Types
  import opened Validity
  import opened Ledgers
  import opened Fold
  import opened Derivation
  import opened CertLaws
  import opened AssetLaws
  import opened BlockFrames
  import opened NoOverflow
  import opened Solvency
  import opened Verdicts
  import opened Wallet
  import opened Runs
  import opened Liveness

  // ------------------------------------- the derived debits, cell by cell

  function SumAt(sums: seq<SlotSum>, slot: Slot): nat {
    if sums == [] then 0 else (if sums[0].slot == slot then sums[0].total else 0) + SumAt(sums[1..], slot)
  }

  lemma {:induction false} AddSumAt(sums: seq<SlotSum>, slot: Slot, v: nat, at: Slot)
    ensures SumAt(AddSum(sums, slot, v), at) == SumAt(sums, at) + if at == slot then v else 0
  {
    if sums == [] {
    } else if sums[0].slot == slot {
      assert ([SlotSum(slot, sums[0].total + v)] + sums[1..])[1..] == sums[1..];
    } else {
      AddSumAt(sums[1..], slot, v, at);
      assert ([sums[0]] + AddSum(sums[1..], slot, v))[1..] == AddSum(sums[1..], slot, v);
    }
  }

  lemma {:induction false} DebitsAt(moves: seq<Move>, slot: Slot)
    ensures SumAt(Debits(moves), slot) == DebitOf(moves, slot)
  {
    if moves != [] {
      var n := |moves| - 1;
      DebitsAt(moves[..n], slot);
      AddSumAt(Debits(moves[..n]), SourceSlot(moves[n]), moves[n].amount, slot);
    }
  }

  lemma {:induction false} SumAtAbsent(sums: seq<SlotSum>, slot: Slot)
    requires forall i :: 0 <= i < |sums| ==> sums[i].slot != slot
    ensures SumAt(sums, slot) == 0
  {
    if sums != [] {
      SumAtAbsent(sums[1..], slot);
    }
  }

  lemma {:induction false} SumAtEntry(sums: seq<SlotSum>, i: nat)
    requires DistinctSums(sums) && i < |sums|
    ensures SumAt(sums, sums[i].slot) == sums[i].total
  {
    if i == 0 {
      SumAtAbsent(sums[1..], sums[0].slot);
    } else {
      SumAtEntry(sums[1..], i - 1);
    }
  }

  /** The derivation's per-cell debit is the sum of the moves out of that cell. */
  lemma DebitEntry(moves: seq<Move>, i: nat)
    requires i < |Debits(moves)|
    ensures Debits(moves)[i].total == DebitOf(moves, Debits(moves)[i].slot)
  {
    DebitsDistinct(moves);
    SumAtEntry(Debits(moves), i);
    DebitsAt(moves, Debits(moves)[i].slot);
  }

  lemma {:induction false} DebitEntryIsSource(moves: seq<Move>, i: nat)
    requires i < |Debits(moves)|
    ensures IsSource(moves, Debits(moves)[i].slot)
  {
    var n := |moves| - 1;
    AddSumSlots(Debits(moves[..n]), SourceSlot(moves[n]), moves[n].amount, i);
    if Debits(moves)[i].slot == SourceSlot(moves[n]) {
    } else {
      var j :| 0 <= j < |Debits(moves[..n])| && Debits(moves[..n])[j].slot == Debits(moves)[i].slot;
      DebitEntryIsSource(moves[..n], j);
      assert forall k :: 0 <= k < n ==> moves[..n][k] == moves[k];
    }
  }

  lemma {:induction false} SourceIsPositive(moves: seq<Move>, i: nat)
    requires i < |moves| && moves[i].amount > 0
    ensures DebitOf(moves, SourceSlot(moves[i])) > 0
  {
    DebitOfGrows(moves, i + 1, SourceSlot(moves[i]));
    assert moves[..i + 1][i] == moves[i];
  }

  lemma SourceHasEntry(moves: seq<Move>, i: nat) returns (k: nat)
    requires i < |moves| && moves[i].amount > 0
    ensures k < |Debits(moves)| && Debits(moves)[k].slot == SourceSlot(moves[i])
    ensures Debits(moves)[k].total == DebitOf(moves, SourceSlot(moves[i]))
  {
    var slot := SourceSlot(moves[i]);
    SourceIsPositive(moves, i);
    DebitsAt(moves, slot);
    if forall j :: 0 <= j < |Debits(moves)| ==> Debits(moves)[j].slot != slot {
      SumAtAbsent(Debits(moves), slot);
    }
    k :| 0 <= k < |Debits(moves)| && Debits(moves)[k].slot == slot;
    DebitEntry(moves, k);
  }

  // -------------------------------------------------- the reads a check covers

  /** After the deposit is reserved every cell still covers what the moves take. */
  ghost predicate StillCovered(l: Ledger, c: Certificate) {
    && l.Get(c.deposit.cell) >= c.deposit.amount
    && forall slot :: DebitOf(MovesOf(c.program), slot) + (if slot == c.deposit.cell then c.deposit.amount else 0) <= l.Get(slot)
  }

  lemma AcceptedCovers(l: Ledger, c: Certificate, p: Params, owned: seq<Address>)
    requires p.Valid() && DepositOk(c, p) && Accepts(c, l, p, owned)
    ensures StillCovered(l, c)
    ensures Reservation(c.deposit, FeeCeiling(c, p).value) == c.deposit.amount
  {
    hide FeeCeiling, AcceptsBar, DebitOf, Params.Issued, Marks;
    var ceiling := FeeCeiling(c, p).value;
    var moves := MovesOf(c.program);
    assert Need(moves, c.deposit, ceiling, c.deposit.cell) <= l.Get(c.deposit.cell);
    forall slot
      ensures DebitOf(moves, slot) + (if slot == c.deposit.cell then c.deposit.amount else 0) <= l.Get(slot)
    {
      assert Need(moves, c.deposit, ceiling, slot) <= l.Get(slot);
    }
  }

  ghost predicate SourcesLive(l: Ledger, moves: seq<Move>) {
    forall i :: 0 <= i < |moves| ==> moves[i].src !in l.spent
  }

  lemma TransferReadHolds(l: Ledger, c: Certificate, p: Params, r: Read)
    requires c.program.Transfer? && DerivationMatches(c, p) && r in c.readList
    requires c.deposit.cell.addr !in l.spent && StillCovered(l, c) && SourcesLive(l, c.program.moves)
    ensures ReadHolds(Reserved(l, c), r)
  {
    hide DerivationMatches, Debits, StillCovered;
    var moves := c.program.moves;
    DerivesSomething(c, p);
    DeclaredRead(c, p, r);
    var i :| 0 <= i < |Debits(moves)| && GuardReads(Debits(moves))[i] == r;
    DebitEntry(moves, i);
    DebitEntryIsSource(moves, i);
    CoveredAt(l, c, r.slot);
  }

  lemma CoveredAt(l: Ledger, c: Certificate, slot: Slot)
    requires c.deposit.cell.addr !in l.spent && StillCovered(l, c)
    ensures Reservable(l, c)
    ensures DebitOf(MovesOf(c.program), slot) <= Reserved(l, c).Get(slot)
    ensures Reserved(l, c).Get(slot) == l.Get(slot) - if slot == c.deposit.cell then c.deposit.amount else 0
  {
    hide DebitOf;
    assert DebitOf(MovesOf(c.program), slot) + (if slot == c.deposit.cell then c.deposit.amount else 0) <= l.Get(slot);
  }

  lemma TransferReads(l: Ledger, c: Certificate, p: Params)
    requires c.program.Transfer? && DerivationMatches(c, p)
    requires c.deposit.cell.addr !in l.spent && StillCovered(l, c)
    ensures ReadsHold(Reserved(l, c), c.readList) <==> SourcesLive(l, c.program.moves)
  {
    hide DerivationMatches, StillCovered, ReadHolds, Debits;
    var moves := c.program.moves;
    CoveredAt(l, c, c.deposit.cell);
    if SourcesLive(l, moves) {
      forall i | 0 <= i < |c.readList|
        ensures ReadHolds(Reserved(l, c), c.readList[i])
      {
        TransferReadHolds(l, c, p, c.readList[i]);
      }
    }
    if ReadsHold(Reserved(l, c), c.readList) {
      forall i | 0 <= i < |moves|
        ensures moves[i].src !in l.spent
      {
        SourceIsRead(l, c, p, i);
      }
    }
  }

  lemma SourceIsRead(l: Ledger, c: Certificate, p: Params, i: nat)
    requires c.program.Transfer? && DerivationMatches(c, p) && i < |c.program.moves|
    requires Reservable(l, c) && ReadsHold(Reserved(l, c), c.readList)
    ensures c.program.moves[i].src !in l.spent
  {
    hide DerivationMatches, Debits, ReadsHold;
    var moves := c.program.moves;
    DerivesSomething(c, p);
    assert MoveOk(moves[i]);
    var k := SourceHasEntry(moves, i);
    var r := GuardReads(Debits(moves))[k];
    assert r in GuardReads(Debits(moves));
    DeclaredRead(c, p, r);
    HeldRead(Reserved(l, c), c, r);
  }

  /** The reads of the other programs never touch the deposit cell. */
  lemma OtherReads(l: Ledger, c: Certificate, p: Params)
    requires !c.program.Transfer? && DerivationMatches(c, p) && Reservable(l, c) && IsUser(c.deposit.cell.addr)
    ensures ReadsHold(Reserved(l, c), c.readList) <==> ReadsHold(l, c.readList)
    ensures c.program.Retire? ==> ReadsHold(l, c.readList)
  {
    hide DerivationMatches;
    forall i | 0 <= i < |c.readList|
      ensures Version(c.readList[i].slot.addr) == VERSION_ASSET && !c.program.Retire?
    {
      DerivesSomething(c, p);
      DeclaredRead(c, p, c.readList[i]);
    }
    assert forall i :: 0 <= i < |c.readList| ==>
        (ReadHolds(Reserved(l, c), c.readList[i]) <==> ReadHolds(l, c.readList[i]));
  }

  // ---------------------------------------------- the writes a check leaves open

  /** The registry facts the wallet's rules leave to the caller. */
  ghost predicate TargetsLive(l: Ledger, g: Program) {
    match g
    case Transfer(moves) => SourcesLive(l, moves)
    case Retire(addrs) => forall i :: 0 <= i < |addrs| ==> addrs[i] !in l.spent
    case Mint(_, dst, _, _, _) => dst !in l.spent
    case Issue(_, _, _, _, _) => true
  }

  ghost predicate WritesLive(l: Ledger, ws: seq<Write>) {
    forall w :: w in ws ==> w.slot.addr !in l.spent
  }

  lemma TransferWriteLive(l: Ledger, moves: seq<Move>, w: Write)
    requires TransferOk(moves) && w in DeriveTransfer(moves).value.writes
    requires OneShotsOnly(l) && PayeesFresh(Transfer(moves), l) && SourcesLive(l, moves)
    ensures w.slot.addr !in l.spent
  {
    hide TransferOk, PayeesFresh;
    SumsAreFit(moves);
    var d, k, m := DeltaWrites(Debits(moves), OpDeltaSub), DeltaWrites(Credits(moves), OpDeltaAdd),
                   MarkWrites(BurnedSources(moves));
    assert w in d + k + m;
    if w in d {
      var i :| 0 <= i < |d| && d[i] == w;
      DebitEntryIsSource(moves, i);
    } else if w in k {
      var i :| 0 <= i < |k| && k[i] == w;
      CreditIsPayee(moves, i);
      var j :| 0 <= j < |moves| && BalanceSlot(moves[j].dst, moves[j].asset) == w.slot;
      PayeeLive(l, moves, j);
    } else {
      var i :| 0 <= i < |m| && m[i] == w;
      BurnedIsSource(moves, i);
    }
  }

  lemma SumsAreFit(moves: seq<Move>)
    requires TransferOk(moves)
    ensures SumsFit(Debits(moves)) && SumsFit(Credits(moves))
  {
  }

  lemma PayeeLive(l: Ledger, moves: seq<Move>, j: nat)
    requires j < |moves| && OneShotsOnly(l) && PayeesFresh(Transfer(moves), l)
    ensures moves[j].dst !in l.spent
  {
    assert MovesOf(Transfer(moves))[j] == moves[j];
  }

  lemma {:induction false} CreditIsPayee(moves: seq<Move>, i: nat)
    requires i < |Credits(moves)|
    ensures exists j :: 0 <= j < |moves| && BalanceSlot(moves[j].dst, moves[j].asset) == Credits(moves)[i].slot
  {
    var n := |moves| - 1;
    var to := BalanceSlot(moves[n].dst, moves[n].asset);
    AddSumSlots(Credits(moves[..n]), to, moves[n].amount, i);
    if Credits(moves)[i].slot != to {
      var k :| 0 <= k < |Credits(moves[..n])| && Credits(moves[..n])[k].slot == Credits(moves)[i].slot;
      CreditIsPayee(moves[..n], k);
      assert forall j :: 0 <= j < n ==> moves[..n][j] == moves[j];
    }
  }

  lemma {:induction false} BurnedIsSource(moves: seq<Move>, i: nat)
    requires i < |BurnedSources(moves)|
    ensures exists j :: 0 <= j < |moves| && moves[j].src == BurnedSources(moves)[i]
  {
    var n := |moves| - 1;
    if i < |BurnedSources(moves[..n])| {
      BurnedIsSource(moves[..n], i);
      var j :| 0 <= j < n && moves[..n][j].src == BurnedSources(moves[..n])[i];
      assert moves[j].src == BurnedSources(moves)[i];
    }
  }

  lemma DerivedWriteLive(l: Ledger, c: Certificate, p: Params, w: Write)
    requires Derive(c.program, p, c.chainId, c.seqNo).Some?
    requires w in Derive(c.program, p, c.chainId, c.seqNo).value.writes
    requires OneShotsOnly(l) && PayeesFresh(c.program, l) && TargetsLive(l, c.program)
    ensures w.slot.addr !in l.spent
  {
    hide TransferOk, PayeesFresh;
    if c.program.Transfer? {
      TransferWriteLive(l, c.program.moves, w);
    }
  }

  /** Given live sources, the registry refuses a checked certificate only for a
      retired address or a mint's payee that is already burned. */
  lemma WritesAreLive(l: Ledger, c: Certificate, p: Params)
    requires DerivationMatches(c, p) && OneShotsOnly(l) && PayeesFresh(c.program, l)
    requires c.deposit.cell.addr !in l.spent
    requires c.program.Transfer? ==> TargetsLive(l, c.program)
    ensures WritesLive(l, c.writes) <==> TargetsLive(l, c.program)
  {
    hide DerivationMatches, PayeesFresh, Derive, TargetsLive;
    DerivesSomething(c, p);
    if TargetsLive(l, c.program) {
      forall w | w in c.writes
        ensures w.slot.addr !in l.spent
      {
        DeclaredWrite(c, p, w);
        if w in Derive(c.program, p, c.chainId, c.seqNo).value.writes {
          DerivedWriteLive(l, c, p, w);
        }
      }
    }
    if WritesLive(l, c.writes) {
      WrittenTargetsLive(l, c, p);
    }
  }

  lemma WrittenTargetsLive(l: Ledger, c: Certificate, p: Params)
    requires DerivationMatches(c, p) && WritesLive(l, c.writes)
    requires c.program.Transfer? ==> TargetsLive(l, c.program)
    ensures TargetsLive(l, c.program)
  {
    hide DerivationMatches, SourcesLive;
    DerivesSomething(c, p);
    match c.program {
      case Retire(addrs) =>
        forall i | 0 <= i < |addrs|
          ensures addrs[i] !in l.spent
        {
          var w := MarkWrites(addrs)[i];
          assert w in MarkWrites(addrs);
          DeclaredWrite(c, p, w);
        }
      case Mint(_, _, _, _, _) => MintDeclares(c, p);
      case _ =>
    }
  }

  // --------------------------------------------------- the check and the verdict

  /** What the wallet's rules do not ask: are the debited and retired addresses
      still unspent, and do an issue's or a mint's own reads hold? */
  ghost predicate Spendable(l: Ledger, c: Certificate) {
    && c.deposit.cell.addr !in l.spent
    && TargetsLive(l, c.program)
    && (c.program.Issue? || c.program.Mint? ==> ReadsHold(l, c.readList))
  }

  lemma CheckedReads(l: Ledger, c: Certificate, p: Params)
    requires DerivationMatches(c, p) && IsUser(c.deposit.cell.addr)
    requires c.deposit.cell.addr !in l.spent && StillCovered(l, c)
    ensures Reservable(l, c)
    ensures ReadsHold(Reserved(l, c), c.readList) <==>
              (c.program.Transfer? ==> TargetsLive(l, c.program))
              && (c.program.Issue? || c.program.Mint? ==> ReadsHold(l, c.readList))
  {
    hide DerivationMatches, StillCovered, ReadsHold, SourcesLive;
    CoveredAt(l, c, c.deposit.cell);
    if c.program.Transfer? {
      TransferReads(l, c, p);
    } else {
      OtherReads(l, c, p);
    }
  }

  /** The pre-check refines the fold: a certificate CheckAll accepts, on a sound
      state and with bids that cover the base fees, is applied exactly when what
      it debits, retires or mints to is unspent and an issue's or mint's reads
      hold.  Otherwise it is dropped exactly when the deposit address is spent,
      and skipped as stale in every remaining case. */
  lemma CheckedMeansApplied(l: Ledger, c: Certificate, id: Hash, p: Params, owned: seq<Address>,
                            seqBase: u256, parBase: u256, burned: u256, maturity: nat)
    requires p.Valid() && StatelessValid(c, p) && Accepts(c, l, p, owned)
    requires OneShotsOnly(l) && AssetsBacked(l) && Total(l.cells, Native(maturity)) + burned < TWO256
    requires c.feeBid.seqMax >= seqBase && c.feeBid.parMax >= parBase
    ensures
      var r := ApplyCertificate(l, c, id, p, seqBase, parBase, burned);
      && r.CertSettled?
      && (r.out.outcome == Applied <==> Spendable(l, c))
      && (r.out.outcome == Dropped <==> c.deposit.cell.addr in l.spent)
      && r.out.outcome != SkippedOverflow
  {
    hide StatelessValid, Accepts, ApplyCertificate, Total, Verdict, AssetsBacked, OneShotsOnly;
    CertIsClean(l, c, id, p, seqBase, parBase, burned, maturity);
    VerdictDecides(l, c, id, p, seqBase, parBase, burned);
    CheckedVerdict(l, c, p, owned, maturity);
  }

  lemma CheckedVerdict(l: Ledger, c: Certificate, p: Params, owned: seq<Address>, maturity: nat)
    requires p.Valid() && StatelessValid(c, p) && Accepts(c, l, p, owned)
    requires OneShotsOnly(l) && AssetsBacked(l) && Total(l.cells, Native(maturity)) < TWO256
    ensures Verdict(l, c) == Applied <==> Spendable(l, c)
    ensures Verdict(l, c) == Dropped <==> c.deposit.cell.addr in l.spent
  {
    hide StatelessValid, DerivationMatches, Stage, Tame, Accepts, StillCovered, TargetsLive, ReadsHold, Total, PayeesFresh,
      DepositOk, AssetsBacked, WritesLive;
    ValidIsTame(c, p);
    ValidDerives(c, p);
    ValidDeposits(c, p);
    TameRefunds(c);
    AcceptedCovers(l, c, p, owned);
    if c.deposit.cell.addr !in l.spent {
      CheckedReads(l, c, p);
      ReservedFits(l, c, maturity);
      StageOutcome(Reserved(l, c), c.writes);
      if ReadsHold(Reserved(l, c), c.readList) {
        StageNeverOverflows(Reserved(l, c), c, p, maturity);
        LiveByIndex(l, c);
        AcceptedPayees(l, c, p, owned);
        WritesAreLive(l, c, p);
      }
    }
  }

  lemma AcceptedPayees(l: Ledger, c: Certificate, p: Params, owned: seq<Address>)
    requires Accepts(c, l, p, owned)
    ensures PayeesFresh(c.program, l)
  {
  }

  lemma LiveByIndex(l: Ledger, c: Certificate)
    requires Reservable(l, c)
    ensures WritesLive(l, c.writes) <==> forall i :: 0 <= i < |c.writes| ==> c.writes[i].slot.addr !in Reserved(l, c).spent
  {
  }

  // --------------------------------------------- nothing is left for the sweep

  /** The ledger F8b looks at. */
  function BeforeSweep(l: Ledger, c: Certificate): Ledger
    requires Reservable(l, c) && Stage(Reserved(l, c), c.writes).Staged?
  {
    var s := Stage(Reserved(l, c), c.writes);
    CommitSpends(CommitCells(Reserved(l, c), s.cells), s.spend)
  }

  lemma BurnedIsMarked(c: Certificate, p: Params, slot: Slot)
    requires p.Valid() && StatelessValid(c, p)
    requires MustEmpty([], RetiredBy(c.program), c.deposit, slot)
    ensures Marks(c.writes, slot.addr) && IsOneShot(slot.addr)
  {
    hide DerivationMatches, Canonical, Authorized, DepositOk;
    if IsOneShot(c.deposit.cell.addr) && slot == c.deposit.cell {
    } else {
      RetiredIsMarked(c, p, slot);
    }
  }

  lemma RetiredIsMarked(c: Certificate, p: Params, slot: Slot)
    requires DerivationMatches(c, p) && c.program.Retire?
    requires exists i :: 0 <= i < |c.program.addrs| && slot == NativeSlot(c.program.addrs[i])
    ensures Marks(c.writes, slot.addr) && IsOneShot(slot.addr)
  {
    hide DerivationMatches;
    DerivesSomething(c, p);
    var i :| 0 <= i < |c.program.addrs| && slot == NativeSlot(c.program.addrs[i]);
    var w := MarkWrites(c.program.addrs)[i];
    assert w in MarkWrites(c.program.addrs);
    DeclaredWrite(c, p, w);
    var j :| 0 <= j < |c.writes| && c.writes[j] == w;
  }

  /** Under an address the certificate burns, only a source cell is written. */
  lemma BurnedWriteIsSource(c: Certificate, p: Params, w: Write)
    requires p.Valid() && StatelessValid(c, p) && w in c.writes && !w.op.OpMarkSpent? && Marks(c.writes, w.slot.addr)
    ensures IsSource(MovesOf(c.program), w.slot)
  {
    hide DerivationMatches, Canonical, Authorized, DepositOk, Debits;
    assert w.op.OpDeltaSub?;
    ValidDerives(c, p);
    SubIsSource(c, p, w);
  }

  lemma SubIsSource(c: Certificate, p: Params, w: Write)
    requires DerivationMatches(c, p) && w in c.writes && w.op.OpDeltaSub?
    ensures c.program.Transfer? && IsSource(c.program.moves, w.slot)
  {
    hide DerivationMatches, Debits, TransferOk;
    DerivesSomething(c, p);
    DeclaredWrite(c, p, w);
    var moves := c.program.moves;
    SumsAreFit(moves);
    var d, k, m := DeltaWrites(Debits(moves), OpDeltaSub), DeltaWrites(Credits(moves), OpDeltaAdd),
                   MarkWrites(BurnedSources(moves));
    assert w in d + k + m;
    var i :| 0 <= i < |d| && d[i] == w;
    DebitEntryIsSource(moves, i);
  }

  lemma SourceIsDebited(c: Certificate, p: Params, slot: Slot) returns (i: nat)
    requires DerivationMatches(c, p) && IsSource(MovesOf(c.program), slot)
    ensures i < |c.writes| && c.writes[i].slot == slot && c.writes[i].op.OpDeltaSub?
    ensures c.writes[i].value == DebitOf(MovesOf(c.program), slot)
  {
    hide DerivationMatches, Debits;
    DerivesSomething(c, p);
    var moves := c.program.moves;
    var j :| 0 <= j < |moves| && SourceSlot(moves[j]) == slot;
    assert MoveOk(moves[j]);
    var k := SourceHasEntry(moves, j);
    var w := DeltaWrites(Debits(moves), OpDeltaSub)[k];
    assert w in DeriveTransfer(moves).value.writes by {
      assert DeriveTransfer(moves).value.writes[k] == w;
    }
    DeclaredWrite(c, p, w);
    i :| 0 <= i < |c.writes| && c.writes[i] == w;
  }

  lemma SourceIsDrained(l: Ledger, c: Certificate, p: Params, slot: Slot)
    requires Tame(c) && DerivationMatches(c, p) && IsSource(MovesOf(c.program), slot)
    requires Stage(l, c.writes).Staged? && l.Get(slot) == DebitOf(MovesOf(c.program), slot)
    ensures CommitCells(l, Stage(l, c.writes).cells).Get(slot) == 0
  {
    hide DerivationMatches, Stage, CommitCells;
    var i := SourceIsDebited(c, p, slot);
    StageValue(l, c.writes, i);
  }

  lemma UnwrittenCell(l: Ledger, c: Certificate, slot: Slot)
    requires Stage(l, c.writes).Staged?
    requires forall w :: w in c.writes && !w.op.OpMarkSpent? ==> w.slot != slot
    ensures CommitCells(l, Stage(l, c.writes).cells).Get(slot) == l.Get(slot)
  {
    StageFacts(l, c.writes);
    assert slot !in WrittenSlots(c.writes);
    CommitCellsAt(l, Stage(l, c.writes).cells, slot);
  }

  /** A retired cell, or a deposit cell no move debits: the reservation has
      already taken everything and no write reaches it. */
  lemma UndebitedStaysEmpty(l: Ledger, c: Certificate, p: Params, slot: Slot)
    requires p.Valid() && StatelessValid(c, p) && Stage(l, c.writes).Staged?
    requires Marks(c.writes, slot.addr) && !IsSource(MovesOf(c.program), slot) && l.Get(slot) == 0
    ensures CommitCells(l, Stage(l, c.writes).cells).Get(slot) == 0
  {
    hide StatelessValid, Stage, CommitCells, IsSource;
    forall w | w in c.writes && !w.op.OpMarkSpent?
      ensures w.slot != slot
    {
      if w.slot == slot {
        BurnedWriteIsSource(c, p, w);
      }
    }
    UnwrittenCell(l, c, slot);
  }

  /** What an accepted certificate burns by debiting or retiring it holds exactly
      nothing when F8b runs. */
  lemma BurnedCellsAreEmpty(l: Ledger, c: Certificate, p: Params, owned: seq<Address>, slot: Slot)
    requires p.Valid() && StatelessValid(c, p) && Accepts(c, l, p, owned) && Verdict(l, c) == Applied
    requires MustEmpty(MovesOf(c.program), RetiredBy(c.program), c.deposit, slot)
    ensures Reservable(l, c) && Stage(Reserved(l, c), c.writes).Staged?
    ensures BeforeSweep(l, c).Get(slot) == 0
  {
    hide StatelessValid, DerivationMatches, Stage, Tame, StillCovered, DepositOk, CommitCells, CommitSpends, IsSource,
      DebitOf, Verdict, AcceptsBar, Covered, Marks;
    VerdictNeeds(l, c);
    ValidDerives(c, p);
    ValidDeposits(c, p);
    ValidIsTame(c, p);
    AcceptedCovers(l, c, p, owned);
    CoveredAt(l, c, slot);
    AcceptedSweeps(l, c, p, owned, slot);
    var r := Reserved(l, c);
    CommitSpendsIs(CommitCells(r, Stage(r, c.writes).cells), Stage(r, c.writes).spend);
    if IsSource(MovesOf(c.program), slot) {
      OnlyOneShotsEmpty(c, p, slot);
      SourceIsDrained(r, c, p, slot);
    } else {
      BurnedIsMarked(c, p, slot);
      NotASource(MovesOf(c.program), slot);
      UndebitedStaysEmpty(r, c, p, slot);
    }
  }

  lemma AcceptedSweeps(l: Ledger, c: Certificate, p: Params, owned: seq<Address>, slot: Slot)
    requires Accepts(c, l, p, owned) && MustEmpty(MovesOf(c.program), RetiredBy(c.program), c.deposit, slot)
    ensures Leaving(MovesOf(c.program), c.deposit, FeeCeiling(c, p).value, slot) == l.Get(slot)
  {
    hide FeeCeiling, MustEmpty, Leaving, Covered, RefundUsable, PayeesFresh, ResidualComesHome;
  }

  lemma OnlyOneShotsEmpty(c: Certificate, p: Params, slot: Slot)
    requires p.Valid() && StatelessValid(c, p)
    requires MustEmpty(MovesOf(c.program), RetiredBy(c.program), c.deposit, slot)
    ensures IsOneShot(slot.addr)
  {
    hide StatelessValid;
    if MustEmpty([], RetiredBy(c.program), c.deposit, slot) {
      BurnedIsMarked(c, p, slot);
    }
  }

  /** In every reachable state the soundness the pre-check rests on is there: no
      hypothesis about the state remains but that the issued coin fits. */
  lemma CheckedOnEveryRun(run: seq<Step>, p: Params, c: Certificate, id: Hash, owned: seq<Address>, seqBase: u256, parBase: u256)
    requires p.Valid() && IsRun(run, p) && |run| <= TWO64 && IssuedBefore(p, |run|) < TWO256
    requires StatelessValid(c, p) && Accepts(c, StateAt(run, |run|), p, owned)
    requires c.feeBid.seqMax >= seqBase && c.feeBid.parMax >= parBase
    ensures
      var l := StateAt(run, |run|);
      var r := ApplyCertificate(l, c, id, p, seqBase, parBase, 0);
      && r.CertSettled?
      && (r.out.outcome == Applied <==> Spendable(l, c))
      && (r.out.outcome == Dropped <==> c.deposit.cell.addr in l.spent)
  {
    hide StatelessValid, Accepts, ApplyCertificate, Total, AssetsBacked, OneShotsOnly, Spendable;
    RunIsSound(run, p, |run|);
    SoundOneShots(StateAt(run, |run|), p, |run|);
    RunIsBacked(run, p, |run|);
    RunConserves(run, p, |run|);
    CheckedMeansApplied(StateAt(run, |run|), c, id, p, owned, seqBase, parBase, 0, p.coinbaseMaturity);
  }

  lemma SoundOneShots(l: Ledger, p: Params, h: nat)
    requires Sound(l, p, h)
    ensures OneShotsOnly(l)
  {
  }
}
