/** What a certificate does to every cell and to the registry, in the terms of its
    program: moves, mints, issues and retirements rather than derived writes.  One
    formula covers every slot and every outcome; a sound state is all it needs. */
module Effects {
  import opened U256
  import opened Types
  import opened Validity
  import opened Ledgers
  import opened Seqs
  import opened Fold
  import opened Derivation
  import opened CertLaws
  import opened AssetLaws
  import opened BlockFrames
  import opened NoOverflow
  import opened Solvency
  import opened Verdicts
  import opened Wallet
  import opened WalletLaws
  import opened Sweeps
  import opened Billing

  // ----------------------------------------------------- the program's meaning

  function PayeeSlot(m: Move): Slot {
    BalanceSlot(m.dst, m.asset)
  }

  /** What the moves bring into one cell. */
  function CreditOf(moves: seq<Move>, slot: Slot): nat {
    if moves == [] then 0
    else CreditOf(moves[..|moves| - 1], slot)
         + if PayeeSlot(moves[|moves| - 1]) == slot then moves[|moves| - 1].amount else 0
  }

  predicate IsPayee(moves: seq<Move>, slot: Slot) {
    exists i :: 0 <= i < |moves| && PayeeSlot(moves[i]) == slot
  }

  /** The value a cell holding v has once the program has run. */
  function Programmed(c: Certificate, p: Params, slot: Slot, v: int): int {
    match c.program
    case Transfer(moves) => v - DebitOf(moves, slot) + CreditOf(moves, slot)
    case Mint(asset, dst, amount, _, _) =>
      v + if slot == MintedSlot(asset) || slot == BalanceSlot(dst, asset) then amount else 0
    case Issue(issuer, cap, symbol, minter, decimals) =>
      if slot.addr != p.DeriveAssetAddress(issuer, c.seqNo, c.chainId) then v
      else if slot.word == AssetCap then cap
      else if slot.word == AssetDecimals then decimals
      else if slot.word == AssetSymbol then symbol
      else if slot.word == AssetMinter then minter
      else v
    case Retire(_) => v
  }

  /** The addresses the certificate burns: one-shot sources, retired addresses, and
      a one-shot deposit address. */
  ghost function Burns(c: Certificate): set<Address> {
    (set m | m in MovesOf(c.program) && IsOneShot(m.src) :: m.src)
    + (set a | a in RetiredBy(c.program))
    + if IsOneShot(c.deposit.cell.addr) then {c.deposit.cell.addr} else {}
  }

  // ---------------------------------------------------- credits, like debits

  lemma {:induction false} CreditsAt(moves: seq<Move>, slot: Slot)
    ensures SumAt(Credits(moves), slot) == CreditOf(moves, slot)
  {
    if moves != [] {
      var n := |moves| - 1;
      CreditsAt(moves[..n], slot);
      AddSumAt(Credits(moves[..n]), PayeeSlot(moves[n]), moves[n].amount, slot);
    }
  }

  lemma {:induction false} CreditsDistinct(moves: seq<Move>)
    ensures DistinctSums(Credits(moves))
  {
    if moves != [] {
      var n := |moves| - 1;
      CreditsDistinct(moves[..n]);
      AddSumDistinct(Credits(moves[..n]), PayeeSlot(moves[n]), moves[n].amount);
    }
  }

  lemma {:induction false} NotAPayee(moves: seq<Move>, slot: Slot)
    requires !IsPayee(moves, slot)
    ensures CreditOf(moves, slot) == 0
  {
    if moves != [] {
      var n := |moves| - 1;
      assert forall i :: 0 <= i < n ==> moves[..n][i] == moves[i];
      NotAPayee(moves[..n], slot);
    }
  }

  lemma {:induction false} CreditOfGrows(moves: seq<Move>, i: nat)
    requires i < |moves| && moves[i].amount > 0
    ensures CreditOf(moves, PayeeSlot(moves[i])) > 0
  {
    var n := |moves| - 1;
    if i < n {
      CreditOfGrows(moves[..n], i);
    }
  }

  lemma PayeeHasEntry(moves: seq<Move>, i: nat) returns (k: nat)
    requires i < |moves| && moves[i].amount > 0
    ensures k < |Credits(moves)| && Credits(moves)[k].slot == PayeeSlot(moves[i])
    ensures Credits(moves)[k].total == CreditOf(moves, PayeeSlot(moves[i]))
  {
    var slot := PayeeSlot(moves[i]);
    CreditOfGrows(moves, i);
    CreditsAt(moves, slot);
    if forall j :: 0 <= j < |Credits(moves)| ==> Credits(moves)[j].slot != slot {
      SumAtAbsent(Credits(moves), slot);
    }
    k :| 0 <= k < |Credits(moves)| && Credits(moves)[k].slot == slot;
    CreditsDistinct(moves);
    SumAtEntry(Credits(moves), k);
  }

  lemma PayeeIsCredited(c: Certificate, p: Params, slot: Slot) returns (i: nat)
    requires DerivationMatches(c, p) && IsPayee(MovesOf(c.program), slot)
    ensures i < |c.writes| && c.writes[i].slot == slot && c.writes[i].op.OpDeltaAdd?
    ensures c.writes[i].value == CreditOf(MovesOf(c.program), slot)
  {
    hide DerivationMatches, Debits, Credits;
    DerivesSomething(c, p);
    var moves := c.program.moves;
    var j :| 0 <= j < |moves| && PayeeSlot(moves[j]) == slot;
    assert MoveOk(moves[j]);
    var k := PayeeHasEntry(moves, j);
    var w := DeltaWrites(Credits(moves), OpDeltaAdd)[k];
    assert w in DeriveTransfer(moves).value.writes by {
      assert DeriveTransfer(moves).value.writes[|Debits(moves)| + k] == w;
    }
    DeclaredWrite(c, p, w);
    i :| 0 <= i < |c.writes| && c.writes[i] == w;
  }

  /** No cell is both a source and a payee. */
  lemma SourceIsNoPayee(moves: seq<Move>, slot: Slot)
    requires TransferOk(moves) && IsSource(moves, slot)
    ensures !IsPayee(moves, slot)
  {
    hide Debits, Credits;
    var i :| 0 <= i < |moves| && SourceSlot(moves[i]) == slot;
    assert MoveOk(moves[i]);
    var k := SourceHasEntry(moves, i);
    forall j | 0 <= j < |moves|
      ensures PayeeSlot(moves[j]) != slot
    {
      assert MoveOk(moves[j]);
      var n := PayeeHasEntry(moves, j);
    }
  }

  lemma TransferWrites(c: Certificate, p: Params, w: Write)
    requires DerivationMatches(c, p) && c.program.Transfer? && w in c.writes && !w.op.OpMarkSpent?
    ensures IsSource(c.program.moves, w.slot) || IsPayee(c.program.moves, w.slot)
  {
    hide DerivationMatches, Debits, Credits, TransferOk;
    DerivesSomething(c, p);
    DeclaredWrite(c, p, w);
    var moves := c.program.moves;
    SumsAreFit(moves);
    var d, k, m := DeltaWrites(Debits(moves), OpDeltaSub), DeltaWrites(Credits(moves), OpDeltaAdd),
                   MarkWrites(BurnedSources(moves));
    assert w in d + k + m;
    if w in d {
      var i :| 0 <= i < |d| && d[i] == w;
      DebitEntryIsSource(moves, i);
    } else {
      var i :| 0 <= i < |k| && k[i] == w;
      CreditIsPayee(moves, i);
      var j :| 0 <= j < |moves| && BalanceSlot(moves[j].dst, moves[j].asset) == w.slot;
      assert PayeeSlot(moves[j]) == w.slot;
    }
  }

  // ------------------------------------------------------ committing a program

  lemma TransferCommits(l: Ledger, c: Certificate, p: Params, slot: Slot)
    requires Tame(c) && DerivationMatches(c, p) && c.program.Transfer? && Stage(l, c.writes).Staged?
    ensures CommitCells(l, Stage(l, c.writes).cells).Get(slot) == Programmed(c, p, slot, l.Get(slot))
  {
    hide DerivationMatches, Stage, CommitCells, TransferOk, DebitOf, CreditOf, Tame, IsSource, IsPayee;
    var moves := c.program.moves;
    DerivesSomething(c, p);
    TameDistinct(c);
    if IsSource(moves, slot) {
      SourceIsNoPayee(moves, slot);
      NotAPayee(moves, slot);
      var i := SourceIsDebited(c, p, slot);
      StageValue(l, c.writes, i);
    } else if IsPayee(moves, slot) {
      NotASource(moves, slot);
      var i := PayeeIsCredited(c, p, slot);
      StageValue(l, c.writes, i);
    } else {
      NotASource(moves, slot);
      NotAPayee(moves, slot);
      forall w | w in c.writes && !w.op.OpMarkSpent?
        ensures w.slot != slot
      {
        TransferWrites(c, p, w);
      }
      UnwrittenCell(l, c, slot);
    }
  }

  lemma WriteCommits(l: Ledger, c: Certificate, w: Write)
    requires Tame(c) && Stage(l, c.writes).Staged? && w in c.writes && !w.op.OpMarkSpent?
    ensures CommitCells(l, Stage(l, c.writes).cells).Get(w.slot) == StagedValue(l, w)
  {
    hide Stage, CommitCells;
    var i :| 0 <= i < |c.writes| && c.writes[i] == w;
    StageValue(l, c.writes, i);
  }

  lemma MintCommits(l: Ledger, c: Certificate, p: Params, slot: Slot)
    requires Tame(c) && DerivationMatches(c, p) && c.program.Mint? && Stage(l, c.writes).Staged?
    ensures CommitCells(l, Stage(l, c.writes).cells).Get(slot) == Programmed(c, p, slot, l.Get(slot))
  {
    hide DerivationMatches, Stage, CommitCells, Tame;
    var g := c.program;
    MintDeclares(c, p);
    if slot == MintedSlot(g.asset) || slot == BalanceSlot(g.dst, g.asset) {
      WriteCommits(l, c, Write(slot, OpDeltaAdd, g.amount));
    } else {
      forall w | w in c.writes && !w.op.OpMarkSpent?
        ensures w.slot != slot
      {
        MintWrites(c, p, w);
      }
      UnwrittenCell(l, c, slot);
    }
  }

  lemma IssueCommits(l: Ledger, c: Certificate, p: Params, slot: Slot)
    requires Tame(c) && DerivationMatches(c, p) && c.program.Issue? && Stage(l, c.writes).Staged?
    ensures CommitCells(l, Stage(l, c.writes).cells).Get(slot) == Programmed(c, p, slot, l.Get(slot))
  {
    hide DerivationMatches, Stage, CommitCells, Tame;
    DerivesSomething(c, p);
    var g := c.program;
    var asset := p.DeriveAssetAddress(g.issuer, c.seqNo, c.chainId);
    var ws := DeriveIssue(g, asset).value.writes;
    forall i | 0 <= i < 4
      ensures ws[i] in c.writes && !ws[i].op.OpMarkSpent?
    {
      assert ws[i] in ws;
      DeclaredWrite(c, p, ws[i]);
    }
    if slot.addr == asset && slot.word == AssetCap {
      WriteCommits(l, c, ws[0]);
    } else if slot.addr == asset && slot.word == AssetDecimals {
      WriteCommits(l, c, ws[1]);
    } else if slot.addr == asset && slot.word == AssetSymbol {
      WriteCommits(l, c, ws[2]);
    } else if slot.addr == asset && slot.word == AssetMinter {
      WriteCommits(l, c, ws[3]);
    } else {
      forall w | w in c.writes && !w.op.OpMarkSpent?
        ensures w.slot != slot
      {
        DeclaredWrite(c, p, w);
      }
      UnwrittenCell(l, c, slot);
    }
  }

  lemma RetireCommits(l: Ledger, c: Certificate, p: Params, slot: Slot)
    requires Tame(c) && DerivationMatches(c, p) && c.program.Retire? && Stage(l, c.writes).Staged?
    ensures CommitCells(l, Stage(l, c.writes).cells).Get(slot) == l.Get(slot)
  {
    hide DerivationMatches, Stage, CommitCells, Tame;
    DerivesSomething(c, p);
    forall w | w in c.writes
      ensures w.op.OpMarkSpent?
    {
      DeclaredWrite(c, p, w);
    }
    UnwrittenCell(l, c, slot);
  }

  /** Committing the declared writes runs the program. */
  lemma CommitRuns(l: Ledger, c: Certificate, p: Params, slot: Slot)
    requires Tame(c) && DerivationMatches(c, p) && Stage(l, c.writes).Staged?
    ensures CommitCells(l, Stage(l, c.writes).cells).Get(slot) == Programmed(c, p, slot, l.Get(slot))
  {
    hide DerivationMatches, Stage, CommitCells, Tame;
    match c.program {
      case Transfer(_) => TransferCommits(l, c, p, slot);
      case Mint(_, _, _, _, _) => MintCommits(l, c, p, slot);
      case Issue(_, _, _, _, _) => IssueCommits(l, c, p, slot);
      case Retire(_) => RetireCommits(l, c, p, slot);
    }
  }

  // ----------------------------------------------------------- what is burned

  lemma {:induction false} BurnedSourcesAre(moves: seq<Move>, a: Address)
    ensures a in BurnedSources(moves) <==> exists m :: m in moves && IsOneShot(m.src) && m.src == a
  {
    if moves != [] {
      var n := |moves| - 1;
      BurnedSourcesAre(moves[..n], a);
      assert moves == moves[..n] + [moves[n]];
      assert forall m :: m in moves <==> m in moves[..n] || m == moves[n];
    }
  }

  lemma MarkWritesHold(addrs: seq<Address>, a: Address)
    ensures Write(Slot(a, SpentWord), OpMarkSpent, 0) in MarkWrites(addrs) <==> a in addrs
  {
    var ws := MarkWrites(addrs);
    if a in addrs {
      var i :| 0 <= i < |addrs| && addrs[i] == a;
      assert ws[i] in ws;
    }
  }

  /** The marks a program derives. */
  lemma DerivedMarks(c: Certificate, p: Params, a: Address)
    requires Derive(c.program, p, c.chainId, c.seqNo).Some?
    ensures Write(Slot(a, SpentWord), OpMarkSpent, 0) in Derive(c.program, p, c.chainId, c.seqNo).value.writes <==>
              || (exists m :: m in MovesOf(c.program) && IsOneShot(m.src) && m.src == a)
              || a in RetiredBy(c.program)
  {
    var w := Write(Slot(a, SpentWord), OpMarkSpent, 0);
    match c.program {
      case Transfer(moves) => TransferMarks(moves, a);
      case Retire(addrs) => MarkWritesHold(addrs, a);
      case _ =>
    }
  }

  lemma TransferMarks(moves: seq<Move>, a: Address)
    requires DeriveTransfer(moves).Some?
    ensures Write(Slot(a, SpentWord), OpMarkSpent, 0) in DeriveTransfer(moves).value.writes <==>
              exists m :: m in moves && IsOneShot(m.src) && m.src == a
  {
    hide TransferOk, Debits, Credits;
    SumsAreFit(moves);
    var d, k, m := DeltaWrites(Debits(moves), OpDeltaSub), DeltaWrites(Credits(moves), OpDeltaAdd),
                   MarkWrites(BurnedSources(moves));
    var w := Write(Slot(a, SpentWord), OpMarkSpent, 0);
    assert w !in d && w !in k;
    assert w in d + k + m <==> w in m;
    MarkWritesHold(BurnedSources(moves), a);
    BurnedSourcesAre(moves, a);
  }

  lemma MarksAt(c: Certificate, p: Params, a: Address)
    requires DerivationMatches(c, p)
    ensures a in MarkedAddrs(c.writes) <==> Write(Slot(a, SpentWord), OpMarkSpent, 0) in DeriveCert(c, p).value.writes
  {
    hide Derive;
    var w := Write(Slot(a, SpentWord), OpMarkSpent, 0);
    EqualBagsEqualMembers(c.writes, DeriveCert(c, p).value.writes, w);
    if a in MarkedAddrs(c.writes) {
      var x :| x in c.writes && x.op.OpMarkSpent? && x.slot.addr == a;
      MarkIs(c, p, x);
    } else {
      assert w.op.OpMarkSpent?;
    }
  }

  lemma DerivedMarkIs(c: Certificate, p: Params, x: Write)
    requires Derive(c.program, p, c.chainId, c.seqNo).Some?
    requires x in Derive(c.program, p, c.chainId, c.seqNo).value.writes && x.op.OpMarkSpent?
    ensures x == Write(Slot(x.slot.addr, SpentWord), OpMarkSpent, 0)
  {
    hide TransferOk, Debits, Credits;
    if c.program.Transfer? {
      var moves := c.program.moves;
      SumsAreFit(moves);
      var d, k, m := DeltaWrites(Debits(moves), OpDeltaSub), DeltaWrites(Credits(moves), OpDeltaAdd),
                     MarkWrites(BurnedSources(moves));
      assert x in d + k + m;
    }
  }

  lemma MarkIs(c: Certificate, p: Params, x: Write)
    requires DerivationMatches(c, p) && x in c.writes && x.op.OpMarkSpent?
    ensures x == Write(Slot(x.slot.addr, SpentWord), OpMarkSpent, 0)
  {
    hide DerivationMatches, Derive;
    DerivesSomething(c, p);
    DeclaredWrite(c, p, x);
    if x in Derive(c.program, p, c.chainId, c.seqNo).value.writes {
      DerivedMarkIs(c, p, x);
    }
  }

  /** The declared marks are what the program and the deposit burn. */
  lemma MarksAre(c: Certificate, p: Params)
    requires DerivationMatches(c, p)
    ensures MarkedAddrs(c.writes) == Burns(c)
  {
    hide DerivationMatches, MarkedAddrs, Derive;
    DerivesSomething(c, p);
    forall a: Address
      ensures a in MarkedAddrs(c.writes) <==> a in Burns(c)
    {
      MarksAt(c, p, a);
      DerivedMarks(c, p, a);
      forall w | w in Derive(c.program, p, c.chainId, c.seqNo).value.writes && w.op.OpMarkSpent?
        ensures w == Write(Slot(w.slot.addr, SpentWord), OpMarkSpent, 0)
      {
        DerivedMarkIs(c, p, w);
      }
      DepositMark(Derive(c.program, p, c.chainId, c.seqNo).value.writes, c.deposit.cell.addr, a);
      CertDerives(c, p);
    }
  }

  lemma CertDerives(c: Certificate, p: Params)
    requires Derive(c.program, p, c.chainId, c.seqNo).Some?
    ensures DeriveCert(c, p).value.writes ==
            WithDepositMark(Derive(c.program, p, c.chainId, c.seqNo).value.writes, c.deposit.cell.addr)
  {
  }

  lemma DepositMark(ws: seq<Write>, deposit: Address, a: Address)
    requires forall w :: w in ws && w.op.OpMarkSpent? ==> w == Write(Slot(w.slot.addr, SpentWord), OpMarkSpent, 0)
    ensures
      var w := Write(Slot(a, SpentWord), OpMarkSpent, 0);
      w in WithDepositMark(ws, deposit) <==> w in ws || (IsOneShot(deposit) && a == deposit)
  {
    var w := Write(Slot(a, SpentWord), OpMarkSpent, 0);
    if Marks(ws, deposit) {
      var i :| 0 <= i < |ws| && ws[i].op.OpMarkSpent? && ws[i].slot.addr == deposit;
      assert ws[i] in ws;
    } else {
      MarkWritesHold([deposit], a);
      assert w in ws + MarkWrites([deposit]) <==> w in ws || w in MarkWrites([deposit]);
    }
  }

  // --------------------------------------------------------- the whole effect

  /** A cell emptied when its address is burned: the native balance, and every
      balance the moves take from. */
  ghost predicate Emptied(c: Certificate, slot: Slot) {
    slot.addr in Burns(c) && (slot.word == Balance(NATIVE_ASSET) || IsSource(MovesOf(c.program), slot))
  }

  lemma EmptiedIsSwept(c: Certificate, p: Params, slot: Slot)
    requires p.Valid() && StatelessValid(c, p)
    ensures Emptied(c, slot) <==> slot.addr in MarkedAddrs(c.writes) && SweepsCell(c, slot)
  {
    hide StatelessValid, DerivationMatches, MarkedAddrs, IsSource, Burns;
    ValidDerives(c, p);
    MarksAre(c, p);
    if slot.addr in MarkedAddrs(c.writes) && slot.word != Balance(NATIVE_ASSET) {
      if IsSource(MovesOf(c.program), slot) {
        var i := SourceIsDebited(c, p, slot);
        assert SweepsAlso(c.writes[i], slot.addr);
      }
      if SweepsCell(c, slot) {
        var k :| 0 <= k < |c.writes| && SweepsAlso(c.writes[k], slot.addr) && c.writes[k].slot.word == slot.word;
        MarkedMarks(c, slot.addr);
        BurnedWriteIsSource(c, p, c.writes[k]);
      }
    }
  }

  lemma MarkedMarks(c: Certificate, a: Address)
    ensures a in MarkedAddrs(c.writes) <==> Marks(c.writes, a)
    ensures a in MarkedAddrs(c.writes) <==> MarkedIn(c, |c.writes|, a)
  {
    if a in MarkedAddrs(c.writes) {
      var w :| w in c.writes && w.op.OpMarkSpent? && w.slot.addr == a;
      var i :| 0 <= i < |c.writes| && c.writes[i] == w;
    }
  }

  /** A cell once the deposit is reserved and the program has run. */
  function Ran(l: Ledger, c: Certificate, p: Params, slot: Slot): int {
    Programmed(c, p, slot, l.Get(slot) - if slot == c.deposit.cell then c.deposit.amount else 0)
  }

  function RanAt(l: Ledger, c: Certificate, p: Params, word: Word): Address -> int {
    (a: Address) => Ran(l, c, p, Slot(a, word))
  }

  /** What these addresses hold of one word at that point. */
  ghost function Residues(l: Ledger, c: Certificate, p: Params, addrs: set<Address>, word: Word): int {
    SumBy(addrs, RanAt(l, c, p, word))
  }

  ghost function NativeResidues(l: Ledger, c: Certificate, p: Params): int {
    Residues(l, c, p, Holders(c, Balance(NATIVE_ASSET)), Balance(NATIVE_ASSET))
  }

  /** The burned addresses whose cell of this word is emptied. */
  ghost function Holders(c: Certificate, word: Word): set<Address> {
    set a | a in Burns(c) && Emptied(c, Slot(a, word))
  }

  /** Those burned by the first n writes. */
  ghost function HoldersIn(c: Certificate, n: nat, word: Word): set<Address>
    requires n <= |c.writes|
  {
    set a | a in MarkedAddrs(c.writes) && MarkedIn(c, n, a) && SweepsCell(c, Slot(a, word))
  }

  lemma {:induction false} IncomingIs(l: Ledger, c: Certificate, n: nat, word: Word, value: Address -> int)
    requires n <= |c.writes| && Tame(c)
    requires forall a :: a in MarkedAddrs(c.writes) ==> l.Get(Slot(a, word)) == value(a)
    ensures Incoming(l, c, n, word) == SumBy(HoldersIn(c, n, word), value)
  {
    hide Tame, MarkedIn, SweepsCell, MarkedAddrs;
    if n == 0 {
      forall a: Address {
        NothingMarked(c, a);
      }
      assert HoldersIn(c, 0, word) == {};
    } else {
      IncomingIs(l, c, n - 1, word, value);
      HoldersStep(c, n - 1, word);
      var w := c.writes[n - 1];
      if w.op.OpMarkSpent? && SweepsCell(c, Slot(w.slot.addr, word)) {
        SumByAdd(HoldersIn(c, n - 1, word), value, w.slot.addr);
      }
    }
  }

  lemma HoldersStep(c: Certificate, n: nat, word: Word)
    requires n < |c.writes| && Tame(c)
    ensures
      var w := c.writes[n];
      if w.op.OpMarkSpent? && SweepsCell(c, Slot(w.slot.addr, word)) then
        && w.slot.addr in MarkedAddrs(c.writes) && w.slot.addr !in HoldersIn(c, n, word)
        && HoldersIn(c, n + 1, word) == HoldersIn(c, n, word) + {w.slot.addr}
      else HoldersIn(c, n + 1, word) == HoldersIn(c, n, word)
  {
    hide Tame, MarkedIn, SweepsCell;
    var w := c.writes[n];
    assert w in c.writes;
    forall a: Address {
      MarkedStep(c, n, a);
    }
  }

  lemma HoldersAre(c: Certificate, p: Params, word: Word)
    requires p.Valid() && StatelessValid(c, p)
    ensures HoldersIn(c, |c.writes|, word) == Holders(c, word)
  {
    hide StatelessValid, MarkedAddrs, Burns, MarkedIn, SweepsCell;
    ValidDerives(c, p);
    MarksAre(c, p);
    forall a: Address
      ensures a in HoldersIn(c, |c.writes|, word) <==> a in Holders(c, word)
    {
      MarkedMarks(c, a);
      EmptiedIsSwept(c, p, Slot(a, word));
    }
  }

  /** The ledger settlement finds, when the program ran. */
  ghost predicate Swept(l: Ledger, c: Certificate, p: Params, at: Ledger, slot: Slot) {
    at.Get(slot) ==
    if c.deposit.refundTo.addr in l.spent then Ran(l, c, p, slot)
    else if slot.addr == c.deposit.refundTo.addr then
      Ran(l, c, p, slot) + Residues(l, c, p, Holders(c, slot.word), slot.word)
    else if Emptied(c, slot) then 0
    else Ran(l, c, p, slot)
  }

  lemma RanIs(l: Ledger, c: Certificate, p: Params, slot: Slot)
    requires Reservable(l, c) && Tame(c) && DerivationMatches(c, p) && Stage(Reserved(l, c), c.writes).Staged?
    ensures
      var s := Stage(Reserved(l, c), c.writes);
      CommitSpends(CommitCells(Reserved(l, c), s.cells), s.spend).Get(slot) == Ran(l, c, p, slot)
  {
    hide DerivationMatches, Stage, CommitCells, Tame, Programmed, CommitSpends;
    var r := Reserved(l, c);
    var s := Stage(r, c.writes);
    CommitRuns(r, c, p, slot);
    CommitSpendsIs(CommitCells(r, s.cells), s.spend);
  }

  lemma RegistryGrows(l: Ledger, c: Certificate, p: Params)
    requires Reservable(l, c) && Tame(c) && DerivationMatches(c, p) && Stage(Reserved(l, c), c.writes).Staged?
    ensures
      var s := Stage(Reserved(l, c), c.writes);
      && CommitSpends(CommitCells(Reserved(l, c), s.cells), s.spend).spent == l.spent + Burns(c)
      && SweptLedger(Reserved(l, c), c, s.cells, s.spend).spent == l.spent + Burns(c)
  {
    hide DerivationMatches, Stage, CommitCells, Tame, CommitSpends, SweepBurned, Burns;
    var r := Reserved(l, c);
    var s := Stage(r, c.writes);
    MarksAre(c, p);
    StageFacts(r, c.writes);
    CommitCellsAt(r, s.cells, c.deposit.cell);
    CommitSpendsIs(CommitCells(r, s.cells), s.spend);
    SweepFacts(CommitSpends(CommitCells(r, s.cells), s.spend), c, |c.writes|, c.deposit.cell);
  }

  lemma SweptMeans(l: Ledger, c: Certificate, p: Params, maturity: nat, slot: Slot)
    requires p.Valid() && StatelessValid(c, p) && PoolsFit(l, maturity) && Verdict(l, c) == Applied
    ensures Reservable(l, c) && Stage(Reserved(l, c), c.writes).Staged?
    ensures
      var s := Stage(Reserved(l, c), c.writes);
      Swept(l, c, p, SweptLedger(Reserved(l, c), c, s.cells, s.spend), slot)
  {
    hide StatelessValid, PoolsFit, Verdict, DerivationMatches, Stage, Tame, CommitCells, CommitSpends, SweepBurned,
      Ran, Burns, Emptied, Holders, MarkedIn, SweepsCell, MarkedAddrs, RoomEverywhere, ReadsHold, DepositOk;
    VerdictNeeds(l, c);
    ValidIsTame(c, p);
    ValidDerives(c, p);
    ValidDeposits(c, p);
    RefundUnmarked(c, p);
    MarksAre(c, p);
    var r := Reserved(l, c);
    var s := Stage(r, c.writes);
    var l2 := CommitSpends(CommitCells(r, s.cells), s.spend);
    RegistryGrows(l, c, p);
    RanIs(l, c, p, slot);
    if c.deposit.refundTo.addr in l.spent {
      NothingSwept(l2, c, |c.writes|);
    } else {
      ReservedFits(l, c, maturity);
      CommittedHasRoom(r, c, p, maturity);
      SweepMeans(l2, c, |c.writes|, maturity, slot);
      EmptiedIsSwept(c, p, slot);
      MarkedMarks(c, slot.addr);
      forall a | a in MarkedAddrs(c.writes)
        ensures l2.Get(Slot(a, slot.word)) == RanAt(l, c, p, slot.word)(a)
      {
        RanIs(l, c, p, Slot(a, slot.word));
      }
      IncomingIs(l2, c, |c.writes|, slot.word, RanAt(l, c, p, slot.word));
      HoldersAre(c, p, slot.word);
    }
  }

  /** What comes back to one cell: the rest of the deposit, to a live refund cell. */
  function Back(l: Ledger, c: Certificate, charged: u256, slot: Slot): int {
    if c.deposit.refundTo.addr !in l.spent && slot == c.deposit.refundTo then Due(c, charged) else 0
  }

  /** What one certificate did, from its outcome: the whole ledger after it. */
  ghost predicate Effected(l: Ledger, c: Certificate, p: Params, out: CertOutcome, after: Ledger) {
    var live := c.deposit.refundTo.addr !in l.spent;
    match out.outcome
    case Dropped => after == l
    case Applied =>
      && after.spent == l.spent + Burns(c)
      && out.swept == (if live then NativeResidues(l, c, p) else 0)
      && out.sweptStranded == (if live then 0 else Saturated(NativeResidues(l, c, p)))
      && forall slot :: after.Get(slot) ==
           if live && slot.addr == c.deposit.refundTo.addr then
             Ran(l, c, p, slot) + Residues(l, c, p, Holders(c, slot.word), slot.word) + Back(l, c, out.charged, slot)
           else if live && Emptied(c, slot) then 0
           else Ran(l, c, p, slot)
    case _ =>
      && after.spent == l.spent && out.swept == 0 && out.sweptStranded == 0
      && forall slot :: after.Get(slot) ==
           l.Get(slot) - (if slot == c.deposit.cell then c.deposit.amount else 0) + Back(l, c, out.charged, slot)
  }

  /** The reported sweep, from the ledger it ran on. */
  lemma SweptReported(l: Ledger, c: Certificate, id: Hash, p: Params, seqBase: u256, parBase: u256, burned: u256)
    requires Reservable(l, c)
    ensures
      var r := ApplyCertificate(l, c, id, p, seqBase, parBase, burned);
      var s := Stage(Reserved(l, c), c.writes);
      r.CertSettled? ==>
        if r.out.outcome != Applied || s.NotStaged? then r.out.swept == 0 && r.out.sweptStranded == 0
        else
          var sweep := SweepBurned(CommitSpends(CommitCells(Reserved(l, c), s.cells), s.spend), c, |c.writes|);
          r.out.swept == sweep.swept && r.out.sweptStranded == sweep.stranded
  {
    hide ReadsHold, Stage, Fees, SweepBurned, CommitCells, CommitSpends;
    StageOutcome(Reserved(l, c), c.writes);
  }

  lemma SweptAmount(l: Ledger, c: Certificate, p: Params, maturity: nat)
    requires p.Valid() && StatelessValid(c, p) && PoolsFit(l, maturity) && Verdict(l, c) == Applied
    ensures Reservable(l, c) && Stage(Reserved(l, c), c.writes).Staged?
    ensures
      var s := Stage(Reserved(l, c), c.writes);
      var sweep := SweepBurned(CommitSpends(CommitCells(Reserved(l, c), s.cells), s.spend), c, |c.writes|);
      var live := c.deposit.refundTo.addr !in l.spent;
      && sweep.swept == (if live then NativeResidues(l, c, p) else 0)
      && sweep.stranded == (if live then 0 else Saturated(NativeResidues(l, c, p)))
  {
    hide StatelessValid, PoolsFit, Verdict, DerivationMatches, Stage, Tame, CommitCells, CommitSpends, SweepBurned,
      Ran, Burns, Emptied, Holders, MarkedIn, SweepsCell, MarkedAddrs, RoomEverywhere, ReadsHold, DepositOk;
    VerdictNeeds(l, c);
    ValidIsTame(c, p);
    ValidDerives(c, p);
    ValidDeposits(c, p);
    RefundUnmarked(c, p);
    MarksAre(c, p);
    var r := Reserved(l, c);
    var s := Stage(r, c.writes);
    var l2 := CommitSpends(CommitCells(r, s.cells), s.spend);
    var word := Balance(NATIVE_ASSET);
    RegistryGrows(l, c, p);
    forall a | a in MarkedAddrs(c.writes)
      ensures l2.Get(Slot(a, word)) == RanAt(l, c, p, word)(a)
    {
      RanIs(l, c, p, Slot(a, word));
    }
    IncomingIs(l2, c, |c.writes|, word, RanAt(l, c, p, word));
    HoldersAre(c, p, word);
    if c.deposit.refundTo.addr in l.spent {
      NothingSwept(l2, c, |c.writes|);
    } else {
      ReservedFits(l, c, maturity);
      CommittedHasRoom(r, c, p, maturity);
      SweepStrandsNothing(l2, c, |c.writes|, maturity);
      SweptIs(l2, c, |c.writes|, maturity);
    }
  }

  lemma AppliedEffect(l: Ledger, c: Certificate, id: Hash, p: Params, seqBase: u256, parBase: u256, burned: u256, maturity: nat)
    requires p.Valid() && StatelessValid(c, p) && PoolsFit(l, maturity) && Verdict(l, c) == Applied
    ensures
      var r := ApplyCertificate(l, c, id, p, seqBase, parBase, burned);
      r.CertSettled? && r.out.outcome == Applied ==> Effected(l, c, p, r.out, r.ledger)
  {
    hide StatelessValid, PoolsFit, Verdict, DerivationMatches, Stage, ApplyCertificate, SweptLedger, SweepBurned, Tame,
      Ran, Burns, Emptied, Holders, Residues, Reserved, MarkedAddrs, DepositOk, Reservable, CommitCells, CommitSpends,
      BaseFees, Tips;
    var r := ApplyCertificate(l, c, id, p, seqBase, parBase, burned);
    var live := c.deposit.refundTo.addr !in l.spent;
    if r.CertSettled? && r.out.outcome == Applied {
      CertBilled(l, c, id, p, seqBase, parBase, burned);
      VerdictNeeds(l, c);
      ValidIsTame(c, p);
      ValidDerives(c, p);
      ValidDeposits(c, p);
      RefundUnmarked(c, p);
      MarksAre(c, p);
      RegistryGrows(l, c, p);
      SweptReported(l, c, id, p, seqBase, parBase, burned);
      SweptAmount(l, c, p, maturity);
      forall slot: Slot
        ensures r.ledger.Get(slot) ==
                if live && slot.addr == c.deposit.refundTo.addr then
                  Ran(l, c, p, slot) + Residues(l, c, p, Holders(c, slot.word), slot.word) + Back(l, c, r.out.charged, slot)
                else if live && Emptied(c, slot) then 0
                else Ran(l, c, p, slot)
      {
        SweptMeans(l, c, p, maturity, slot);
      }
    }
  }

  lemma SkippedEffect(l: Ledger, c: Certificate, id: Hash, p: Params, seqBase: u256, parBase: u256, burned: u256)
    ensures
      var r := ApplyCertificate(l, c, id, p, seqBase, parBase, burned);
      r.CertSettled? && r.out.outcome != Applied ==> Effected(l, c, p, r.out, r.ledger)
  {
    hide Stage, ApplyCertificate, SweptLedger, SweepBurned, BaseFees, Tips;
    var r := ApplyCertificate(l, c, id, p, seqBase, parBase, burned);
    CertBilled(l, c, id, p, seqBase, parBase, burned);
    if r.CertSettled? && r.out.outcome != Applied && r.out.outcome != Dropped {
      SweptReported(l, c, id, p, seqBase, parBase, burned);
    }
  }

  /** One certificate on a sound state: cell by cell and for the registry, what it
      did is what its program says. */
  lemma CertEffect(l: Ledger, c: Certificate, id: Hash, p: Params, seqBase: u256, parBase: u256, burned: u256, maturity: nat)
    requires p.Valid() && StatelessValid(c, p) && PoolsFit(l, maturity)
    ensures
      var r := ApplyCertificate(l, c, id, p, seqBase, parBase, burned);
      r.CertSettled? ==> Effected(l, c, p, r.out, r.ledger)
  {
    hide StatelessValid, PoolsFit, Verdict, ApplyCertificate, Effected;
    SkippedEffect(l, c, id, p, seqBase, parBase, burned);
    VerdictDecides(l, c, id, p, seqBase, parBase, burned);
    if Verdict(l, c) == Applied {
      AppliedEffect(l, c, id, p, seqBase, parBase, burned, maturity);
    }
  }

  // ------------------------------------------------------------ the verdict

  /** When a certificate applies, in the program's own terms. */
  ghost predicate Runnable(l: Ledger, c: Certificate, p: Params) {
    && Reservable(l, c)
    && match c.program
       case Transfer(moves) =>
         && (forall i :: 0 <= i < |moves| ==> moves[i].src !in l.spent && moves[i].dst !in l.spent)
         && (forall slot :: DebitOf(moves, slot) <= Reserved(l, c).Get(slot))
       case Mint(asset, dst, amount, cap, minter) =>
         && dst !in l.spent
         && l.Get(CapSlot(asset)) == cap && l.Get(Slot(asset, AssetMinter)) == minter
         && l.Get(MintedSlot(asset)) + amount <= cap
       case Issue(issuer, _, _, _, _) => l.Get(CapSlot(p.DeriveAssetAddress(issuer, c.seqNo, c.chainId))) == 0
       case Retire(addrs) => forall i :: 0 <= i < |addrs| ==> addrs[i] !in l.spent
  }

  lemma TransferReadsMean(l: Ledger, c: Certificate, p: Params)
    requires DerivationMatches(c, p) && c.program.Transfer? && Reservable(l, c)
    ensures ReadsHold(Reserved(l, c), c.readList) <==>
              && SourcesLive(l, c.program.moves)
              && forall slot :: DebitOf(c.program.moves, slot) <= Reserved(l, c).Get(slot)
  {
    hide DerivationMatches, DebitOf, ReadsHold, Debits;
    var moves := c.program.moves;
    if ReadsHold(Reserved(l, c), c.readList) {
      forall i | 0 <= i < |moves|
        ensures moves[i].src !in l.spent
      {
        SourceIsRead(l, c, p, i);
      }
      forall slot: Slot
        ensures DebitOf(moves, slot) <= Reserved(l, c).Get(slot)
      {
        HeldCovers(l, c, p, slot);
      }
    }
    if SourcesLive(l, moves) && forall slot :: DebitOf(moves, slot) <= Reserved(l, c).Get(slot) {
      forall r | r in c.readList
        ensures ReadHolds(Reserved(l, c), r)
      {
        CoveredReadHolds(l, c, p, r);
      }
      AllReadsHold(Reserved(l, c), c.readList);
    }
  }

  lemma AllReadsHold(l: Ledger, rs: seq<Read>)
    requires forall r :: r in rs ==> ReadHolds(l, r)
    ensures ReadsHold(l, rs)
  {
    hide ReadHolds;
  }

  lemma HeldCovers(l: Ledger, c: Certificate, p: Params, slot: Slot)
    requires DerivationMatches(c, p) && c.program.Transfer? && Reservable(l, c) && ReadsHold(Reserved(l, c), c.readList)
    ensures DebitOf(c.program.moves, slot) <= Reserved(l, c).Get(slot)
  {
    hide DerivationMatches, DebitOf, ReadsHold, Debits, Reserved;
    var moves := c.program.moves;
    DerivesSomething(c, p);
    if IsSource(moves, slot) {
      var i :| 0 <= i < |moves| && SourceSlot(moves[i]) == slot;
      assert MoveOk(moves[i]);
      var k := SourceHasEntry(moves, i);
      var r := GuardReads(Debits(moves))[k];
      assert r in GuardReads(Debits(moves));
      DeclaredRead(c, p, r);
      HeldRead(Reserved(l, c), c, r);
    } else {
      NotASource(moves, slot);
    }
  }

  lemma CoveredReadHolds(l: Ledger, c: Certificate, p: Params, r: Read)
    requires DerivationMatches(c, p) && c.program.Transfer? && Reservable(l, c) && r in c.readList
    requires SourcesLive(l, c.program.moves) && forall slot :: DebitOf(c.program.moves, slot) <= Reserved(l, c).Get(slot)
    ensures ReadHolds(Reserved(l, c), r)
  {
    hide DerivationMatches, DebitOf, Debits;
    var moves := c.program.moves;
    DerivesSomething(c, p);
    DeclaredRead(c, p, r);
    var i :| 0 <= i < |Debits(moves)| && GuardReads(Debits(moves))[i] == r;
    DebitEntry(moves, i);
    DebitEntryIsSource(moves, i);
  }

  ghost predicate PayeesLive(l: Ledger, moves: seq<Move>) {
    forall i :: 0 <= i < |moves| ==> moves[i].dst !in l.spent
  }

  lemma TransferWritesMean(l: Ledger, c: Certificate, p: Params)
    requires DerivationMatches(c, p) && c.program.Transfer? && c.deposit.cell.addr !in l.spent
    requires SourcesLive(l, c.program.moves)
    ensures WritesLive(l, c.writes) <==> PayeesLive(l, c.program.moves)
  {
    hide DerivationMatches, IsSource, IsPayee, Burns;
    var moves := c.program.moves;
    if WritesLive(l, c.writes) {
      forall i | 0 <= i < |moves|
        ensures moves[i].dst !in l.spent
      {
        IsPayeeAt(moves, i);
        var k := PayeeIsCredited(c, p, PayeeSlot(moves[i]));
        assert c.writes[k] in c.writes;
      }
    }
    if PayeesLive(l, moves) {
      MarksAre(c, p);
      forall w | w in c.writes
        ensures w.slot.addr !in l.spent
      {
        if w.op.OpMarkSpent? {
          assert w.slot.addr in MarkedAddrs(c.writes);
          BurnsAreLive(l, c, w.slot.addr);
        } else {
          TransferWrites(c, p, w);
          EndpointLive(l, moves, w.slot);
        }
      }
    }
  }

  lemma IsPayeeAt(moves: seq<Move>, i: nat)
    requires i < |moves|
    ensures IsPayee(moves, PayeeSlot(moves[i]))
  {
  }

  lemma EndpointLive(l: Ledger, moves: seq<Move>, slot: Slot)
    requires SourcesLive(l, moves) && PayeesLive(l, moves) && (IsSource(moves, slot) || IsPayee(moves, slot))
    ensures slot.addr !in l.spent
  {
  }

  lemma BurnsAreLive(l: Ledger, c: Certificate, a: Address)
    requires c.program.Transfer? && SourcesLive(l, c.program.moves) && c.deposit.cell.addr !in l.spent && a in Burns(c)
    ensures a !in l.spent
  {
    if a != c.deposit.cell.addr {
      var m :| m in c.program.moves && IsOneShot(m.src) && m.src == a;
      var i :| 0 <= i < |c.program.moves| && c.program.moves[i] == m;
    }
  }

  lemma MintMeans(l: Ledger, c: Certificate, p: Params)
    requires Tame(c) && DerivationMatches(c, p) && c.program.Mint? && Reservable(l, c) && OneShotsOnly(l)
    ensures ReadsHold(Reserved(l, c), c.readList) && WritesLive(l, c.writes) <==> Runnable(l, c, p)
  {
    hide DerivationMatches, Tame, Burns;
    TameRefunds(c);
    MintDeclares(c, p);
    MintReads(c, p);
    var g := c.program;
    var rs := [Read(CapSlot(g.asset), Exact, g.cap), Read(Slot(g.asset, AssetMinter), Exact, g.minter),
               Read(MintedSlot(g.asset), GuardLE, g.cap - g.amount)];
    if ReadsHold(Reserved(l, c), c.readList) && WritesLive(l, c.writes) {
      HeldRead(Reserved(l, c), c, rs[0]);
      HeldRead(Reserved(l, c), c, rs[1]);
      HeldRead(Reserved(l, c), c, rs[2]);
    }
    if Runnable(l, c, p) {
      assert forall r :: r in c.readList ==> ReadHolds(Reserved(l, c), r);
      AllReadsHold(Reserved(l, c), c.readList);
      MarksAre(c, p);
      forall w | w in c.writes
        ensures w.slot.addr !in l.spent
      {
        if w.op.OpMarkSpent? {
          assert w.slot.addr in MarkedAddrs(c.writes);
          OnlyDepositBurns(c, w.slot.addr);
        } else {
          MintWrites(c, p, w);
        }
      }
    }
  }

  lemma MintReads(c: Certificate, p: Params)
    requires DerivationMatches(c, p) && c.program.Mint?
    ensures
      var g := c.program;
      forall r :: r in c.readList <==>
        r in [Read(CapSlot(g.asset), Exact, g.cap), Read(Slot(g.asset, AssetMinter), Exact, g.minter),
              Read(MintedSlot(g.asset), GuardLE, g.cap - g.amount)]
    ensures c.program.amount <= c.program.cap
  {
    hide DerivationMatches;
    DerivesSomething(c, p);
    forall r: Read {
      DeclaredRead(c, p, r);
    }
  }

  lemma OnlyDepositBurns(c: Certificate, a: Address)
    requires (c.program.Mint? || c.program.Issue?) && a in Burns(c)
    ensures a == c.deposit.cell.addr
  {
  }

  lemma IssueMeans(l: Ledger, c: Certificate, p: Params)
    requires Tame(c) && DerivationMatches(c, p) && c.program.Issue? && Reservable(l, c) && OneShotsOnly(l)
    ensures ReadsHold(Reserved(l, c), c.readList) && WritesLive(l, c.writes) <==> Runnable(l, c, p)
  {
    hide DerivationMatches, Tame, Burns;
    TameRefunds(c);
    DerivesSomething(c, p);
    MarksAre(c, p);
    var asset := p.DeriveAssetAddress(c.program.issuer, c.seqNo, c.chainId);
    var r0 := Read(CapSlot(asset), Exact, 0);
    forall r: Read
      ensures r in c.readList <==> r == r0
    {
      DeclaredRead(c, p, r);
    }
    forall w | w in c.writes
      ensures w.slot.addr !in l.spent
    {
      if w.op.OpMarkSpent? {
        assert w.slot.addr in MarkedAddrs(c.writes);
        OnlyDepositBurns(c, w.slot.addr);
      } else {
        DeclaredWrite(c, p, w);
      }
    }
    if ReadsHold(Reserved(l, c), c.readList) {
      HeldRead(Reserved(l, c), c, r0);
    }
    if Runnable(l, c, p) {
      AllReadsHold(Reserved(l, c), c.readList);
    }
  }

  lemma RetireMeans(l: Ledger, c: Certificate, p: Params)
    requires Tame(c) && DerivationMatches(c, p) && c.program.Retire? && Reservable(l, c)
    ensures ReadsHold(Reserved(l, c), c.readList) && WritesLive(l, c.writes) <==> Runnable(l, c, p)
  {
    hide DerivationMatches, Tame;
    DerivesSomething(c, p);
    MarksAre(c, p);
    forall r: Read
      ensures r !in c.readList
    {
      DeclaredRead(c, p, r);
    }
    forall w | w in c.writes
      ensures w.op.OpMarkSpent?
    {
      DeclaredWrite(c, p, w);
    }
    if WritesLive(l, c.writes) {
      forall i | 0 <= i < |c.program.addrs|
        ensures c.program.addrs[i] !in l.spent
      {
        assert c.program.addrs[i] in MarkedAddrs(c.writes);
        var w :| w in c.writes && w.op.OpMarkSpent? && w.slot.addr == c.program.addrs[i];
      }
    }
    if Runnable(l, c, p) {
      forall w | w in c.writes
        ensures w.slot.addr !in l.spent
      {
        assert w.slot.addr in MarkedAddrs(c.writes);
        RetiredOrDeposit(c, w.slot.addr);
      }
      AllReadsHold(Reserved(l, c), c.readList);
    }
  }

  lemma RetiredOrDeposit(c: Certificate, a: Address)
    requires c.program.Retire? && a in Burns(c)
    ensures a == c.deposit.cell.addr || exists i :: 0 <= i < |c.program.addrs| && c.program.addrs[i] == a
  {
  }

  lemma TransferMeans(l: Ledger, c: Certificate, p: Params)
    requires DerivationMatches(c, p) && c.program.Transfer? && Reservable(l, c)
    ensures ReadsHold(Reserved(l, c), c.readList) && WritesLive(l, c.writes) <==> Runnable(l, c, p)
  {
    hide DerivationMatches, DebitOf, ReadsHold, WritesLive;
    TransferReadsMean(l, c, p);
    if SourcesLive(l, c.program.moves) {
      TransferWritesMean(l, c, p);
    }
  }

  /** A valid certificate on a sound state is dropped if and only if its deposit
      cannot be reserved, applied if and only if its program can run, and skipped
      as stale otherwise. */
  lemma VerdictMeans(l: Ledger, c: Certificate, p: Params, maturity: nat)
    requires p.Valid() && StatelessValid(c, p) && PoolsFit(l, maturity) && OneShotsOnly(l)
    ensures Verdict(l, c) == if !Reservable(l, c) then Dropped else if Runnable(l, c, p) then Applied else SkippedStale
  {
    hide StatelessValid, PoolsFit, DerivationMatches, Stage, Tame, ReadsHold, Runnable, WritesLive, Reservable;
    if Reservable(l, c) {
      ValidIsTame(c, p);
      ValidDerives(c, p);
      match c.program {
        case Transfer(_) => TransferMeans(l, c, p);
        case Mint(_, _, _, _, _) => MintMeans(l, c, p);
        case Issue(_, _, _, _, _) => IssueMeans(l, c, p);
        case Retire(_) => RetireMeans(l, c, p);
      }
      StageOutcome(Reserved(l, c), c.writes);
      if ReadsHold(Reserved(l, c), c.readList) {
        ReservedFits(l, c, maturity);
        StageNeverOverflows(Reserved(l, c), c, p, maturity);
        LiveByIndex(l, c);
        assert Stage(Reserved(l, c), c.writes).Staged? <==> WritesLive(l, c.writes);
      }
      assert ReadsHold(Reserved(l, c), c.readList) && WritesLive(l, c.writes) <==> Runnable(l, c, p);
    }
  }
}
