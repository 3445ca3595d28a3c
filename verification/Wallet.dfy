/** The wallet's pre-flight rules (wallet/policy.go).

    Each rule is the method the wallet runs, proved to accept exactly when its
    declarative meaning holds. */
module Wallet {
  import opened U256
  import opened Types
  import opened Validity
  import opened Ledgers

  datatype PolicyError =
    | FeeCeilingOverflows | HeadroomExceedsBalance | RefundToBurned | RefundToSpentHere | PayingUsedOneShot
    | BurnedResidualGoesElsewhere | PartialOneShotSpend | AmountsOverflow | MoveExceedsBalance

  /** What the deposit takes out of its cell. */
  function Reservation(d: Deposit, ceiling: u256): u256 {
    if d.amount < ceiling then ceiling else d.amount
  }

  function MovesOf(g: Program): seq<Move> {
    if g.Transfer? then g.moves else []
  }

  function RetiredBy(g: Program): seq<Address> {
    if g.Retire? then g.addrs else []
  }

  function SourceSlot(m: Move): Slot {
    BalanceSlot(m.src, m.asset)
  }

  /** What the moves take out of one cell. */
  function DebitOf(moves: seq<Move>, slot: Slot): nat {
    if moves == [] then 0
    else DebitOf(moves[..|moves| - 1], slot)
         + if SourceSlot(moves[|moves| - 1]) == slot then moves[|moves| - 1].amount else 0
  }

  predicate IsSource(moves: seq<Move>, slot: Slot) {
    exists i :: 0 <= i < |moves| && SourceSlot(moves[i]) == slot
  }

  // ------------------------------------------------- rule 1: sweep whole cells

  /** A one-shot cell this certificate burns by debiting or retiring it. */
  predicate MustEmpty(moves: seq<Move>, retired: seq<Address>, d: Deposit, slot: Slot) {
    || (exists i :: 0 <= i < |retired| && slot == NativeSlot(retired[i]))
    || (IsOneShot(d.cell.addr) && slot == d.cell)
    || (IsOneShot(slot.addr) && IsSource(moves, slot))
  }

  function Leaving(moves: seq<Move>, d: Deposit, ceiling: u256, slot: Slot): nat {
    (if IsOneShot(d.cell.addr) && slot == d.cell then Reservation(d, ceiling) else 0)
    + if IsOneShot(slot.addr) then DebitOf(moves, slot) else 0
  }

  /** Everything a burned cell gives up is everything it holds. */
  ghost predicate SweepsWhole(g: Program, d: Deposit, l: Ledger, ceiling: u256) {
    forall slot :: MustEmpty(MovesOf(g), RetiredBy(g), d, slot) ==> Leaving(MovesOf(g), d, ceiling, slot) == l.Get(slot)
  }

  lemma MustEmptyStep(moves: seq<Move>, retired: seq<Address>, d: Deposit, n: nat, slot: Slot)
    requires n < |moves|
    ensures MustEmpty(moves[..n + 1], retired, d, slot) <==>
              || MustEmpty(moves[..n], retired, d, slot)
              || (IsOneShot(moves[n].src) && slot == SourceSlot(moves[n]))
    ensures DebitOf(moves[..n + 1], slot) ==
              DebitOf(moves[..n], slot) + if SourceSlot(moves[n]) == slot then moves[n].amount else 0
  {
    assert moves[..n + 1][..n] == moves[..n];
    assert moves[..n + 1][n] == moves[n];
    assert forall i :: 0 <= i < n ==> moves[..n + 1][i] == moves[..n][i];
  }

  lemma {:induction false} DebitOfGrows(moves: seq<Move>, n: nat, slot: Slot)
    requires n <= |moves|
    ensures DebitOf(moves[..n], slot) <= DebitOf(moves, slot)
    decreases |moves|
  {
    if n == |moves| {
      assert moves[..n] == moves;
    } else {
      var k := |moves| - 1;
      assert moves[..k][..n] == moves[..n];
      DebitOfGrows(moves[..k], n, slot);
    }
  }

  /** A sweep whose arithmetic leaves 256 bits cannot match any cell. */
  lemma OverflowingSweepFails(g: Program, d: Deposit, l: Ledger, ceiling: u256, n: nat, slot: Slot)
    requires n < |MovesOf(g)| && IsOneShot(MovesOf(g)[n].src) && slot == SourceSlot(MovesOf(g)[n])
    requires Leaving(MovesOf(g)[..n + 1], d, ceiling, slot) >= TWO256
    ensures !SweepsWhole(g, d, l, ceiling)
    ensures Leaving(MovesOf(g), d, ceiling, slot) >= TWO256
  {
    DebitOfGrows(MovesOf(g), n + 1, slot);
    assert IsSource(MovesOf(g), slot);
    assert MustEmpty(MovesOf(g), RetiredBy(g), d, slot);
  }

  /** What the loops have gathered: an entry for every cell that must empty,
      holding everything that leaves it. */
  ghost predicate Gathered(leaving: map<Slot, u256>, moves: seq<Move>, retired: seq<Address>, d: Deposit, ceiling: u256) {
    && (forall slot :: slot in leaving <==> MustEmpty(moves, retired, d, slot))
    && (forall slot :: slot in leaving ==> leaving[slot] == Leaving(moves, d, ceiling, slot))
  }

  lemma GatherFirst(retired: seq<Address>, d: Deposit, ceiling: u256, leaving: map<Slot, u256>)
    requires forall slot :: slot in leaving <==> exists j :: 0 <= j < |retired| && slot == NativeSlot(retired[j])
    requires forall slot :: slot in leaving ==> leaving[slot] == 0
    ensures IsOneShot(d.cell.addr) ==> Gathered(leaving[d.cell := Reservation(d, ceiling)], [], retired, d, ceiling)
    ensures !IsOneShot(d.cell.addr) ==> Gathered(leaving, [], retired, d, ceiling)
  {
  }

  lemma GatherStep(leaving: map<Slot, u256>, moves: seq<Move>, retired: seq<Address>, d: Deposit, ceiling: u256, n: nat)
    requires n < |moves| && Gathered(leaving, moves[..n], retired, d, ceiling)
    ensures
      var slot := SourceSlot(moves[n]);
      var sum := (if slot in leaving then leaving[slot] else 0) + moves[n].amount;
      if IsOneShot(moves[n].src) then
        && sum == Leaving(moves[..n + 1], d, ceiling, slot)
        && (sum < TWO256 ==> Gathered(leaving[slot := sum], moves[..n + 1], retired, d, ceiling))
      else Gathered(leaving, moves[..n + 1], retired, d, ceiling)
  {
    hide MustEmpty;
    UntouchedLeavesNothing(moves[..n], retired, d, ceiling, SourceSlot(moves[n]));
    forall slot {
      MustEmptyStep(moves, retired, d, n, slot);
    }
  }

  method CheckSweepsWholeCell(g: Program, d: Deposit, l: Ledger, ceiling: u256) returns (err: Option<PolicyError>)
    ensures err.None? <==> SweepsWhole(g, d, l, ceiling)
    ensures err.Some? ==> err.value in {AmountsOverflow, PartialOneShotSpend}
    ensures err == Some(AmountsOverflow) <==> exists slot :: Leaving(MovesOf(g), d, ceiling, slot) >= TWO256
  {
    hide MustEmpty, Leaving;
    var leaving: map<Slot, u256> := map[];
    var retired := RetiredBy(g);
    for i := 0 to |retired|
      invariant forall slot :: slot in leaving <==> exists j :: 0 <= j < i && slot == NativeSlot(retired[j])
      invariant forall slot :: slot in leaving ==> leaving[slot] == 0
    {
      leaving := leaving[NativeSlot(retired[i]) := 0];
    }
    GatherFirst(retired, d, ceiling, leaving);
    // An assignment, not an addition: a retired deposit cell is emptied by the
    // reservation rather than required to be empty already.
    if IsOneShot(d.cell.addr) {
      leaving := leaving[d.cell := Reservation(d, ceiling)];
    }
    var moves := MovesOf(g);
    assert moves[..0] == [];
    for i := 0 to |moves|
      invariant Gathered(leaving, moves[..i], retired, d, ceiling)
    {
      GatherStep(leaving, moves, retired, d, ceiling, i);
      if IsOneShot(moves[i].src) {
        var slot := SourceSlot(moves[i]);
        var before := if slot in leaving then leaving[slot] else 0;
        if before + moves[i].amount >= TWO256 {
          OverflowingSweepFails(g, d, l, ceiling, i, slot);
          return Some(AmountsOverflow);
        }
        leaving := leaving[slot := before + moves[i].amount];
      }
    }
    assert moves[..|moves|] == moves;
    forall slot
      ensures Leaving(moves, d, ceiling, slot) < TWO256
    {
      UntouchedLeavesNothing(moves, retired, d, ceiling, slot);
    }
    var todo := leaving.Keys;
    while todo != {}
      invariant todo <= leaving.Keys
      invariant forall slot :: slot in leaving && slot !in todo ==> leaving[slot] == l.Get(slot)
      decreases |todo|
    {
      var slot :| slot in todo;
      if leaving[slot] != l.Get(slot) {
        return Some(PartialOneShotSpend);
      }
      todo := todo - {slot};
    }
    return None;
  }

  lemma {:induction false} UntouchedLeavesNothing(moves: seq<Move>, retired: seq<Address>, d: Deposit, ceiling: u256, slot: Slot)
    ensures !MustEmpty(moves, retired, d, slot) ==> Leaving(moves, d, ceiling, slot) == 0
  {
    if IsOneShot(slot.addr) && !IsSource(moves, slot) {
      NotASource(moves, slot);
    }
  }

  lemma {:induction false} NotASource(moves: seq<Move>, slot: Slot)
    requires !IsSource(moves, slot)
    ensures DebitOf(moves, slot) == 0
  {
    if moves != [] {
      var n := |moves| - 1;
      assert forall i :: 0 <= i < n ==> moves[..n][i] == moves[i];
      NotASource(moves[..n], slot);
    }
  }

  /** The amount a move must carry to empty the cell it debits. */
  function SweepAmount(holder: Address, asset: Address, d: Deposit, l: Ledger, ceiling: u256): u256 {
    var held := l.Get(BalanceSlot(holder, asset));
    if BalanceSlot(holder, asset) == d.cell then SatSub(held, Reservation(d, ceiling)) else held
  }

  /** It is the one amount rule 1 accepts, whenever the cell can pay its
      reservation at all. */
  lemma SweepAmountIsTheSweep(holder: Address, asset: Address, moves: seq<Move>, d: Deposit, l: Ledger, ceiling: u256)
    requires IsOneShot(holder)
    requires BalanceSlot(holder, asset) == d.cell ==> Reservation(d, ceiling) <= l.Get(d.cell)
    ensures
      var slot := BalanceSlot(holder, asset);
      Leaving(moves, d, ceiling, slot) == l.Get(slot) <==> DebitOf(moves, slot) == SweepAmount(holder, asset, d, l, ceiling)
  {
    hide DebitOf;
  }

  // --------------------------------------- the debits are covered by balances

  /** Everything the certificate takes out of one cell. */
  function Need(moves: seq<Move>, d: Deposit, ceiling: u256, slot: Slot): nat {
    (if slot == d.cell then Reservation(d, ceiling) else 0) + DebitOf(moves, slot)
  }

  ghost predicate Covered(g: Program, d: Deposit, l: Ledger, ceiling: u256) {
    forall slot :: Need(MovesOf(g), d, ceiling, slot) <= l.Get(slot)
  }

  /** The table the loop keeps: one entry and one place in the order for every
      debited cell. */
  ghost predicate Tallied(need: map<Slot, u256>, order: seq<Slot>, moves: seq<Move>, d: Deposit, ceiling: u256) {
    && (forall slot :: slot in order <==> slot in need)
    && (forall slot :: slot in need ==> need[slot] == Need(moves, d, ceiling, slot))
    && (forall slot :: slot !in need ==> Need(moves, d, ceiling, slot) == 0)
  }

  function Tally(need: map<Slot, u256>, slot: Slot): u256 {
    if slot in need then need[slot] else 0
  }

  lemma TallyStep(need: map<Slot, u256>, order: seq<Slot>, moves: seq<Move>, d: Deposit, ceiling: u256, n: nat)
    requires n < |moves| && Tallied(need, order, moves[..n], d, ceiling)
    ensures
      var slot := SourceSlot(moves[n]);
      var sum := Tally(need, slot) + moves[n].amount;
      && sum == Need(moves[..n + 1], d, ceiling, slot)
      && (sum < TWO256 ==>
            Tallied(need[slot := sum], if slot in need then order else order + [slot], moves[..n + 1], d, ceiling))
  {
    forall slot {
      MustEmptyStep(moves, [], d, n, slot);
    }
  }

  lemma NeedGrows(moves: seq<Move>, d: Deposit, ceiling: u256, n: nat, slot: Slot)
    requires n <= |moves|
    ensures Need(moves[..n], d, ceiling, slot) <= Need(moves, d, ceiling, slot)
  {
    DebitOfGrows(moves, n, slot);
  }

  method CheckMovesAreCovered(g: Program, d: Deposit, l: Ledger, ceiling: u256) returns (err: Option<PolicyError>)
    ensures err.None? <==> Covered(g, d, l, ceiling)
    ensures err.Some? ==> err.value in {AmountsOverflow, MoveExceedsBalance}
    ensures err == Some(AmountsOverflow) <==> exists slot :: Need(MovesOf(g), d, ceiling, slot) >= TWO256
  {
    hide DebitOf;
    var moves := MovesOf(g);
    var need: map<Slot, u256> := map[d.cell := Reservation(d, ceiling)];
    var order := [d.cell];
    assert moves[..0] == [];
    TallyFirst(d, ceiling);
    for i := 0 to |moves|
      invariant Tallied(need, order, moves[..i], d, ceiling)
    {
      var slot := SourceSlot(moves[i]);
      TallyStep(need, order, moves, d, ceiling, i);
      if Tally(need, slot) + moves[i].amount >= TWO256 {
        NeedGrows(moves, d, ceiling, i + 1, slot);
        return Some(AmountsOverflow);
      }
      order := if slot in need then order else order + [slot];
      need := need[slot := Tally(need, slot) + moves[i].amount];
    }
    assert moves[..|moves|] == moves;
    assert forall slot :: Need(moves, d, ceiling, slot) == Tally(need, slot);
    for i := 0 to |order|
      invariant forall j :: 0 <= j < i ==> need[order[j]] <= l.Get(order[j])
    {
      if l.Get(order[i]) < need[order[i]] {
        assert Need(moves, d, ceiling, order[i]) > l.Get(order[i]);
        return Some(MoveExceedsBalance);
      }
    }
    return None;
  }

  lemma TallyFirst(d: Deposit, ceiling: u256)
    ensures Tallied(map[d.cell := Reservation(d, ceiling)], [d.cell], [], d, ceiling)
  {
  }

  // ------------------------------------------------------- the other rules

  /** The remainder lands somewhere neither burned already nor burned here. */
  predicate RefundUsable(g: Program, d: Deposit, l: Ledger) {
    && d.refundTo.addr !in l.spent
    && (forall i :: 0 <= i < |MovesOf(g)| && IsOneShot(MovesOf(g)[i].src) ==> MovesOf(g)[i].src != d.refundTo.addr)
    && d.refundTo.addr !in RetiredBy(g)
  }

  method CheckRefundDestination(g: Program, d: Deposit, l: Ledger) returns (err: Option<PolicyError>)
    ensures err.None? <==> RefundUsable(g, d, l)
    ensures err.Some? ==> err.value == if d.refundTo.addr in l.spent then RefundToBurned else RefundToSpentHere
  {
    if d.refundTo.addr in l.spent {
      return Some(RefundToBurned);
    }
    var moves := MovesOf(g);
    for i := 0 to |moves|
      invariant forall j :: 0 <= j < i && IsOneShot(moves[j].src) ==> moves[j].src != d.refundTo.addr
    {
      if IsOneShot(moves[i].src) && moves[i].src == d.refundTo.addr {
        return Some(RefundToSpentHere);
      }
    }
    var retired := RetiredBy(g);
    for i := 0 to |retired|
      invariant forall j :: 0 <= j < i ==> retired[j] != d.refundTo.addr
    {
      if retired[i] == d.refundTo.addr {
        return Some(RefundToSpentHere);
      }
    }
    return None;
  }

  /** Every one-shot payee is unspent and holds nothing of the asset it is paid. */
  predicate PayeesFresh(g: Program, l: Ledger) {
    forall i :: 0 <= i < |MovesOf(g)| && IsOneShot(MovesOf(g)[i].dst) ==>
      MovesOf(g)[i].dst !in l.spent && l.Get(BalanceSlot(MovesOf(g)[i].dst, MovesOf(g)[i].asset)) == 0
  }

  method CheckPayeeIsFresh(g: Program, l: Ledger) returns (err: Option<PolicyError>)
    ensures err.None? <==> PayeesFresh(g, l)
    ensures err.Some? ==> err.value == PayingUsedOneShot
  {
    var moves := MovesOf(g);
    for i := 0 to |moves|
      invariant forall j :: 0 <= j < i && IsOneShot(moves[j].dst) ==>
                  moves[j].dst !in l.spent && l.Get(BalanceSlot(moves[j].dst, moves[j].asset)) == 0
    {
      if IsOneShot(moves[i].dst) {
        if moves[i].dst in l.spent || l.Get(BalanceSlot(moves[i].dst, moves[i].asset)) != 0 {
          return Some(PayingUsedOneShot);
        }
      }
    }
    return None;
  }

  /** Whoever burns an address of their own gets the residual themselves. */
  predicate ResidualComesHome(c: Certificate, owned: seq<Address>) {
    || c.deposit.refundTo.addr in owned
    || forall i :: 0 <= i < |c.writes| && c.writes[i].op.OpMarkSpent? ==> c.writes[i].slot.addr !in owned
  }

  method CheckBurnedResidualComesHome(c: Certificate, owned: seq<Address>) returns (err: Option<PolicyError>)
    ensures err.None? <==> ResidualComesHome(c, owned)
    ensures err.Some? ==> err.value == BurnedResidualGoesElsewhere
  {
    if c.deposit.refundTo.addr in owned {
      return None;
    }
    for i := 0 to |c.writes|
      invariant forall j :: 0 <= j < i && c.writes[j].op.OpMarkSpent? ==> c.writes[j].slot.addr !in owned
    {
      if c.writes[i].op.OpMarkSpent? && c.writes[i].slot.addr in owned {
        return Some(BurnedResidualGoesElsewhere);
      }
    }
    return None;
  }

  /** Every rule but the last, which a caller may override. */
  ghost predicate AcceptsBar(c: Certificate, l: Ledger, p: Params, owned: seq<Address>) {
    && FeeCeiling(c, p).Some?
    && l.Get(c.deposit.cell) >= FeeCeiling(c, p).value
    && RefundUsable(c.program, c.deposit, l)
    && PayeesFresh(c.program, l)
    && ResidualComesHome(c, owned)
    && SweepsWhole(c.program, c.deposit, l, FeeCeiling(c, p).value)
  }

  ghost predicate Accepts(c: Certificate, l: Ledger, p: Params, owned: seq<Address>) {
    AcceptsBar(c, l, p, owned) && Covered(c.program, c.deposit, l, FeeCeiling(c, p).value)
  }

  /** The balance rule runs last, so its refusal means every other rule passed. */
  method CheckAll(c: Certificate, l: Ledger, p: Params, owned: seq<Address>) returns (err: Option<PolicyError>)
    ensures err.None? <==> Accepts(c, l, p, owned)
    ensures err == Some(MoveExceedsBalance) ==> AcceptsBar(c, l, p, owned)
  {
    hide FeeCeiling, SweepsWhole, Covered, RefundUsable, PayeesFresh, ResidualComesHome;
    var ceiling := FeeCeiling(c, p);
    if ceiling.None? {
      return Some(FeeCeilingOverflows);
    }
    if l.Get(c.deposit.cell) < ceiling.value {
      return Some(HeadroomExceedsBalance);
    }
    err := CheckRefundDestination(c.program, c.deposit, l);
    if err.Some? {
      return err;
    }
    err := CheckPayeeIsFresh(c.program, l);
    if err.Some? {
      return err;
    }
    err := CheckBurnedResidualComesHome(c, owned);
    if err.Some? {
      return err;
    }
    err := CheckSweepsWholeCell(c.program, c.deposit, l, ceiling.value);
    if err.Some? {
      return err;
    }
    err := CheckMovesAreCovered(c.program, c.deposit, l, ceiling.value);
  }
}
