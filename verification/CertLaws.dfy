/** What folding one certificate does to the ledger: which cells it can reach,
    what it does to the registry and the seen set, and what it conserves. */
module CertLaws {
  import opened U256
  import opened Types
  import opened Validity
  import opened Ledgers
  import opened Fold
  import opened Derivation

  ghost function CellSlots(cells: seq<PendingCell>): set<Slot> {
    set k | k in cells :: k.slot
  }

  ghost function WrittenSlots(ws: seq<Write>): set<Slot> {
    set w | w in ws && !w.op.OpMarkSpent? :: w.slot
  }

  ghost function MarkedAddrs(ws: seq<Write>): set<Address> {
    set w | w in ws && w.op.OpMarkSpent? :: w.slot.addr
  }

  // ------------------------------------------------------ staging, commit

  lemma {:induction false} CommitCellsAt(l: Ledger, cells: seq<PendingCell>, slot: Slot)
    ensures CommitCells(l, cells).spent == l.spent && CommitCells(l, cells).seen == l.seen
    ensures slot !in CellSlots(cells) ==> CommitCells(l, cells).Get(slot) == l.Get(slot)
  {
    if cells != [] {
      var n := |cells| - 1;
      CommitCellsAt(l, cells[..n], slot);
      assert cells[n].slot in CellSlots(cells);
      assert forall k :: k in cells[..n] ==> k in cells;
    }
  }

  lemma {:induction false} CommitSpendsIs(l: Ledger, spend: seq<Address>)
    ensures CommitSpends(l, spend) == l.(spent := l.spent + set a | a in spend)
  {
    if spend == [] {
      assert l.spent + (set a | a in spend) == l.spent;
    } else {
      var n := |spend| - 1;
      CommitSpendsIs(l, spend[..n]);
      assert spend == spend[..n] + [spend[n]];
      assert (set a | a in spend) == (set a | a in spend[..n]) + {spend[n]};
      assert l.spent + (set a | a in spend[..n]) + {spend[n]} == l.spent + set a | a in spend;
    }
  }

  /** A staged overlay holds exactly the declared writes, none of them under an
      address already burned. */
  lemma {:induction false} StageFacts(l: Ledger, ws: seq<Write>)
    ensures
      var s := Stage(l, ws);
      s.Staged? ==>
        && CellSlots(s.cells) == WrittenSlots(ws)
        && (set a | a in s.spend) == MarkedAddrs(ws)
        && (forall w :: w in ws ==> w.slot.addr !in l.spent)
  {
    if ws != [] {
      var n := |ws| - 1;
      var w := ws[n];
      StageFacts(l, ws[..n]);
      assert ws == ws[..n] + [w];
      assert WrittenSlots(ws) == WrittenSlots(ws[..n]) + WrittenSlots([w]);
      assert MarkedAddrs(ws) == MarkedAddrs(ws[..n]) + MarkedAddrs([w]);
      var s := Stage(l, ws[..n]);
      if s.Staged? {
        StageOneFacts(l, w, s.cells, s.spend);
      }
    }
  }

  lemma StageOneFacts(l: Ledger, w: Write, cells: seq<PendingCell>, spend: seq<Address>)
    ensures
      var s := StageOne(l, w, cells, spend);
      s.Staged? ==>
        && CellSlots(s.cells) == CellSlots(cells) + WrittenSlots([w])
        && (set a | a in s.spend) == (set a | a in spend) + MarkedAddrs([w])
        && w.slot.addr !in l.spent
  {
    var s := StageOne(l, w, cells, spend);
    assert [w][0] == w;
    if s.Staged? {
      if w.op.OpMarkSpent? {
        assert s.spend == spend + [w.slot.addr];
        assert WrittenSlots([w]) == {} && MarkedAddrs([w]) == {w.slot.addr};
      } else {
        assert s.cells == cells + [s.cells[|cells|]];
        assert WrittenSlots([w]) == {w.slot} && MarkedAddrs([w]) == {};
      }
    }
  }

  /** A staged cell write appends one cell, holding the old value plus the delta. */
  lemma StageOneCell(l: Ledger, w: Write, cells: seq<PendingCell>, spend: seq<Address>) returns (k: PendingCell)
    requires StageOne(l, w, cells, spend).Staged? && !w.op.OpMarkSpent?
    ensures StageOne(l, w, cells, spend).cells == cells + [k] && k.slot == w.slot
    ensures w.op.OpDeltaAdd? ==> k.value == l.Get(w.slot) + w.value
    ensures w.op.OpDeltaSub? ==> k.value == l.Get(w.slot) - w.value
  {
    k := StageOne(l, w, cells, spend).cells[|cells|];
  }

  lemma CommitOneTotal(l: Ledger, cells: seq<PendingCell>, k: PendingCell, pool: Pool)
    requires k.slot !in CellSlots(cells)
    ensures Total(CommitCells(l, cells + [k]).cells, pool) ==
              Total(CommitCells(l, cells).cells, pool)
              + if Counts(pool, k.slot) then k.value as int - l.Get(k.slot) as int else 0
  {
    hide Total, Counts;
    CommitCellsAt(l, cells, k.slot);
    assert (cells + [k])[..|cells|] == cells;
    TotalPut(CommitCells(l, cells).cells, pool, k.slot, k.value);
  }

  lemma StageOneTotal(l: Ledger, w: Write, cells: seq<PendingCell>, spend: seq<Address>, pool: Pool)
    requires w.slot !in CellSlots(cells)
    requires w.op.OpSet? ==> !Counts(pool, w.slot)
    ensures
      var s := StageOne(l, w, cells, spend);
      s.Staged? ==>
        Total(CommitCells(l, s.cells).cells, pool) == Total(CommitCells(l, cells).cells, pool) + Delta(w, pool)
  {
    hide Total, Counts, CommitCells, CellSlots;
    var s := StageOne(l, w, cells, spend);
    if s.Staged? && !w.op.OpMarkSpent? {
      var k := StageOneCell(l, w, cells, spend);
      CommitOneTotal(l, cells, k, pool);
    }
  }

  /** Committing a staged overlay moves each pool by the net of the writes. */
  lemma {:induction false} StageTotal(l: Ledger, ws: seq<Write>, pool: Pool)
    requires DistinctSlots(ws)
    requires forall w :: w in ws && w.op.OpSet? ==> !Counts(pool, w.slot)
    ensures
      var s := Stage(l, ws);
      s.Staged? ==> Total(CommitCells(l, s.cells).cells, pool) == Total(l.cells, pool) + NetDelta(ws, pool)
  {
    if ws != [] {
      var n := |ws| - 1;
      var w := ws[n];
      StageTotal(l, ws[..n], pool);
      StageFacts(l, ws[..n]);
      var s := Stage(l, ws[..n]);
      if s.Staged? {
        assert w.slot !in WrittenSlots(ws[..n]);
        StageOneTotal(l, w, s.cells, s.spend, pool);
      }
    }
  }

  // ------------------------------------------------------------- the sweep

  lemma MoveResidualFacts(l: Ledger, src: Slot, dst: Address, slot: Slot)
    ensures MoveResidual(l, src, dst).ledger.spent == l.spent
    ensures MoveResidual(l, src, dst).ledger.seen == l.seen
    ensures slot != src && (slot.addr != dst || dst in l.spent) ==>
              MoveResidual(l, src, dst).ledger.Get(slot) == l.Get(slot)
  {
  }

  /** The sweep moves units, it never makes or loses one. */
  lemma MoveResidualTotal(l: Ledger, src: Slot, dst: Address, pool: Pool)
    requires Counts(pool, src) == Counts(pool, Slot(dst, src.word))
    requires src.addr != dst || src.addr in l.spent
    ensures Total(MoveResidual(l, src, dst).ledger.cells, pool) == Total(l.cells, pool)
  {
    var target := Slot(dst, src.word);
    var v := l.Get(src);
    TotalPut(l.cells, pool, src, 0);
    if l.Get(target) + v < TWO256 {
      TotalPut(l.Put(src, 0).cells, pool, target, l.Get(target) + v);
    }
  }

  /** A cell the sweep leaves alone: not under a burned address, and not under
      the refund address unless that one is dead. */
  ghost predicate OutOfSweep(l: Ledger, c: Certificate, slot: Slot) {
    && (forall w :: w in c.writes && w.op.OpMarkSpent? ==> slot.addr != w.slot.addr)
    && (slot.addr != c.deposit.refundTo.addr || slot.addr in l.spent)
  }

  lemma {:induction false} SweepNamedFacts(s: Sweep, c: Certificate, a: Address, n: nat, slot: Slot)
    requires n <= |c.writes|
    ensures
      var r := SweepNamed(s, c, a, n);
      && r.ledger.spent == s.ledger.spent
      && r.ledger.seen == s.ledger.seen
      && (slot.addr != a && (slot.addr != c.deposit.refundTo.addr || slot.addr in s.ledger.spent) ==>
            r.ledger.Get(slot) == s.ledger.Get(slot))
  {
    if n > 0 {
      SweepNamedFacts(s, c, a, n - 1, slot);
      MoveResidualFacts(SweepNamed(s, c, a, n - 1).ledger, c.writes[n - 1].slot, c.deposit.refundTo.addr, slot);
    }
  }

  lemma {:induction false} SweepFacts(l: Ledger, c: Certificate, n: nat, slot: Slot)
    requires n <= |c.writes|
    ensures
      var r := SweepBurned(l, c, n);
      && r.ledger.spent == l.spent
      && r.ledger.seen == l.seen
      && (OutOfSweep(l, c, slot) ==> r.ledger.Get(slot) == l.Get(slot))
  {
    if n > 0 {
      SweepFacts(l, c, n - 1, slot);
      var w := c.writes[n - 1];
      if w.op.OpMarkSpent? {
        var s := SweepBurned(l, c, n - 1);
        MoveResidualFacts(s.ledger, NativeSlot(w.slot.addr), c.deposit.refundTo.addr, slot);
        SweepNamedFacts(SweepNative(s, c, w.slot.addr), c, w.slot.addr, |c.writes|, slot);
      }
    }
  }

  /** Two user addresses hold a given word in the same pools. */
  lemma SamePools(pool: Pool, src: Slot, dst: Address)
    requires IsUser(src.addr) && IsUser(dst)
    ensures Counts(pool, src) == Counts(pool, Slot(dst, src.word))
  {
  }

  lemma {:induction false} SweepNamedTotal(s: Sweep, c: Certificate, a: Address, n: nat, pool: Pool)
    requires n <= |c.writes| && IsUser(a) && IsUser(c.deposit.refundTo.addr)
    requires a in s.ledger.spent
    ensures Total(SweepNamed(s, c, a, n).ledger.cells, pool) == Total(s.ledger.cells, pool)
  {
    if n > 0 {
      SweepNamedTotal(s, c, a, n - 1, pool);
      var x := c.writes[n - 1];
      if SweepsAlso(x, a) {
        var t := SweepNamed(s, c, a, n - 1);
        SweepNamedFacts(s, c, a, n - 1, x.slot);
        SamePools(pool, x.slot, c.deposit.refundTo.addr);
        MoveResidualTotal(t.ledger, x.slot, c.deposit.refundTo.addr, pool);
      }
    }
  }

  /** F8b conserves every pool. */
  lemma {:induction false} SweepTotal(l: Ledger, c: Certificate, n: nat, pool: Pool)
    requires n <= |c.writes| && IsUser(c.deposit.refundTo.addr)
    requires forall w :: w in c.writes && w.op.OpMarkSpent? ==> IsUser(w.slot.addr) && w.slot.addr in l.spent
    ensures Total(SweepBurned(l, c, n).ledger.cells, pool) == Total(l.cells, pool)
  {
    if n > 0 {
      SweepTotal(l, c, n - 1, pool);
      var w := c.writes[n - 1];
      if w.op.OpMarkSpent? {
        assert w in c.writes;
        var s := SweepBurned(l, c, n - 1);
        var a := w.slot.addr;
        SweepFacts(l, c, n - 1, w.slot);
        SamePools(pool, NativeSlot(a), c.deposit.refundTo.addr);
        MoveResidualTotal(s.ledger, NativeSlot(a), c.deposit.refundTo.addr, pool);
        MoveResidualFacts(s.ledger, NativeSlot(a), c.deposit.refundTo.addr, w.slot);
        SweepNamedTotal(SweepNative(s, c, a), c, a, |c.writes|, pool);
      }
    }
  }

  // ------------------------------------------------------------ settlement

  lemma SettleFacts(l: Ledger, c: Certificate, id: Hash, outcome: Outcome, charge: u256, burned: u256, slot: Slot)
    ensures
      var s := Settle(l, c, id, outcome, charge, burned);
      s.CertDone? ==>
        && s.ledger.spent == l.spent
        && s.ledger.seen == l.See(id, c.ttl).seen
        && s.out.id == id && s.out.outcome == outcome && s.out.charged == charge
        && (slot != c.deposit.refundTo || slot.addr in l.spent ==> s.ledger.Get(slot) == l.Get(slot))
        && s.out.refunded + s.out.refundBurned + charge == c.deposit.amount
        && (s.out.refunded == 0 || s.out.refundBurned == 0)
  {
  }

  /** Settlement turns the reserved deposit into charge, refund and burn. */
  lemma SettleTotal(l: Ledger, c: Certificate, id: Hash, outcome: Outcome, charge: u256, burned: u256, pool: Pool)
    requires c.deposit.refundTo.word == Balance(NATIVE_ASSET)
    requires pool.Asset? ==> Version(pool.id) == VERSION_ASSET
    ensures
      var s := Settle(l, c, id, outcome, charge, burned);
      s.CertDone? ==>
        if pool.Native? then
          Total(s.ledger.cells, pool) + s.burned
          == Total(l.cells, pool) + burned + c.deposit.amount - if outcome == Applied then charge else 0
        else Total(s.ledger.cells, pool) == Total(l.cells, pool)
  {
    if l.Get(c.deposit.refundTo) + (c.deposit.amount - charge) < TWO256 && c.deposit.amount > charge {
      TotalPut(l.cells, pool, c.deposit.refundTo, l.Get(c.deposit.refundTo) + (c.deposit.amount - charge));
    }
  }

  // --------------------------------------------------- a whole certificate

  /** The ledger F9 settles on: writes committed, authorities burned, residuals
      swept. */
  function SweptLedger(l: Ledger, c: Certificate, cells: seq<PendingCell>, spend: seq<Address>): Ledger {
    SweepBurned(CommitSpends(CommitCells(l, cells), spend), c, |c.writes|).ledger
  }

  /** The consequences of the stateless rules the frame rests on. */
  ghost predicate Tame(c: Certificate) {
    && (forall w :: w in c.writes ==> WriteShape(w))
    && DistinctSlots(c.writes)
    && c.deposit.cell.word == Balance(NATIVE_ASSET) && IsUser(c.deposit.cell.addr)
    && c.deposit.refundTo.word == Balance(NATIVE_ASSET) && IsUser(c.deposit.refundTo.addr)
  }

  lemma ValidIsTame(c: Certificate, p: Params)
    requires p.Valid() && StatelessValid(c, p)
    ensures Tame(c)
  {
    forall w | w in c.writes
      ensures WriteShape(w)
    {
      ValidWriteShape(c, p, w);
    }
  }

  /** A cell no certificate may reach: the protocol's, or one under an address
      already burned. */
  ghost predicate Sealed(l: Ledger, slot: Slot) {
    slot.addr == PROTOCOL_ADDRESS || slot.addr in l.spent
  }

  lemma StagedFrame(l: Ledger, c: Certificate, slot: Slot)
    requires Tame(c) && Stage(l, c.writes).Staged? && Sealed(l, slot)
    ensures
      var s := Stage(l, c.writes);
      var l' := SweptLedger(l, c, s.cells, s.spend);
      && l'.Get(slot) == l.Get(slot)
      && l'.spent == l.spent + MarkedAddrs(c.writes)
      && l'.seen == l.seen
  {
    var s := Stage(l, c.writes);
    StageFacts(l, c.writes);
    CommitCellsAt(l, s.cells, slot);
    CommitSpendsIs(CommitCells(l, s.cells), s.spend);
    forall w | w in c.writes
      ensures slot.addr != w.slot.addr
    {
      assert WriteShape(w);
    }
    assert slot !in WrittenSlots(c.writes);
    SweepFacts(CommitSpends(CommitCells(l, s.cells), s.spend), c, |c.writes|, slot);
  }

  lemma {:induction false} StageOutcome(l: Ledger, ws: seq<Write>)
    ensures Stage(l, ws).NotStaged? ==> Stage(l, ws).outcome in {SkippedStale, SkippedOverflow}
  {
    if ws != [] {
      StageOutcome(l, ws[..|ws| - 1]);
    }
  }

  /** What the frame says of one settled certificate. */
  ghost predicate Framed(l: Ledger, c: Certificate, id: Hash, slot: Slot, r: CertResult) {
    r.CertSettled? ==>
      && r.ledger.Get(slot) == l.Get(slot)
      && r.ledger.spent == (if r.out.outcome == Applied then l.spent + MarkedAddrs(c.writes) else l.spent)
      && r.ledger.seen == (if r.out.outcome == Dropped then l.seen else l.See(id, c.ttl).seen)
      && r.out.id == id
  }

  lemma ApplyStagedFrame(l: Ledger, c: Certificate, id: Hash, p: Params, seqBase: u256, parBase: u256, burned: u256,
                         slot: Slot)
    requires Tame(c) && Stage(l, c.writes).Staged? && Sealed(l, slot)
    ensures
      var s := Stage(l, c.writes);
      Framed(l, c, id, slot, ApplyStaged(l, c, id, p, seqBase, parBase, burned, s.cells, s.spend))
  {
    hide Fees, Stage, Settle, SweepBurned, CommitCells, CommitSpends;
    var s := Stage(l, c.writes);
    StagedFrame(l, c, slot);
    var fees := Fees(c, p, seqBase, parBase);
    if fees.Some? && burned + fees.value.burned < TWO256 {
      SettleFacts(SweptLedger(l, c, s.cells, s.spend), c, id, Applied, fees.value.charge,
                  burned + fees.value.burned, slot);
    }
  }

  lemma ApplyReservedFrame(l: Ledger, c: Certificate, id: Hash, p: Params, seqBase: u256, parBase: u256, burned: u256,
                           slot: Slot)
    requires Tame(c) && Sealed(l, slot)
    ensures Framed(l, c, id, slot, ApplyReserved(l, c, id, p, seqBase, parBase, burned))
  {
    SettleFacts(l, c, id, SkippedStale, p.skipFee, burned, slot);
    StageOutcome(l, c.writes);
    match Stage(l, c.writes) {
      case NotStaged(o) => SettleFacts(l, c, id, o, p.skipFee, burned, slot);
      case Staged(cells, spend) => ApplyStagedFrame(l, c, id, p, seqBase, parBase, burned, slot);
    }
  }

  /** The frame of one certificate: sealed cells keep their values, the registry
      gains exactly what an applied certificate declares, and the seen set gains
      its id unless it was dropped. */
  lemma CertFrame(l: Ledger, c: Certificate, id: Hash, p: Params, seqBase: u256, parBase: u256, burned: u256, slot: Slot)
    requires p.Valid() && StatelessValid(c, p) && Sealed(l, slot)
    ensures Framed(l, c, id, slot, ApplyCertificate(l, c, id, p, seqBase, parBase, burned))
  {
    hide StatelessValid, ApplyReserved;
    ValidIsTame(c, p);
    if Reservable(l, c) {
      assert slot != c.deposit.cell;
      ApplyReservedFrame(Reserved(l, c), c, id, p, seqBase, parBase, burned, slot);
    }
  }

  // -------------------------------------------------- conservation by one

  /** Native units move between cells, tips and burns; asset units appear only by
      an applied mint. */
  ghost predicate Conserved(l: Ledger, c: Certificate, burned: u256, pool: Pool, r: CertResult) {
    r.CertSettled? ==>
      if pool.Native? then
        Total(r.ledger.cells, pool) + r.burned + r.tip == Total(l.cells, pool) + burned
      else
        Total(r.ledger.cells, pool) == Total(l.cells, pool) + if r.out.outcome == Applied then Minted(c, pool) else 0
  }

  lemma StagedTotal(l: Ledger, c: Certificate, p: Params, pool: Pool)
    requires Tame(c) && DerivationMatches(c, p) && Stage(l, c.writes).Staged?
    requires pool.Asset? ==> Version(pool.id) == VERSION_ASSET
    ensures
      var s := Stage(l, c.writes);
      Total(SweptLedger(l, c, s.cells, s.spend).cells, pool) == Total(l.cells, pool) + Minted(c, pool)
  {
    var s := Stage(l, c.writes);
    forall w | w in c.writes && w.op.OpSet?
      ensures !Counts(pool, w.slot)
    {
      assert WriteShape(w);
    }
    StageTotal(l, c.writes, pool);
    ValidWritesNet(c, p, pool);
    StageFacts(l, c.writes);
    var l2 := CommitSpends(CommitCells(l, s.cells), s.spend);
    CommitSpendsIs(CommitCells(l, s.cells), s.spend);
    forall w | w in c.writes && w.op.OpMarkSpent?
      ensures IsUser(w.slot.addr) && w.slot.addr in l2.spent
    {
      assert WriteShape(w);
      assert w.slot.addr in MarkedAddrs(c.writes);
    }
    SweepTotal(l2, c, |c.writes|, pool);
  }

  lemma FeesSplit(c: Certificate, p: Params, seqBase: u256, parBase: u256)
    ensures
      var f := Fees(c, p, seqBase, parBase);
      f.Some? ==> f.value.charge == f.value.burned + f.value.tip
  {
  }

  lemma ApplyReservedConserves(l: Ledger, c: Certificate, id: Hash, p: Params, seqBase: u256, parBase: u256, burned: u256,
                               pool: Pool)
    requires Tame(c) && DerivationMatches(c, p)
    requires pool.Asset? ==> Version(pool.id) == VERSION_ASSET
    ensures
      var r := ApplyReserved(l, c, id, p, seqBase, parBase, burned);
      r.CertSettled? ==>
        if pool.Native? then
          Total(r.ledger.cells, pool) + r.burned + r.tip == Total(l.cells, pool) + burned + c.deposit.amount
        else
          Total(r.ledger.cells, pool) == Total(l.cells, pool) + if r.out.outcome == Applied then Minted(c, pool) else 0
  {
    hide DerivationMatches, Fees, Settle, Total, Stage, SweepBurned, ReadsHold;
    SettleTotal(l, c, id, SkippedStale, p.skipFee, burned, pool);
    SettleFacts(l, c, id, SkippedStale, p.skipFee, burned, c.deposit.cell);
    StageOutcome(l, c.writes);
    match Stage(l, c.writes) {
      case NotStaged(o) =>
        SettleTotal(l, c, id, o, p.skipFee, burned, pool);
        SettleFacts(l, c, id, o, p.skipFee, burned, c.deposit.cell);
      case Staged(cells, spend) =>
        StagedTotal(l, c, p, pool);
        var fees := Fees(c, p, seqBase, parBase);
        FeesSplit(c, p, seqBase, parBase);
        if fees.Some? && burned + fees.value.burned < TWO256 {
          var l2 := SweptLedger(l, c, cells, spend);
          SettleTotal(l2, c, id, Applied, fees.value.charge, burned + fees.value.burned, pool);
          SettleFacts(l2, c, id, Applied, fees.value.charge, burned + fees.value.burned, c.deposit.cell);
        }
    }
  }

  /** One certificate conserves, whatever its outcome. */
  lemma CertConserves(l: Ledger, c: Certificate, id: Hash, p: Params, seqBase: u256, parBase: u256, burned: u256,
                      pool: Pool)
    requires p.Valid() && StatelessValid(c, p)
    requires pool.Asset? ==> Version(pool.id) == VERSION_ASSET
    ensures Conserved(l, c, burned, pool, ApplyCertificate(l, c, id, p, seqBase, parBase, burned))
  {
    hide ApplyReserved, DerivationMatches, SelfConsistent, Authorized, Total;
    ValidIsTame(c, p);
    if Reservable(l, c) {
      TotalPut(l.cells, pool, c.deposit.cell, l.Get(c.deposit.cell) - c.deposit.amount);
      ApplyReservedConserves(Reserved(l, c), c, id, p, seqBase, parBase, burned, pool);
    }
  }
}
