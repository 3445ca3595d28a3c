/** One certificate, folded in place through the journal (core/fold/fold.go).

    Each method computes exactly what its function in module `Fold` says, and
    keeps the journal able to undo everything done so far. */
module Machine {
  import opened U256
  import opened Types
  import opened Ledgers
  import opened Fold
  import opened Journals

  /** The report a block accumulates while it is folded. */
  class Report {
    var outcomes: seq<CertOutcome>
    var seqGasUsed: u64
    var parGasUsed: u64
    var seqGasApplied: u64
    var parGasApplied: u64
    var burned: u256
    var minerReward: u256
    var treasury: u256
    var matured: u256
    var stateRoot: Hash

    constructor ()
      ensures View() == BlockResult([], 0, 0, 0, 0, 0, 0, 0, 0, 0)
    {
      outcomes := [];
      seqGasUsed, parGasUsed, seqGasApplied, parGasApplied := 0, 0, 0, 0;
      burned, minerReward, treasury, matured, stateRoot := 0, 0, 0, 0, 0;
    }

    function View(): BlockResult
      reads this
    {
      BlockResult(outcomes, seqGasUsed, parGasUsed, seqGasApplied, parGasApplied,
                  burned, minerReward, treasury, matured, stateRoot)
    }
  }

  // ------------------------------------------------------- reads and staging

  /** F6: does every declared read hold? */
  method CheckReads(s: State, c: Certificate) returns (ok: bool)
    ensures ok == ReadsHold(s.View(), c.readList)
  {
    for i := 0 to |c.readList|
      invariant forall k :: 0 <= k < i ==> ReadHolds(s.View(), c.readList[k])
    {
      var r := c.readList[i];
      if r.slot.addr in s.spent {
        return false;
      }
      var v := s.Get(r.slot);
      match r.access {
        case Exact => if v != r.operand { return false; }
        case GuardEQ => if v != r.operand { return false; }
        case GuardGE => if v < r.operand { return false; }
        case GuardLE => if v > r.operand { return false; }
      }
    }
    return true;
  }

  /** One failing write discards the overlay, whatever the rest would do. */
  lemma {:induction false} StageSticks(l: Ledger, ws: seq<Types.Write>, k: nat, o: Outcome)
    requires k <= |ws| && Stage(l, ws[..k]) == NotStaged(o)
    ensures Stage(l, ws) == NotStaged(o)
    decreases |ws|
  {
    if k == |ws| {
      assert ws[..k] == ws;
    } else {
      var n := |ws| - 1;
      assert ws[..n][..k] == ws[..k];
      StageSticks(l, ws[..n], k, o);
    }
  }

  /** F7: every write against the pre-commit state, or the reason none lands. */
  method StageWrites(s: State, c: Certificate) returns (ov: Overlay)
    ensures ov == Stage(s.View(), c.writes)
  {
    var cells: seq<PendingCell>, spend: seq<Address> := [], [];
    for i := 0 to |c.writes|
      invariant Stage(s.View(), c.writes[..i]) == Staged(cells, spend)
    {
      var w := c.writes[i];
      assert c.writes[..i + 1][..i] == c.writes[..i];
      var v := s.Get(w.slot);
      if w.slot.addr in s.spent {
        StageSticks(s.View(), c.writes, i + 1, SkippedStale);
        return NotStaged(SkippedStale);
      }
      match w.op {
        case OpMarkSpent =>
          spend := spend + [w.slot.addr];
        case OpSet =>
          cells := cells + [PendingCell(w.slot, w.value)];
        case OpDeltaAdd =>
          if v + w.value >= TWO256 {
            StageSticks(s.View(), c.writes, i + 1, SkippedOverflow);
            return NotStaged(SkippedOverflow);
          }
          cells := cells + [PendingCell(w.slot, v + w.value)];
        case OpDeltaSub =>
          if v < w.value {
            StageSticks(s.View(), c.writes, i + 1, SkippedOverflow);
            return NotStaged(SkippedOverflow);
          }
          cells := cells + [PendingCell(w.slot, v - w.value)];
      }
    }
    assert c.writes[..|c.writes|] == c.writes;
    return Staged(cells, spend);
  }

  /** F8: the overlay becomes state. */
  method Commit(j: Journal, cells: seq<PendingCell>, spend: seq<Address>)
    requires j.Valid()
    modifies j, j.s
    ensures j.Valid() && j.log.seenRemoved == old(j.log.seenRemoved)
    ensures j.s.View() == CommitSpends(CommitCells(old(j.s.View()), cells), spend)
  {
    hide Journal.Valid;
    for i := 0 to |cells|
      invariant j.Valid() && j.log.seenRemoved == old(j.log.seenRemoved)
      invariant j.s.View() == CommitCells(old(j.s.View()), cells[..i])
    {
      assert cells[..i + 1][..i] == cells[..i];
      j.Set(cells[i].slot, cells[i].value);
    }
    assert cells[..|cells|] == cells;
    ghost var l := j.s.View();
    for i := 0 to |spend|
      invariant j.Valid() && j.log.seenRemoved == old(j.log.seenRemoved)
      invariant j.s.View() == CommitSpends(l, spend[..i])
    {
      assert spend[..i + 1][..i] == spend[..i];
      j.MarkSpent(spend[i]);
    }
    assert spend[..|spend|] == spend;
  }

  // ---------------------------------------------------------------- the sweep

  method MoveOneResidual(j: Journal, src: Slot, dst: Address) returns (moved: u256, left: u256)
    requires j.Valid()
    modifies j, j.s
    ensures j.Valid() && j.log.seenRemoved == old(j.log.seenRemoved)
    ensures Residual(j.s.View(), moved, left) == MoveResidual(old(j.s.View()), src, dst)
  {
    hide Journal.Valid;
    var v := j.s.Get(src);
    if v == 0 {
      return 0, 0;
    }
    if dst in j.s.spent {
      return 0, v;
    }
    var target := Slot(dst, src.word);
    var sum := j.s.Get(target) + v;
    if sum >= TWO256 {
      return 0, v;
    }
    j.Set(src, 0);
    j.Set(target, sum);
    return v, 0;
  }

  /** F8b: empty every burned address the certificate can name. */
  method SweepAll(j: Journal, c: Certificate) returns (swept: u256, stranded: u256, cells: nat)
    requires j.Valid()
    modifies j, j.s
    ensures j.Valid() && j.log.seenRemoved == old(j.log.seenRemoved)
    ensures Sweep(j.s.View(), swept, stranded, cells) == SweepBurned(old(j.s.View()), c, |c.writes|)
  {
    hide Journal.Valid, MoveResidual;
    swept, stranded, cells := 0, 0, 0;
    for i := 0 to |c.writes|
      invariant j.Valid() && j.log.seenRemoved == old(j.log.seenRemoved)
      invariant Sweep(j.s.View(), swept, stranded, cells) == SweepBurned(old(j.s.View()), c, i)
    {
      var w := c.writes[i];
      if w.op.OpMarkSpent? {
        var a := w.slot.addr;
        ghost var s := Sweep(j.s.View(), swept, stranded, cells);
        var moved, left := MoveOneResidual(j, NativeSlot(a), c.deposit.refundTo.addr);
        swept, stranded := SatAdd(swept, moved), SatAdd(stranded, left);
        if left != 0 {
          cells := cells + 1;
        }
        for k := 0 to |c.writes|
          invariant j.Valid() && j.log.seenRemoved == old(j.log.seenRemoved)
          invariant Sweep(j.s.View(), swept, stranded, cells) == SweepNamed(SweepNative(s, c, a), c, a, k)
        {
          var x := c.writes[k];
          if SweepsAlso(x, a) {
            var _, assetLeft := MoveOneResidual(j, x.slot, c.deposit.refundTo.addr);
            if assetLeft != 0 {
              cells := cells + 1;
            }
          }
        }
      }
    }
  }

  // --------------------------------------------------------------- settlement

  ghost predicate Settles(step: CertStep, l: Ledger, out: CertOutcome, burned: u256, fault: Option<Fault>) {
    match step
    case CertFault(f) => fault == Some(f)
    case CertDone(l', out', burned') => fault.None? && l == l' && out == out' && burned == burned'
  }

  /** F9: charge, refund or burn the remainder, and mark the certificate seen. */
  method SettleCert(j: Journal, c: Certificate, id: Hash, outcome: Outcome, charge: u256, res: Report)
    returns (out: CertOutcome, fault: Option<Fault>)
    requires j.Valid() && c.ttl >= j.height
    modifies j, j.s, res`burned
    ensures j.Valid() && j.log.seenRemoved == old(j.log.seenRemoved)
    ensures Settles(Settle(old(j.s.View()), c, id, outcome, charge, old(res.burned)), j.s.View(), out, res.burned, fault)
  {
    hide Journal.Valid;
    out, fault := BareOutcome(id, outcome).(charged := charge), None;
    if outcome != Applied {
      if res.burned + charge >= TWO256 {
        return out, Some(ConservationFault);
      }
      res.burned := res.burned + charge;
    }
    if c.deposit.amount < charge {
      return out, Some(ConservationFault);
    }
    var refund := c.deposit.amount - charge;
    if refund != 0 {
      if c.deposit.refundTo.addr in j.s.spent {
        if res.burned + refund >= TWO256 {
          return out, Some(ConservationFault);
        }
        res.burned := res.burned + refund;
        out := out.(refundBurned := refund);
      } else {
        var credited := j.s.Get(c.deposit.refundTo) + refund;
        if credited >= TWO256 {
          return out, Some(ConservationFault);
        }
        j.Set(c.deposit.refundTo, credited);
        out := out.(refunded := refund);
      }
    }
    j.MarkSeen(id, c.ttl);
  }

  ghost predicate Yields(r: CertResult, l: Ledger, out: CertOutcome, tip: u256, burned: u256, fault: Option<Fault>) {
    match r
    case CertFailed(f) => fault == Some(f)
    case CertSettled(l', out', tip', burned') => fault.None? && l == l' && out == out' && tip == tip' && burned == burned'
  }

  /** F8, F8b and F9 of a certificate whose writes staged. */
  method ApplyOverlay(j: Journal, c: Certificate, id: Hash, p: Params, seqBase: u256, parBase: u256, res: Report,
                      cells: seq<PendingCell>, spend: seq<Address>)
    returns (out: CertOutcome, tip: u256, fault: Option<Fault>)
    requires j.Valid() && c.ttl >= j.height
    modifies j, j.s, res`burned
    ensures j.Valid() && j.log.seenRemoved == old(j.log.seenRemoved)
    ensures Yields(ApplyStaged(old(j.s.View()), c, id, p, seqBase, parBase, old(res.burned), cells, spend),
                   j.s.View(), out, tip, res.burned, fault)
  {
    hide Journal.Valid, SweepBurned, CommitCells, CommitSpends, Fees, Settle;
    out, tip := BareOutcome(id, Applied), 0;
    Commit(j, cells, spend);
    var swept, stranded, left := SweepAll(j, c);
    var fees := Fees(c, p, seqBase, parBase);
    if fees.None? {
      return out, tip, Some(ConservationFault);
    }
    if res.burned + fees.value.burned >= TWO256 {
      return out, tip, Some(ConservationFault);
    }
    res.burned := res.burned + fees.value.burned;
    out, fault := SettleCert(j, c, id, Applied, fees.value.charge, res);
    out := out.(swept := swept, sweptStranded := stranded, strandedCells := left);
    tip := fees.value.tip;
  }

  /** F3 and F6 through F9 for one certificate. */
  method FoldCertificate(j: Journal, c: Certificate, id: Hash, p: Params, seqBase: u256, parBase: u256, res: Report)
    returns (out: CertOutcome, tip: u256, fault: Option<Fault>)
    requires j.Valid() && c.ttl >= j.height
    modifies j, j.s, res`burned
    ensures j.Valid() && j.log.seenRemoved == old(j.log.seenRemoved)
    ensures Yields(ApplyCertificate(old(j.s.View()), c, id, p, seqBase, parBase, old(res.burned)),
                   j.s.View(), out, tip, res.burned, fault)
  {
    hide Journal.Valid, ReadsHold, Stage, ApplyStaged, Settle;
    out, tip, fault := BareOutcome(id, Dropped), 0, None;
    if !IsUser(c.deposit.cell.addr) {
      return out, tip, Some(RuleFault(F3));
    }
    if c.deposit.cell.addr in j.s.spent {
      return;
    }
    var balance := j.s.Get(c.deposit.cell);
    if balance < c.deposit.amount {
      return;
    }
    j.Set(c.deposit.cell, balance - c.deposit.amount);
    var ok := CheckReads(j.s, c);
    if !ok {
      out, fault := SettleCert(j, c, id, SkippedStale, p.skipFee, res);
      return;
    }
    var ov := StageWrites(j.s, c);
    match ov {
      case NotStaged(reason) =>
        out, fault := SettleCert(j, c, id, reason, p.skipFee, res);
      case Staged(cells, spend) =>
        out, tip, fault := ApplyOverlay(j, c, id, p, seqBase, parBase, res, cells, spend);
    }
  }
}
