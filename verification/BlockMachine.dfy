/** A whole block, folded in place (core/fold/fold.go `apply`): the outcome is
    the one `Fold.Apply` gives, a refused block leaves the state as it was, and
    an accepted one hands back a log that undoes it exactly. */
module BlockMachine {
  import opened U256
  import opened Types
  import opened Ledgers
  import opened Medians
  import opened Fold
  import opened BlockLaws
  import opened Journals
  import opened Machine
  import opened BlockChecks

  // ----------------------------------------------------------- before F3

  method WriteBeaconCells(j: Journal, b: Block, p: Params)
    requires p.Valid() && j.Valid()
    modifies j, j.s
    ensures j.Valid() && j.log.seenRemoved == old(j.log.seenRemoved)
    ensures j.s.View() == WriteBeacon(old(j.s.View()), b, p)
  {
    hide Journal.Valid;
    j.Set(ProtocolSlot(BeaconEpoch), Quot(b.header.height, p.epochLength));
    j.Set(ProtocolSlot(BeaconHeight), b.header.height);
    j.Set(ProtocolSlot(BeaconEntropy), b.header.parentId - b.header.parentId % TWO128);
  }

  /** F2b: the epoch controller reads the ring, takes the lower median and moves
      the target. */
  method MoveSeqGasTarget(j: Journal, p: Params)
    requires p.Valid() && j.Valid()
    modifies j, j.s
    ensures j.Valid() && j.log.seenRemoved == old(j.log.seenRemoved)
    ensures j.s.View() == UpdateSeqGasTarget(old(j.s.View()), p)
  {
    hide Journal.Valid, Params.NextSeqGasTarget, Product;
    var samples: seq<u64> := [];
    for i := 0 to p.epochLength
      invariant samples == Samples(j.s.View(), i)
    {
      samples := samples + [Wrap64(j.s.Get(ProtocolSlot(AppliedGasSample(i))))];
    }
    SamplesLength(j.s.View(), p.epochLength);
    var median := Sorted(samples)[(p.epochLength - 1) / 2];
    var cited := Wrap64(j.s.Get(ProtocolSlot(CitedCount)));
    var healthy := Product(cited, 10000) <= Product(p.healthGateBps, p.epochLength);
    var t := Wrap64(j.s.Get(ProtocolSlot(SeqGasTarget)));
    j.Set(ProtocolSlot(SeqGasTarget), p.NextSeqGasTarget(t, Wrap64(2 * (median as nat)), healthy));
    j.Set(ProtocolSlot(CitedCount), 0);
  }

  method OpenBlock(j: Journal, b: Block, p: Params)
    requires p.Valid() && j.Valid()
    modifies j, j.s
    ensures j.Valid() && j.log.seenRemoved == old(j.log.seenRemoved)
    ensures j.s.View() == Prologue(old(j.s.View()), b, p)
  {
    hide Journal.Valid, WriteBeacon, UpdateSeqGasTarget;
    var h := b.header.height;
    if p.IsEpochBoundary(h) {
      WriteBeaconCells(j, b, p);
    }
    if p.IsEpochBoundary(h) && h > 0 {
      MoveSeqGasTarget(j, p);
    }
    if h == 0 {
      j.Set(ProtocolSlot(SeqBaseFee), p.initialSeqBaseFee);
      j.Set(ProtocolSlot(ParBaseFee), p.initialParBaseFee);
      j.Set(ProtocolSlot(SeqGasTarget), p.seqGasTargetGenesis);
    }
  }

  // ------------------------------------------------------- the certificates

  lemma {:induction false} FoldSticks(l: Ledger, cc: seq<Carried>, p: Params, seqBase: u256, parBase: u256, n: nat)
    requires n <= |cc| && FoldCerts(l, cc[..n], p, seqBase, parBase).Halted?
    ensures FoldCerts(l, cc, p, seqBase, parBase) == FoldCerts(l, cc[..n], p, seqBase, parBase)
    decreases |cc|
  {
    hide FoldOne;
    if n == |cc| {
      assert cc[..n] == cc;
    } else {
      var m := |cc| - 1;
      assert cc[..m][..n] == cc[..n];
      FoldSticks(l, cc[..m], p, seqBase, parBase, n);
    }
  }

  /** The fold's progress, read off the running report. */
  ghost function ProgressOf(l: Ledger, res: BlockResult, tips: u256): Progress {
    Running(l, res.outcomes, tips, res.burned, res.seqGasUsed, res.parGasUsed, res.seqGasApplied, res.parGasApplied)
  }

  ghost predicate Continues(g: Progress, l: Ledger, res: BlockResult, tips: u256, fault: Option<Fault>) {
    match g
    case Halted(f) => fault == Some(f)
    case Running(_, _, _, _, _, _, _, _) => fault.None? && g == ProgressOf(l, res, tips)
  }

  /** One turn of the loop. */
  method FoldNext(j: Journal, cy: Carried, p: Params, seqBase: u256, parBase: u256, res: Report, tips: u256)
    returns (tips': u256, fault: Option<Fault>)
    requires j.Valid() && cy.cert.ttl >= j.height
    modifies j, j.s, res
    ensures j.Valid() && j.log.seenRemoved == old(j.log.seenRemoved)
    ensures res.stateRoot == old(res.stateRoot)
    ensures Continues(FoldOne(ProgressOf(old(j.s.View()), old(res.View()), tips), cy, p, seqBase, parBase),
                      j.s.View(), res.View(), tips', fault)
  {
    hide Journal.Valid, ApplyCertificate, Params.SeqGas, Params.ParGas, Wrap64;
    var c := cy.cert;
    res.seqGasUsed := Wrap64(res.seqGasUsed + p.SeqGas(c));
    res.parGasUsed := Wrap64(res.parGasUsed + p.ParGas(c));
    var out, tip;
    tips' := tips;
    out, tip, fault := FoldCertificate(j, c, cy.id, p, seqBase, parBase, res);
    if fault.Some? {
      return;
    }
    if out.outcome == Applied {
      res.seqGasApplied := Wrap64(res.seqGasApplied + p.SeqGas(c));
      res.parGasApplied := Wrap64(res.parGasApplied + p.ParGas(c));
    }
    if tips + tip >= TWO256 {
      return tips, Some(ConservationFault);
    }
    tips' := tips + tip;
    res.outcomes := res.outcomes + [out];
  }

  method FoldAll(j: Journal, ordered: seq<Carried>, p: Params, seqBase: u256, parBase: u256, res: Report)
    returns (tips: u256, fault: Option<Fault>)
    requires j.Valid() && res.View() == BlockResult([], 0, 0, 0, 0, 0, 0, 0, 0, 0)
    requires forall i :: 0 <= i < |ordered| ==> ordered[i].cert.ttl >= j.height
    modifies j, j.s, res
    ensures j.Valid() && j.log.seenRemoved == old(j.log.seenRemoved)
    ensures res.stateRoot == 0
    ensures Continues(FoldCerts(old(j.s.View()), ordered, p, seqBase, parBase), j.s.View(), res.View(), tips, fault)
  {
    hide Journal.Valid, FoldOne;
    tips, fault := 0, None;
    for i := 0 to |ordered|
      invariant j.Valid() && j.log.seenRemoved == old(j.log.seenRemoved) && res.stateRoot == 0
      invariant FoldCerts(old(j.s.View()), ordered[..i], p, seqBase, parBase) == ProgressOf(j.s.View(), res.View(), tips)
    {
      assert ordered[..i + 1][..i] == ordered[..i];
      tips, fault := FoldNext(j, ordered[i], p, seqBase, parBase, res, tips);
      if fault.Some? {
        FoldSticks(old(j.s.View()), ordered, p, seqBase, parBase, i + 1);
        return;
      }
    }
    assert ordered[..|ordered|] == ordered;
    fault := None;
  }

  // ------------------------------------------------------------ after F9

  /** F2c and F10. */
  method KeepBooks(j: Journal, b: Block, p: Params, seqApplied: u64)
    requires p.Valid() && j.Valid() && j.log.seenRemoved == [] && j.height == b.header.height
    modifies j, j.s
    ensures j.Valid()
    ensures j.s.View() == PruneSeen(Bookkeeping(old(j.s.View()), b, p, seqApplied), b.header.height)
  {
    hide Journal.Valid, Wrap64;
    j.Set(ProtocolSlot(AppliedGasSample(b.header.height % p.epochLength)), seqApplied);
    if |b.cites| > 0 {
      var cited := Wrap64(j.s.Get(ProtocolSlot(CitedCount)));
      j.Set(ProtocolSlot(CitedCount), Wrap64(cited + |b.cites|));
    }
    j.Set(ProtocolSlot(PrevParentId), b.header.parentId);
    j.Set(ProtocolSlot(PrevTarget), b.header.target);
    if b.header.height >= 1 {
      j.PruneSeen(b.header.height - 1);
    }
  }

  /** F11's arithmetic: the split, and the burst forfeiture. */
  method SplitReward(p: Params, h: u64, t: u64, tips: u256, res: Report) returns (fault: Option<Fault>)
    requires p.Valid() && BurstWellDefined(res.seqGasUsed, p.SeqGasLimit(t))
    modifies res
    ensures
      var r := RewardOf(p, h, tips, old(res.burned), old(res.seqGasUsed), p.SeqGasLimit(t));
      if r.NoReward? then fault == Some(ConservationFault)
      else fault.None? && res.View() == old(res.View()).(burned := r.burned, minerReward := r.miner, treasury := TreasuryShare(p, h))
  {
    hide Params.Emission, MulDiv64, Params.SeqGasLimit, Params.Valid;
    var subsidy := p.Emission(h);
    var treasury := MulDiv64(subsidy, p.treasuryShareBps, 10000);
    if subsidy < treasury {
      return Some(ConservationFault);
    }
    if subsidy - treasury + tips >= TWO256 {
      return Some(ConservationFault);
    }
    var reward := subsidy - treasury + tips;
    var limit := p.SeqGasLimit(t);
    if res.seqGasUsed > limit {
      var excess := res.seqGasUsed - limit;
      var forfeit := MulDiv64(MulDiv64(reward, excess, limit), excess, limit);
      reward := SatSub(reward, forfeit);
      if res.burned + forfeit >= TWO256 {
        return Some(ConservationFault);
      }
      res.burned := res.burned + forfeit;
    }
    res.minerReward, res.treasury := reward, treasury;
    return None;
  }

  method ReleaseEntry(j: Journal, index: nat, res: Report) returns (matured: u256, fault: Option<Fault>)
    requires j.Valid()
    modifies j, j.s, res`burned
    ensures j.Valid()
    ensures
      var paid := ReleaseCoinbase(old(j.s.View()), index, old(res.burned));
      if paid.NotPaid? then fault == Some(ConservationFault)
      else fault.None? && paid == Paid(j.s.View(), matured, res.burned)
  {
    hide Journal.Valid;
    matured, fault := 0, None;
    var amount := j.s.Get(ProtocolSlot(PendingAmount(index)));
    if amount != 0 {
      var payee := j.s.Get(ProtocolSlot(PendingAddr(index)));
      if payee in j.s.spent {
        if res.burned + amount >= TWO256 {
          return 0, Some(ConservationFault);
        }
        res.burned := res.burned + amount;
      } else {
        var target := NativeSlot(payee);
        if j.s.Get(target) + amount >= TWO256 {
          return 0, Some(ConservationFault);
        }
        j.Set(target, j.s.Get(target) + amount);
        matured := amount;
      }
    }
  }

  /** F12: release the entry one maturity old, then overwrite it. */
  method RollCoinbaseRing(j: Journal, b: Block, p: Params, res: Report) returns (matured: u256, fault: Option<Fault>)
    requires p.Valid() && j.Valid()
    modifies j, j.s, res`burned
    ensures j.Valid()
    ensures
      var index := b.header.height % p.coinbaseMaturity;
      var paid := ReleaseCoinbase(old(j.s.View()), index, old(res.burned));
      if paid.NotPaid? then fault == Some(ConservationFault)
      else
        && fault.None? && matured == paid.matured && res.burned == paid.burned
        && j.s.View() == RecordCoinbase(paid.ledger, index, b.header.emissionAddr, res.minerReward)
  {
    hide Journal.Valid, ReleaseCoinbase;
    var index := b.header.height % p.coinbaseMaturity;
    var addrSlot, amountSlot := ProtocolSlot(PendingAddr(index)), ProtocolSlot(PendingAmount(index));
    matured, fault := ReleaseEntry(j, index, res);
    if fault.Some? {
      return;
    }
    if res.minerReward == 0 {
      j.Set(addrSlot, 0);
      j.Set(amountSlot, 0);
    } else {
      j.Set(addrSlot, b.header.emissionAddr);
      j.Set(amountSlot, res.minerReward);
    }
  }

  ghost predicate Finishes(r: ApplyResult, l: Ledger, res: BlockResult, fault: Option<Fault>) {
    match r
    case Rejected(f) => fault == Some(f)
    case Accepted(l', res') => fault.None? && l == l' && res == res'
  }

  /** F11's credit to the treasury; a zero share is not written. */
  method CreditTreasury(j: Journal, share: u256) returns (fault: Option<Fault>)
    requires j.Valid()
    modifies j, j.s
    ensures j.Valid()
    ensures
      match PayTreasury(old(j.s.View()), share)
      case None => fault == Some(ConservationFault)
      case Some(l) => fault.None? && j.s.View() == l
  {
    hide Journal.Valid;
    if share != 0 {
      var credited := j.s.Get(TreasurySlot()) + share;
      if credited >= TWO256 {
        return Some(ConservationFault);
      }
      j.Set(TreasurySlot(), credited);
    }
    return None;
  }

  /** F12b: steer both base fees, except at genesis. */
  method SteerBaseFees(j: Journal, b: Block, p: Params, t: u64, seqBase: u256, parBase: u256, res: Report)
    requires p.Valid() && j.Valid()
    modifies j, j.s
    ensures j.Valid()
    ensures j.s.View() == UpdateBaseFees(old(j.s.View()), b, p, t, seqBase, parBase, res.seqGasApplied, res.parGasApplied)
  {
    hide Journal.Valid, Params.NextBaseFee, Params.SeqGasLimit, Params.ParGasTarget;
    if b.header.height > 0 {
      var input := res.seqGasApplied;
      if input > p.SeqGasLimit(t) {
        input := p.SeqGasLimit(t);
      }
      j.Set(ProtocolSlot(SeqBaseFee), p.NextBaseFee(seqBase, input, t));
      j.Set(ProtocolSlot(ParBaseFee), p.NextBaseFee(parBase, res.parGasApplied, p.ParGasTarget(t)));
    }
  }

  /** F11 to F14. */
  method CloseBlock(j: Journal, b: Block, p: Params, checkRoot: bool, t: u64, seqBase: u256, parBase: u256,
                    tips: u256, res: Report, ghost g: Progress) returns (fault: Option<Fault>)
    requires p.Valid() && j.Valid() && BurstWellDefined(res.seqGasUsed, p.SeqGasLimit(t)) && res.stateRoot == 0
    requires g.Running? && g == ProgressOf(g.ledger, res.View(), tips)
    modifies j, j.s, res
    ensures j.Valid()
    ensures Finishes(Epilogue(old(j.s.View()), b, p, checkRoot, t, seqBase, parBase, g), j.s.View(), res.View(), fault)
  {
    hide Journal.Valid, RewardOf, TreasuryShare, PayTreasury, ReleaseCoinbase, RecordCoinbase, UpdateBaseFees,
      Params.SeqGasLimit;
    var h := b.header.height;
    fault := SplitReward(p, h, t, tips, res);
    if fault.Some? {
      return;
    }
    fault := CreditTreasury(j, res.treasury);
    if fault.Some? {
      return;
    }
    var matured;
    matured, fault := RollCoinbaseRing(j, b, p, res);
    if fault.Some? {
      return;
    }
    res.matured := matured;
    SteerBaseFees(j, b, p, t, seqBase, parBase, res);
    if p.IsEpochBoundary(h) {
      res.stateRoot := p.stateRootOf(j.s.cells, j.s.spent);
      if checkRoot && res.stateRoot != b.header.stateRoot {
        return Some(RuleFault(F14));
      }
    }
  }

  // ----------------------------------------------------------- a whole block

  /** Every certificate of a block that passes the rules is still in date. */
  lemma OrderedInDate(l: Ledger, b: Block, p: Params)
    requires p.Valid() && BlockRule(l, b, p).None?
    ensures
      var ordered := FoldOrder(Carry(b.certs, p));
      forall i :: 0 <= i < |ordered| ==> ordered[i].cert.ttl >= b.header.height
  {
    hide BlockRule, FoldOrder;
    RulesGive(l, b, p);
    FoldOrderAdmitted(l, b.header.height, p, Carry(b.certs, p));
  }

  /** Everything after the rules, with the journal still able to undo it. */
  method FoldBlock(j: Journal, b: Block, p: Params, checkRoot: bool, cc: seq<Carried>, res: Report) returns (fault: Option<Fault>)
    requires p.Valid() && j.Valid() && j.height == b.header.height && j.log.seenRemoved == []
    requires cc == Carry(b.certs, p) && BlockRule(j.s.View(), b, p).None?
    requires res.View() == BlockResult([], 0, 0, 0, 0, 0, 0, 0, 0, 0)
    modifies j, j.s, res
    ensures j.Valid()
    ensures Finishes(Apply(old(j.s.View()), b, p, checkRoot), j.s.View(), res.View(), fault)
  {
    hide Journal.Valid, BlockRule, Prologue, FoldCerts, FoldOrder, Bookkeeping, PruneSeen, Epilogue, CurrentSeqGasTarget,
      BurstWellDefined, Params.SeqGasLimit;
    ghost var l := j.s.View();
    var t := CurrentSeqGasTarget(j.s.View(), p, b.header.height);
    OpenBlock(j, b, p);
    var seqBase, parBase := j.s.Get(ProtocolSlot(SeqBaseFee)), j.s.Get(ProtocolSlot(ParBaseFee));
    OrderedInDate(l, b, p);
    UsedWithinBurst(l, b, p, j.s.View(), seqBase, parBase);
    ghost var g := FoldCerts(j.s.View(), FoldOrder(cc), p, seqBase, parBase);
    var tips;
    tips, fault := FoldAll(j, FoldOrder(cc), p, seqBase, parBase, res);
    if fault.Some? {
      return;
    }
    KeepBooks(j, b, p, res.seqGasApplied);
    fault := CloseBlock(j, b, p, checkRoot, t, seqBase, parBase, tips, res, g);
  }

  lemma BrokenRuleRefuses(l: Ledger, b: Block, p: Params, checkRoot: bool)
    requires p.Valid() && BlockRule(l, b, p).Some?
    ensures Apply(l, b, p, checkRoot) == Rejected(RuleFault(BlockRule(l, b, p).value))
  {
    hide BlockRule, Prologue, FoldCerts, FoldOrder, Epilogue;
  }

  /** The state-transition function.  Its verdict, report and new state are those
      of the specification; a refusal leaves the state untouched; an acceptance
      returns the log that takes the new state back to the old one. */
  method ApplyBlock(s: State, b: Block, p: Params, checkRoot: bool) returns (res: Report, log: UndoLog, fault: Option<Fault>)
    requires p.Valid() && Normal(s.cells)
    modifies s
    ensures fresh(res) && Normal(s.cells)
    ensures Finishes(Apply(old(s.View()), b, p, checkRoot), s.View(), res.View(), fault)
    ensures fault.Some? ==> s.View() == old(s.View())
    ensures fault.None? ==> Undone(s.View(), log) == old(s.View())
  {
    hide BlockRule, Apply, Undone;
    res := new Report();
    log := NO_CHANGES;
    var cc := Carry(b.certs, p);
    var rule := CheckBlockRules(s, b, p, cc);
    if rule.Some? {
      BrokenRuleRefuses(s.View(), b, p, checkRoot);
      return res, log, Some(RuleFault(rule.value));
    }
    var j := new Journal(s, b.header.height);
    fault := FoldBlock(j, b, p, checkRoot, cc, res);
    if fault.Some? {
      j.Abandon();
      return;
    }
    log := j.log;
  }
}
