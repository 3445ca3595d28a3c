/** Which cells a block can change, stage by stage, and what the protocol's own
    cells hold afterwards. */
module BlockFrames {
  import opened U256
  import opened Types
  import opened Validity
  import opened Ledgers
  import opened Fold
  import opened CertLaws
  import opened BlockLaws
  import opened Conservation

  lemma PrologueAt(l: Ledger, b: Block, p: Params, slot: Slot)
    requires p.Valid()
    ensures Prologue(l, b, p).spent == l.spent && Prologue(l, b, p).seen == l.seen
    ensures !(slot.addr == PROTOCOL_ADDRESS && PrologueWord(slot.word)) ==> Prologue(l, b, p).Get(slot) == l.Get(slot)
  {
    hide LowerMedian, Healthy, Params.NextSeqGasTarget, Quot;
  }

  lemma BookkeepingAt(l: Ledger, b: Block, p: Params, seqApplied: u64, slot: Slot)
    requires p.Valid()
    ensures Bookkeeping(l, b, p, seqApplied).spent == l.spent && Bookkeeping(l, b, p, seqApplied).seen == l.seen
    ensures !(slot.addr == PROTOCOL_ADDRESS && BookWord(slot.word)) ==>
              Bookkeeping(l, b, p, seqApplied).Get(slot) == l.Get(slot)
  {
    hide Wrap64;
  }

  lemma PruneAt(l: Ledger, h: u64, slot: Slot)
    ensures PruneSeen(l, h).spent == l.spent
    ensures PruneSeen(l, h).Get(slot) == l.Get(slot)
  {
  }

  lemma TreasuryAt(l: Ledger, treasury: u256, slot: Slot)
    ensures
      var r := PayTreasury(l, treasury);
      r.Some? ==>
        && r.value.spent == l.spent && r.value.seen == l.seen
        && r.value.Get(slot) == l.Get(slot) + if slot == TreasurySlot() then treasury else 0
  {
  }

  lemma ReleaseAt(l: Ledger, index: nat, burned: u256, slot: Slot)
    ensures
      var r := ReleaseCoinbase(l, index, burned);
      r.Paid? ==>
        && r.ledger.spent == l.spent && r.ledger.seen == l.seen
        && ((|| slot != NativeSlot(l.Get(ProtocolSlot(PendingAddr(index))))
             || slot.addr in l.spent
             || l.Get(ProtocolSlot(PendingAmount(index))) == 0) ==> r.ledger.Get(slot) == l.Get(slot))
  {
  }

  lemma RecordAt(l: Ledger, index: nat, payee: Address, reward: u256, slot: Slot)
    ensures
      var r := RecordCoinbase(l, index, payee, reward);
      && r.spent == l.spent && r.seen == l.seen
      && r.Get(slot) == (if slot == ProtocolSlot(PendingAmount(index)) then reward
                         else if slot == ProtocolSlot(PendingAddr(index)) then (if reward == 0 then 0 else payee)
                         else l.Get(slot))
  {
  }

  lemma BaseFeesAt(l: Ledger, b: Block, p: Params, t: u64, seqBase: u256, parBase: u256, sa: u64, pa: u64, slot: Slot)
    requires p.Valid()
    ensures
      var r := UpdateBaseFees(l, b, p, t, seqBase, parBase, sa, pa);
      && r.spent == l.spent && r.seen == l.seen
      && (!(slot.addr == PROTOCOL_ADDRESS && FeeWord(slot.word)) ==> r.Get(slot) == l.Get(slot))
  {
    hide Params.NextBaseFee;
  }

  /** What the ring owes at an index, if anything, it owes to a user address. */
  ghost predicate RingPaysUsers(l: Ledger) {
    forall i: nat :: l.Get(ProtocolSlot(PendingAmount(i))) != 0 ==> IsUser(l.Get(ProtocolSlot(PendingAddr(i))))
  }

  ghost predicate OneShotsOnly(l: Ledger) {
    forall a :: a in l.spent ==> IsOneShot(a)
  }

  /** The state handed to F11: a sealed cell has only seen the protocol's own
      bookkeeping. */
  lemma KeptAt(l: Ledger, b: Block, p: Params, s: Stages, l': Ledger, res: BlockResult, slot: Slot)
    requires p.Valid() && BlockRule(l, b, p).None? && StagesOf(l, b, p, s, l', res)
    requires Sealed(l, slot)
    ensures s.folded.ledger.Get(slot) == s.begun.Get(slot)
    ensures l.spent <= s.kept.spent
    ensures forall a :: a in s.kept.spent ==> a in l.spent || IsOneShot(a)
    ensures !(slot.addr == PROTOCOL_ADDRESS && BookWord(slot.word)) ==> s.kept.Get(slot) == s.begun.Get(slot)
  {
    hide BlockRule, FoldCerts, FoldOrder, Prologue, Bookkeeping, RewardOf, PayTreasury, ReleaseCoinbase,
      RecordCoinbase, UpdateBaseFees, TreasuryShare, AllAdmitted, AllValid, PruneSeen;
    var h := b.header.height;
    var cc := Carry(b.certs, p);
    RulesGive(l, b, p);
    FoldOrderAdmitted(l, h, p, cc);
    AdmittedAreValid(l, h, p, FoldOrder(cc));
    PrologueAt(l, b, p, slot);
    FoldFrame(s.begun, FoldOrder(cc), p, s.seqBase, s.parBase, slot);
    BookkeepingAt(s.folded.ledger, b, p, s.folded.seqApplied, slot);
    PruneAt(Bookkeeping(s.folded.ledger, b, p, s.folded.seqApplied), h, slot);
  }

  /** The tail of a block, F11 to F12b, at one cell. */
  lemma TailAt(l: Ledger, b: Block, p: Params, s: Stages, l': Ledger, res: BlockResult, slot: Slot)
    requires p.Valid() && StagesOf(l, b, p, s, l', res)
    requires RingPaysUsers(s.kept)
    requires slot.addr == PROTOCOL_ADDRESS || slot.addr in s.kept.spent
    ensures l'.spent == s.kept.spent && l'.seen == s.kept.seen
    ensures
      var index := b.header.height % p.coinbaseMaturity;
      !(slot.addr == PROTOCOL_ADDRESS && FeeWord(slot.word)) ==>
        l'.Get(slot) ==
        (if slot == TreasurySlot() then s.kept.Get(slot) + res.treasury
         else if slot == ProtocolSlot(PendingAmount(index)) then res.minerReward
         else if slot == ProtocolSlot(PendingAddr(index)) then (if res.minerReward == 0 then 0 else b.header.emissionAddr)
         else s.kept.Get(slot))
    ensures OneShotsOnly(s.kept) && slot.addr in s.kept.spent ==> l'.Get(slot) == s.kept.Get(slot)
  {
    hide FoldCerts, FoldOrder, Prologue, Bookkeeping, RewardOf, PayTreasury, ReleaseCoinbase,
      RecordCoinbase, UpdateBaseFees, TreasuryShare, PruneSeen;
    var index := b.header.height % p.coinbaseMaturity;
    TreasuryAt(s.kept, TreasuryShare(p, b.header.height), slot);
    TreasuryAt(s.kept, TreasuryShare(p, b.header.height), ProtocolSlot(PendingAddr(index)));
    TreasuryAt(s.kept, TreasuryShare(p, b.header.height), ProtocolSlot(PendingAmount(index)));
    assert s.funded.Get(ProtocolSlot(PendingAmount(index))) == s.kept.Get(ProtocolSlot(PendingAmount(index)));
    ReleaseAt(s.funded, index, s.reward.burned, slot);
    RecordAt(s.paid.ledger, index, b.header.emissionAddr, s.reward.miner, slot);
    BaseFeesAt(s.recorded, b, p, s.t, s.seqBase, s.parBase, s.folded.seqApplied, s.folded.parApplied, slot);
  }

  /** A protocol cell that neither the prologue nor the bookkeeping writes. */
  predicate Undisturbed(slot: Slot) {
    slot.addr == PROTOCOL_ADDRESS && !PrologueWord(slot.word) && !BookWord(slot.word)
  }

  lemma UndisturbedKept(l: Ledger, b: Block, p: Params, s: Stages, l': Ledger, res: BlockResult, slot: Slot)
    requires p.Valid() && BlockRule(l, b, p).None? && StagesOf(l, b, p, s, l', res)
    requires Undisturbed(slot)
    ensures s.kept.Get(slot) == l.Get(slot)
  {
    hide BlockRule, StagesOf;
    KeptAt(l, b, p, s, l', res, slot);
    PrologueAt(l, b, p, slot);
    BegunIs(l, b, p, s, l', res);
  }

  lemma BegunIs(l: Ledger, b: Block, p: Params, s: Stages, l': Ledger, res: BlockResult)
    requires p.Valid() && StagesOf(l, b, p, s, l', res)
    ensures s.begun == Prologue(l, b, p)
  {
  }

  lemma RingKept(l: Ledger, b: Block, p: Params, s: Stages, l': Ledger, res: BlockResult)
    requires p.Valid() && BlockRule(l, b, p).None? && StagesOf(l, b, p, s, l', res)
    requires RingPaysUsers(l)
    ensures RingPaysUsers(s.kept)
  {
    hide BlockRule, StagesOf;
    forall i: nat | s.kept.Get(ProtocolSlot(PendingAmount(i))) != 0
      ensures IsUser(s.kept.Get(ProtocolSlot(PendingAddr(i))))
    {
      UndisturbedKept(l, b, p, s, l', res, ProtocolSlot(PendingAmount(i)));
      UndisturbedKept(l, b, p, s, l', res, ProtocolSlot(PendingAddr(i)));
    }
  }

  /** One block, at a protocol cell outside the prologue's and the books': the
      treasury gains its share, the ring entry of this height is overwritten, and
      nothing else moves. */
  lemma BlockAtProtocol(l: Ledger, b: Block, p: Params, checkRoot: bool, slot: Slot)
    requires p.Valid() && Apply(l, b, p, checkRoot).Accepted?
    requires RingPaysUsers(l) && Undisturbed(slot)
    ensures
      var r := Apply(l, b, p, checkRoot);
      var index := b.header.height % p.coinbaseMaturity;
      r.ledger.Get(slot) ==
      (if slot == TreasurySlot() then l.Get(slot) + r.res.treasury
       else if slot == ProtocolSlot(PendingAmount(index)) then r.res.minerReward
       else if slot == ProtocolSlot(PendingAddr(index)) then (if r.res.minerReward == 0 then 0 else b.header.emissionAddr)
       else l.Get(slot))
  {
    hide Apply, BlockRule, StagesOf;
    var r := Apply(l, b, p, checkRoot);
    var s := AcceptedStages(l, b, p, checkRoot);
    UndisturbedKept(l, b, p, s, r.ledger, r.res, slot);
    RingKept(l, b, p, s, r.ledger, r.res);
    TailAt(l, b, p, s, r.ledger, r.res, slot);
  }

  /** One block leaves every cell under an already-burned address as it was, and
      the registry only grows, by one-shot addresses. */
  lemma BlockFreezes(l: Ledger, b: Block, p: Params, checkRoot: bool, slot: Slot)
    requires p.Valid() && Apply(l, b, p, checkRoot).Accepted?
    requires RingPaysUsers(l) && OneShotsOnly(l)
    ensures
      var l' := Apply(l, b, p, checkRoot).ledger;
      && l.spent <= l'.spent && OneShotsOnly(l')
      && (slot.addr in l.spent ==> l'.Get(slot) == l.Get(slot))
  {
    hide Apply, BlockRule, StagesOf;
    var r := Apply(l, b, p, checkRoot);
    var s := AcceptedStages(l, b, p, checkRoot);
    RingKept(l, b, p, s, r.ledger, r.res);
    KeptAt(l, b, p, s, r.ledger, r.res, ProtocolSlot(SpentWord));
    TailAt(l, b, p, s, r.ledger, r.res, ProtocolSlot(SpentWord));
    if slot.addr in l.spent {
      assert IsOneShot(slot.addr);
      KeptAt(l, b, p, s, r.ledger, r.res, slot);
      PrologueAt(l, b, p, slot);
      BegunIs(l, b, p, s, r.ledger, r.res);
      TailAt(l, b, p, s, r.ledger, r.res, slot);
    }
  }

  /** An address burned by any of a block's first `n` certificates is frozen from
      that moment: no later certificate, settlement, sweep or coinbase of the block
      changes a cell under it. */
  lemma FrozenFromCertificate(l: Ledger, b: Block, p: Params, checkRoot: bool, n: nat, slot: Slot) returns (s: Stages)
    requires p.Valid() && Apply(l, b, p, checkRoot).Accepted?
    requires RingPaysUsers(l) && OneShotsOnly(l) && n <= |FoldOrder(Carry(b.certs, p))|
    ensures StagesOf(l, b, p, s, Apply(l, b, p, checkRoot).ledger, Apply(l, b, p, checkRoot).res)
    ensures
      var mid := FoldCerts(s.begun, FoldOrder(Carry(b.certs, p))[..n], p, s.seqBase, s.parBase);
      && mid.Running?
      && (slot.addr in mid.ledger.spent ==>
            && slot.addr in Apply(l, b, p, checkRoot).ledger.spent
            && Apply(l, b, p, checkRoot).ledger.Get(slot) == mid.ledger.Get(slot))
  {
    hide Apply, BlockRule, StagesOf, FoldOrder, AllAdmitted, AllValid, FoldCerts;
    var r := Apply(l, b, p, checkRoot);
    s := AcceptedStages(l, b, p, checkRoot);
    var ordered := FoldOrder(Carry(b.certs, p));
    RulesGive(l, b, p);
    FoldOrderAdmitted(l, b.header.height, p, Carry(b.certs, p));
    AdmittedAreValid(l, b.header.height, p, ordered);
    FoldedIs(l, b, p, s, r.ledger, r.res);
    FoldFrameFrom(s.begun, ordered, n, p, s.seqBase, s.parBase, slot);
    RingKept(l, b, p, s, r.ledger, r.res);
    KeptAt(l, b, p, s, r.ledger, r.res, ProtocolSlot(SpentWord));
    BookkeepingAt(s.folded.ledger, b, p, s.folded.seqApplied, slot);
    PruneAt(Bookkeeping(s.folded.ledger, b, p, s.folded.seqApplied), b.header.height, slot);
    if slot.addr in s.kept.spent {
      assert IsOneShot(slot.addr);
      TailAt(l, b, p, s, r.ledger, r.res, slot);
    }
  }

  lemma FoldedIs(l: Ledger, b: Block, p: Params, s: Stages, l': Ledger, res: BlockResult)
    requires p.Valid() && StagesOf(l, b, p, s, l', res)
    ensures s.folded == FoldCerts(s.begun, FoldOrder(Carry(b.certs, p)), p, s.seqBase, s.parBase) && s.folded.Running?
    ensures s.kept == PruneSeen(Bookkeeping(s.folded.ledger, b, p, s.folded.seqApplied), b.header.height)
  {
  }
}
