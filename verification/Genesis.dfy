/** Block 0 (core/genesis/genesis.go) and the sealing of epoch roots: the base
    case of every run. */
module Genesis {
  import opened U256
  import opened Types
  import opened Validity
  import opened Ledgers
  import opened Fold
  import opened BlockLaws
  import opened Conservation
  import opened BlockFrames
  import opened AssetLaws
  import opened Solvency
  import opened Runs
  import opened Journals
  import opened Machine
  import opened BlockMachine

  // ------------------------------------------------------- sealing a root

  function WithRoot(b: Block, root: Hash): Block {
    b.(header := b.header.(stateRoot := root))
  }

  lemma {:induction false} CitesIgnoreRoot(l: Ledger, b: Block, p: Params, root: Hash, n: nat)
    requires n <= |b.cites| && b.header.height > 1
    ensures CitesRule(l, WithRoot(b, root), p, n) == CitesRule(l, b, p, n)
  {
    if n > 0 {
      CitesIgnoreRoot(l, b, p, root, n - 1);
    }
  }

  /** Only B9 looks at the root, and only off a boundary. */
  lemma RulesIgnoreRoot(l: Ledger, b: Block, p: Params, root: Hash)
    requires p.Valid() && p.IsEpochBoundary(b.header.height)
    ensures BlockRule(l, WithRoot(b, root), p) == BlockRule(l, b, p)
  {
    hide CertsRule, WritesProtocol, CurrentSeqGasTarget, SeqGasSum, ParGasSum, Params.MaxCertsPerBlock, Params.MaxSigsPerBlock,
      Params.BlockByteLimit, CertsSize, SigCount, CitesRule, Params.SeedEpochFor, Params.SeqGasBurst, Params.ParGasLimit;
    if b.header.height > 1 {
      CitesIgnoreRoot(l, b, p, root, |b.cites|);
    }
  }

  lemma StagesIgnoreRoot(l: Ledger, b: Block, p: Params, root: Hash)
    requires p.Valid()
    ensures Prologue(l, WithRoot(b, root), p) == Prologue(l, b, p)
    ensures forall g: u64 :: Bookkeeping(l, WithRoot(b, root), p, g) == Bookkeeping(l, b, p, g)
  {
    hide UpdateSeqGasTarget, Wrap64, Quot;
  }

  lemma EpilogueSealed(l: Ledger, b: Block, p: Params, t: u64, seqBase: u256, parBase: u256, g: Progress)
    requires p.Valid() && g.Running? && BurstWellDefined(g.seqUsed, p.SeqGasLimit(t))
    ensures
      var r := Epilogue(l, b, p, false, t, seqBase, parBase, g);
      && r != Rejected(RuleFault(F14))
      && (r.Accepted? ==>
            Epilogue(l, WithRoot(b, r.res.stateRoot), p, true, t, seqBase, parBase, g) == r)
  {
    hide RewardOf, TreasuryShare, PayTreasury, ReleaseCoinbase, RecordCoinbase, Params.NextBaseFee, Params.SeqGasLimit;
  }

  /** What SealStateRoot promises: the block carrying the sealed root is accepted,
      with the very state and report the dry run predicted. */
  lemma SealedBlockIsAccepted(l: Ledger, b: Block, p: Params)
    requires p.Valid() && Apply(l, b, p, false).Accepted?
    ensures
      var r := Apply(l, b, p, false);
      Apply(l, WithRoot(b, r.res.stateRoot), p, true) == r
  {
    hide BlockRule, Prologue, FoldCerts, FoldOrder, Bookkeeping, PruneSeen, Epilogue, CurrentSeqGasTarget, Params.SeqGasLimit,
      BurstWellDefined;
    var r := Apply(l, b, p, false);
    var b' := WithRoot(b, r.res.stateRoot);
    SameRules(l, b, p, r.res.stateRoot);
    StagesIgnoreRoot(l, b, p, r.res.stateRoot);
    var l1 := Prologue(l, b, p);
    var seqBase := l1.Get(ProtocolSlot(SeqBaseFee));
    var parBase := l1.Get(ProtocolSlot(ParBaseFee));
    UsedWithinBurst(l, b, p, l1, seqBase, parBase);
    var g := FoldCerts(l1, FoldOrder(Carry(b.certs, p)), p, seqBase, parBase);
    StagesIgnoreRoot(g.ledger, b, p, r.res.stateRoot);
    EpilogueSealed(PruneSeen(Bookkeeping(g.ledger, b, p, g.seqApplied), b.header.height), b, p,
                   CurrentSeqGasTarget(l, p, b.header.height), seqBase, parBase, g);
  }

  lemma SameRules(l: Ledger, b: Block, p: Params, root: Hash)
    requires p.Valid() && Apply(l, b, p, false).Accepted? && root == Apply(l, b, p, false).res.stateRoot
    ensures BlockRule(l, WithRoot(b, root), p) == BlockRule(l, b, p)
  {
    hide Apply, BlockRule;
    if p.IsEpochBoundary(b.header.height) {
      RulesIgnoreRoot(l, b, p, root);
    } else {
      OffBoundaryRoot(l, b, p);
      assert WithRoot(b, root) == b;
    }
  }

  lemma OffBoundaryRoot(l: Ledger, b: Block, p: Params)
    requires p.Valid() && Apply(l, b, p, false).Accepted? && !p.IsEpochBoundary(b.header.height)
    ensures Apply(l, b, p, false).res.stateRoot == 0 == b.header.stateRoot
  {
    hide CertsRule, WritesProtocol, Prologue, FoldCerts, FoldOrder, Bookkeeping, PruneSeen, CurrentSeqGasTarget,
      RewardOf, TreasuryShare, PayTreasury, ReleaseCoinbase, RecordCoinbase, UpdateBaseFees, Params.SeqGasLimit,
      Params.MaxCertsPerBlock, Params.MaxSigsPerBlock, Params.BlockByteLimit, BlockSize, SigCount, CheckCites,
      CheckGenesisShape, CheckSeedEpoch;
    var l1 := Prologue(l, b, p);
    UsedWithinBurst(l, b, p, l1, l1.Get(ProtocolSlot(SeqBaseFee)), l1.Get(ProtocolSlot(ParBaseFee)));
  }

  /** A dry run on a copy: the state is not touched. */
  method SealStateRoot(s: State, b: Block, p: Params) returns (root: Hash, fault: Option<Fault>)
    requires p.Valid() && Normal(s.cells)
    ensures
      match Apply(s.View(), b, p, false)
      case Rejected(f) => fault == Some(f)
      case Accepted(_, res) => fault.None? && root == res.stateRoot
  {
    hide Apply;
    var copy := s.Clone();
    var res, _, f := ApplyBlock(copy, b, p, false);
    root, fault := res.stateRoot, f;
  }

  // ------------------------------------------------------------- block zero

  /** Block 0 before its state root is filled in. */
  function GenesisDraft(p: Params, time: u64, target: u256): Block {
    Block(Header(HEADER_VERSION, 0, p.consensusRoot, time, p.certRootOf([]), p.citesRootOf([]), 0, 0,
                 PoWSeal(0, 0, 0), target, 0), [], [])
  }

  lemma DraftPasses(p: Params, time: u64, target: u256)
    requires p.Valid()
    ensures BlockRule(EMPTY, GenesisDraft(p, time, target), p).None? <==>
              HEADER_SIZE + 8 <= p.BlockByteLimit(p.seqGasTargetGenesis)
  {
    hide Params.MaxCertsPerBlock, Params.MaxSigsPerBlock, Params.BlockByteLimit, Params.SeqGasBurst, Params.ParGasLimit, Wrap64;
    WrapZero();
    var b := GenesisDraft(p, time, target);
    assert Carry(b.certs, p) == [];
  }

  /** Building block 0 fails only if an empty block is over the byte limit. */
  lemma DraftApplies(p: Params, time: u64, target: u256)
    requires p.Valid()
    ensures Apply(EMPTY, GenesisDraft(p, time, target), p, false).Accepted? <==>
              HEADER_SIZE + 8 <= p.BlockByteLimit(p.seqGasTargetGenesis)
  {
    hide BlockRule, Apply, Params.BlockByteLimit, Total;
    var b := GenesisDraft(p, time, target);
    DraftPasses(p, time, target);
    if BlockRule(EMPTY, b, p).None? {
      EmptyIsBacked();
      TotalOfEmpty(Native(p.coinbaseMaturity));
      assert p.Emission(0) == 0;
      BlockNeverFails(EMPTY, b, p, false);
      NeverF14Unchecked(EMPTY, b, p);
    } else {
      BrokenRuleRefuses(EMPTY, b, p, false);
    }
  }

  lemma NeverF14Unchecked(l: Ledger, b: Block, p: Params)
    requires p.Valid() && BlockRule(l, b, p).None? && b.certs == []
    ensures Apply(l, b, p, false) != Rejected(RuleFault(F14))
  {
    hide BlockRule, Prologue, Bookkeeping, PruneSeen, Epilogue, CurrentSeqGasTarget, Params.SeqGasLimit, BurstWellDefined;
    var l1 := Prologue(l, b, p);
    var seqBase := l1.Get(ProtocolSlot(SeqBaseFee));
    var parBase := l1.Get(ProtocolSlot(ParBaseFee));
    UsedWithinBurst(l, b, p, l1, seqBase, parBase);
    assert Carry(b.certs, p) == [];
    var g := FoldCerts(l1, [], p, seqBase, parBase);
    EpilogueSealed(PruneSeen(Bookkeeping(g.ledger, b, p, g.seqApplied), b.header.height), b, p,
                   CurrentSeqGasTarget(l, p, b.header.height), seqBase, parBase, g);
  }

  /** No allocation of any kind: nothing burned, nothing seen, and every cell the
      genesis block leaves behind is one of the protocol's own books. */
  ghost predicate Unallocated(l: Ledger) {
    && l.spent == {} && l.seen == map[]
    && forall slot :: l.Get(slot) != 0 ==> slot.addr == PROTOCOL_ADDRESS && QuietWord(slot.word)
  }

  lemma GenesisFolds(b: Block, p: Params, s: Stages, l': Ledger, res: BlockResult)
    requires p.Valid() && StagesOf(EMPTY, b, p, s, l', res) && b.header.height == 0 && b.certs == []
    ensures s.folded.ledger == s.begun
  {
    hide Prologue, Bookkeeping, PruneSeen, RewardOf, PayTreasury, ReleaseCoinbase, RecordCoinbase, UpdateBaseFees;
    assert Carry(b.certs, p) == [];
  }

  lemma GenesisAt(b: Block, p: Params, s: Stages, l': Ledger, res: BlockResult, slot: Slot)
    requires p.Valid() && StagesOf(EMPTY, b, p, s, l', res) && b.header.height == 0 && b.certs == []
    requires res.minerReward == 0 && res.treasury == 0
    ensures l'.spent == {} && l'.seen == map[]
    ensures !(slot.addr == PROTOCOL_ADDRESS && QuietWord(slot.word)) ==> l'.Get(slot) == 0
  {
    hide FoldCerts, FoldOrder, Prologue, Bookkeeping, RewardOf, PayTreasury, ReleaseCoinbase, RecordCoinbase,
      UpdateBaseFees, TreasuryShare;
    var index := 0 % p.coinbaseMaturity;
    var owed := ProtocolSlot(PendingAmount(index));
    GenesisFolds(b, p, s, l', res);
    PrologueAt(EMPTY, b, p, slot);
    PrologueAt(EMPTY, b, p, owed);
    BookkeepingAt(s.begun, b, p, s.folded.seqApplied, slot);
    BookkeepingAt(s.begun, b, p, s.folded.seqApplied, owed);
    TreasuryAt(s.kept, 0, slot);
    TreasuryAt(s.kept, 0, owed);
    ReleaseAt(s.funded, index, s.reward.burned, slot);
    RecordAt(s.paid.ledger, index, b.header.emissionAddr, 0, slot);
    BaseFeesAt(s.recorded, b, p, s.t, s.seqBase, s.parBase, s.folded.seqApplied, s.folded.parApplied, slot);
  }

  /** Genesis allocates nothing to anybody. */
  lemma GenesisAllocatesNothing(b: Block, p: Params, checkRoot: bool)
    requires p.Valid() && Apply(EMPTY, b, p, checkRoot).Accepted? && b.header.height == 0
    ensures Unallocated(Apply(EMPTY, b, p, checkRoot).ledger)
    ensures forall pool :: Total(Apply(EMPTY, b, p, checkRoot).ledger.cells, pool) == 0
  {
    hide Apply, BlockRule, StagesOf, Total;
    var r := Apply(EMPTY, b, p, checkRoot);
    var s := AcceptedStages(EMPTY, b, p, checkRoot);
    GenesisPaysNothing(EMPTY, b, p, checkRoot);
    RulesGive(EMPTY, b, p);
    GenesisAt(b, p, s, r.ledger, r.res, TreasurySlot());
    forall slot
      ensures r.ledger.Get(slot) != 0 ==> slot.addr == PROTOCOL_ADDRESS && QuietWord(slot.word)
    {
      GenesisAt(b, p, s, r.ledger, r.res, slot);
    }
    forall pool
      ensures Total(r.ledger.cells, pool) == 0
    {
      UnallocatedPool(r.ledger, pool);
    }
  }

  lemma {:induction false} ZeroSum(m: Cells, keys: set<Slot>)
    requires forall k :: k in keys ==> CellValue(m, k) == 0
    ensures SumOver(m, keys) == 0
    decreases |keys|
  {
    if keys != {} {
      var k :| k in keys;
      SumOverRemove(m, keys, k);
      ZeroSum(m, keys - {k});
    }
  }

  lemma UnallocatedPool(l: Ledger, pool: Pool)
    requires forall slot :: l.Get(slot) != 0 ==> slot.addr == PROTOCOL_ADDRESS && QuietWord(slot.word)
    ensures Total(l.cells, pool) == 0
  {
    forall k | k in PoolKeys(l.cells, pool)
      ensures CellValue(l.cells, k) == 0
    {
      assert l.Get(k) == CellValue(l.cells, k);
    }
    ZeroSum(l.cells, PoolKeys(l.cells, pool));
  }

  /** Builds block 0 and the state it leaves: seal the root on a copy, write it
      into the header, apply.  The result is a run of one step, which the others
      extend. */
  method Build(p: Params, time: u64, target: u256) returns (b: Block, s: State, fault: Option<Fault>)
    requires p.Valid()
    ensures fresh(s)
    ensures fault.None? <==> HEADER_SIZE + 8 <= p.BlockByteLimit(p.seqGasTargetGenesis)
    ensures fault.None? ==>
              && Apply(EMPTY, b, p, true).Accepted?
              && s.View() == Apply(EMPTY, b, p, true).ledger
              && b.header.height == 0 && b.header.parentId == p.consensusRoot && b.header.target == target
              && Unallocated(s.View())
              && IsRun([Step(EMPTY, b, Apply(EMPTY, b, p, true).res, s.View())], p)
  {
    hide Apply, Params.BlockByteLimit, Unallocated;
    b := GenesisDraft(p, time, target);
    s := new State();
    var root;
    DraftApplies(p, time, target);
    root, fault := SealStateRoot(s, b, p);
    if fault.Some? {
      return;
    }
    SealedBlockIsAccepted(EMPTY, b, p);
    b := WithRoot(b, root);
    var _, _, f := ApplyBlock(s, b, p, true);
    fault := f;
    GenesisAllocatesNothing(b, p, true);
  }
}
