/** Whole runs: chains of accepted blocks at heights 0, 1, 2, ... from the empty
    state, and the laws that hold along every one of them. */
module Runs {
  import opened U256
  import opened Types
  import opened Validity
  import opened Ledgers
  import opened Seqs
  import opened Fold
  import opened CertLaws
  import opened BlockLaws
  import opened Conservation
  import opened BlockFrames

  datatype Step = Step(pre: Ledger, block: Block, res: BlockResult, post: Ledger)

  ghost predicate StepOk(run: seq<Step>, i: nat, p: Params)
    requires p.Valid() && i < |run|
  {
    && run[i].block.header.height == i
    && run[i].pre == (if i == 0 then EMPTY else run[i - 1].post)
    && Apply(run[i].pre, run[i].block, p, true) == Accepted(run[i].post, run[i].res)
  }

  ghost predicate IsRun(run: seq<Step>, p: Params)
    requires p.Valid()
  {
    forall i :: 0 <= i < |run| ==> StepOk(run, i, p)
  }

  /** The state before block `n`. */
  function StateAt(run: seq<Step>, n: nat): Ledger
    requires n <= |run|
  {
    if n == 0 then EMPTY else run[n - 1].post
  }

  // ---------------------------------------------------------- the invariant

  /** What every reachable state satisfies, before the block at height `h`. */
  ghost predicate Sound(l: Ledger, p: Params, h: nat) {
    && OneShotsOnly(l)
    && RingPaysUsers(l)
    && (h > 0 ==> p.seqGasTargetGenesis <= l.Get(ProtocolSlot(SeqGasTarget)) <= p.seqGasCapacity)
  }

  lemma EmptyIsSound(p: Params)
    ensures Sound(EMPTY, p, 0)
  {
  }

  /** The genesis block pays nobody. */
  lemma GenesisPaysNothing(l: Ledger, b: Block, p: Params, checkRoot: bool)
    requires p.Valid() && Apply(l, b, p, checkRoot).Accepted? && b.header.height == 0
    ensures Apply(l, b, p, checkRoot).res.minerReward == 0
    ensures Apply(l, b, p, checkRoot).res.treasury == 0
    ensures Apply(l, b, p, checkRoot).res.outcomes == []
  {
    hide Apply, BlockRule, Prologue, Bookkeeping, PruneSeen, PayTreasury, ReleaseCoinbase, RecordCoinbase, UpdateBaseFees;
    var s := AcceptedStages(l, b, p, checkRoot);
    RulesGive(l, b, p);
    assert Carry(b.certs, p) == [];
    assert p.Emission(0) == 0;
    assert TreasuryShare(p, 0) == 0 by { ShareOfNothing(p.treasuryShareBps); }
  }

  lemma ShareOfNothing(bps: u64)
    ensures MulDiv64(0, bps, 10000) == 0
  {
  }

  /** Where the epoch controller leaves the target. */
  lemma TargetAfter(l: Ledger, b: Block, p: Params, checkRoot: bool)
    requires p.Valid() && Apply(l, b, p, checkRoot).Accepted?
    requires RingPaysUsers(l)
    ensures
      var l' := Apply(l, b, p, checkRoot).ledger;
      l'.Get(ProtocolSlot(SeqGasTarget)) == Prologue(l, b, p).Get(ProtocolSlot(SeqGasTarget))
  {
    hide Apply, BlockRule, StagesOf, Prologue;
    var r := Apply(l, b, p, checkRoot);
    var s := AcceptedStages(l, b, p, checkRoot);
    var slot := ProtocolSlot(SeqGasTarget);
    KeptAt(l, b, p, s, r.ledger, r.res, slot);
    RingKept(l, b, p, s, r.ledger, r.res);
    TailAt(l, b, p, s, r.ledger, r.res, slot);
    BegunIs(l, b, p, s, r.ledger, r.res);
  }

  lemma PrologueTarget(l: Ledger, b: Block, p: Params)
    requires p.Valid()
    ensures
      var t := Prologue(l, b, p).Get(ProtocolSlot(SeqGasTarget));
      var h := b.header.height;
      t == if h == 0 then p.seqGasTargetGenesis
           else if p.IsEpochBoundary(h) then
             p.NextSeqGasTarget(Wrap64(l.Get(ProtocolSlot(SeqGasTarget))), Wrap64(2 * LowerMedian(WriteBeacon(l, b, p), p)),
                                Healthy(WriteBeacon(l, b, p), p))
           else l.Get(ProtocolSlot(SeqGasTarget))
  {
    hide LowerMedian, Healthy, Params.NextSeqGasTarget, Quot;
  }

  lemma NextTargetInRange(p: Params, t: u64, x: u64, healthy: bool)
    requires p.Valid()
    ensures p.seqGasTargetGenesis <= p.NextSeqGasTarget(t, x, healthy) <= p.seqGasCapacity
  {
  }

  /** Accepting a block keeps the invariant. */
  lemma SoundStep(l: Ledger, b: Block, p: Params, checkRoot: bool)
    requires p.Valid() && Apply(l, b, p, checkRoot).Accepted?
    requires Sound(l, p, b.header.height)
    ensures Sound(Apply(l, b, p, checkRoot).ledger, p, b.header.height + 1)
  {
    hide Apply, BlockRule, Prologue, Params.NextSeqGasTarget, LowerMedian, Healthy;
    var r := Apply(l, b, p, checkRoot);
    var h := b.header.height;
    BlockFreezes(l, b, p, checkRoot, ProtocolSlot(SpentWord));
    TargetAfter(l, b, p, checkRoot);
    PrologueTarget(l, b, p);
    NextTargetInRange(p, Wrap64(l.Get(ProtocolSlot(SeqGasTarget))), Wrap64(2 * LowerMedian(WriteBeacon(l, b, p), p)),
                      Healthy(WriteBeacon(l, b, p), p));
    RingStep(l, b, p, checkRoot);
  }

  /** A block that pays its producer names a user address to pay. */
  lemma RewardNamesAUser(l: Ledger, b: Block, p: Params, checkRoot: bool)
    requires p.Valid() && Apply(l, b, p, checkRoot).Accepted?
    ensures Apply(l, b, p, checkRoot).res.minerReward != 0 ==> IsUser(b.header.emissionAddr)
  {
    hide Apply, BlockRule, StagesOf;
    var s := AcceptedStages(l, b, p, checkRoot);
    RulesGive(l, b, p);
    if b.header.height == 0 {
      GenesisPaysNothing(l, b, p, checkRoot);
    }
  }

  lemma RingStep(l: Ledger, b: Block, p: Params, checkRoot: bool)
    requires p.Valid() && Apply(l, b, p, checkRoot).Accepted?
    requires RingPaysUsers(l)
    ensures RingPaysUsers(Apply(l, b, p, checkRoot).ledger)
  {
    hide Apply;
    var r := Apply(l, b, p, checkRoot);
    RewardNamesAUser(l, b, p, checkRoot);
    forall i: nat | r.ledger.Get(ProtocolSlot(PendingAmount(i))) != 0
      ensures IsUser(r.ledger.Get(ProtocolSlot(PendingAddr(i))))
    {
      BlockAtProtocol(l, b, p, checkRoot, ProtocolSlot(PendingAmount(i)));
      BlockAtProtocol(l, b, p, checkRoot, ProtocolSlot(PendingAddr(i)));
    }
  }

  lemma {:induction false} RunIsSound(run: seq<Step>, p: Params, n: nat)
    requires p.Valid() && IsRun(run, p) && n <= |run|
    ensures Sound(StateAt(run, n), p, n)
  {
    hide Apply, Sound;
    if n == 0 {
      EmptyIsSound(p);
    } else {
      RunIsSound(run, p, n - 1);
      assert StepOk(run, n - 1, p);
      SoundStep(run[n - 1].pre, run[n - 1].block, p, true);
    }
  }

  // ------------------------------------------------------- conservation

  function BurnedUpTo(run: seq<Step>, n: nat): nat
    requires n <= |run|
  {
    if n == 0 then 0 else BurnedUpTo(run, n - 1) + run[n - 1].res.burned
  }

  /** Everything the schedule has issued before height `n`. */
  function IssuedBefore(p: Params, n: nat): nat
    requires p.Valid() && n <= TWO64
  {
    if n == 0 then 0 else p.Issued(n - 1)
  }

  /** Conservation over every run: the native coin in existence is what the
      schedule issued less what the blocks reported burned. */
  lemma {:induction false} RunConserves(run: seq<Step>, p: Params, n: nat)
    requires p.Valid() && IsRun(run, p) && n <= |run| && n <= TWO64
    ensures Total(StateAt(run, n).cells, Native(p.coinbaseMaturity)) + BurnedUpTo(run, n) == IssuedBefore(p, n)
  {
    hide Apply, Total, Params.Emission, Sound, Params.Valid;
    if n == 0 {
      TotalOfEmpty(Native(p.coinbaseMaturity));
    } else {
      RunConserves(run, p, n - 1);
      RunIsSound(run, p, n - 1);
      assert StepOk(run, n - 1, p);
      SoundTarget(run[n - 1].pre, p, n - 1);
      BlockConserves(run[n - 1].pre, run[n - 1].block, p, true);
      IssuedStep(p, n);
    }
  }

  lemma IssuedStep(p: Params, n: nat)
    requires p.Valid() && 0 < n <= TWO64
    ensures IssuedBefore(p, n) == IssuedBefore(p, n - 1) + p.Emission(n - 1)
  {
  }

  lemma SoundTarget(l: Ledger, p: Params, h: u64)
    requires p.Valid() && Sound(l, p, h)
    ensures TargetInRange(l, p, h)
  {
  }

  // ----------------------------------------------------- burned is frozen

  /** Once an address is burned, no later block of any run changes a cell under
      it, and the registry never forgets. */
  lemma {:induction false} RunFreezes(run: seq<Step>, p: Params, i: nat, j: nat, slot: Slot)
    requires p.Valid() && IsRun(run, p) && i <= j <= |run|
    ensures StateAt(run, i).spent <= StateAt(run, j).spent
    ensures slot.addr in StateAt(run, i).spent ==> StateAt(run, j).Get(slot) == StateAt(run, i).Get(slot)
    decreases j
  {
    hide Apply;
    if i < j {
      RunFreezes(run, p, i, j - 1, slot);
      RunIsSound(run, p, j - 1);
      assert StepOk(run, j - 1, p);
      BlockFreezes(run[j - 1].pre, run[j - 1].block, p, true, slot);
    }
  }

  // ----------------------------------------------------- the sealed treasury

  function TreasuryUpTo(run: seq<Step>, n: nat): nat
    requires n <= |run|
  {
    if n == 0 then 0 else TreasuryUpTo(run, n - 1) + run[n - 1].res.treasury
  }

  /** The treasury cell is the running sum of its shares: nothing ever debits it. */
  lemma {:induction false} TreasuryIsSealed(run: seq<Step>, p: Params, n: nat)
    requires p.Valid() && IsRun(run, p) && n <= |run|
    ensures StateAt(run, n).Get(TreasurySlot()) == TreasuryUpTo(run, n)
  {
    hide Apply;
    if n > 0 {
      TreasuryIsSealed(run, p, n - 1);
      RunIsSound(run, p, n - 1);
      assert StepOk(run, n - 1, p);
      BlockAtProtocol(run[n - 1].pre, run[n - 1].block, p, true, TreasurySlot());
    }
  }

  // ------------------------------------------------------ coinbase maturity

  /** Reward and payee of the last block before `n` at ring position `i`. */
  function PendingAt(run: seq<Step>, p: Params, n: nat, i: nat): (u256, Address)
    requires p.Valid() && n <= |run|
  {
    if n == 0 then (0, 0)
    else if (n - 1) % p.coinbaseMaturity == i then
      (run[n - 1].res.minerReward, if run[n - 1].res.minerReward == 0 then 0 else run[n - 1].block.header.emissionAddr)
    else PendingAt(run, p, n - 1, i)
  }

  /** The ring holds, at each position, exactly the latest reward written there. */
  lemma {:induction false} RingHolds(run: seq<Step>, p: Params, n: nat, i: nat)
    requires p.Valid() && IsRun(run, p) && n <= |run|
    ensures StateAt(run, n).Get(ProtocolSlot(PendingAmount(i))) == PendingAt(run, p, n, i).0
    ensures StateAt(run, n).Get(ProtocolSlot(PendingAddr(i))) == PendingAt(run, p, n, i).1
  {
    hide Apply, Sound;
    if n > 0 {
      RingHolds(run, p, n - 1, i);
      RunIsSound(run, p, n - 1);
      assert StepOk(run, n - 1, p);
      SoundRing(run[n - 1].pre, p, n - 1);
      BlockAtProtocol(run[n - 1].pre, run[n - 1].block, p, true, ProtocolSlot(PendingAmount(i)));
      BlockAtProtocol(run[n - 1].pre, run[n - 1].block, p, true, ProtocolSlot(PendingAddr(i)));
    }
  }

  lemma {:induction false} PendingSurvives(run: seq<Step>, p: Params, n: nat, k: nat)
    requires p.Valid() && n <= |run| && k < n <= k + p.coinbaseMaturity
    ensures PendingAt(run, p, n, k % p.coinbaseMaturity) == PendingAt(run, p, k + 1, k % p.coinbaseMaturity)
    decreases n
  {
    if n > k + 1 {
      ModDiffers(k, n - 1, p.coinbaseMaturity);
      PendingSurvives(run, p, n - 1, k);
    }
  }

  /** What block `h` releases: the reward of exactly one maturity earlier. */
  function DueAt(run: seq<Step>, p: Params, h: nat): (u256, Address)
    requires p.Valid() && h < |run|
  {
    var m := p.coinbaseMaturity;
    if h < m || run[h - m].res.minerReward == 0 then (0, 0)
    else (run[h - m].res.minerReward, run[h - m].block.header.emissionAddr)
  }

  lemma {:induction false} NothingPendingEarly(run: seq<Step>, p: Params, n: nat, i: nat)
    requires p.Valid() && n <= |run| && n <= i < p.coinbaseMaturity
    ensures PendingAt(run, p, n, i) == (0, 0)
  {
    if n > 0 {
      SmallMod(n - 1, p.coinbaseMaturity);
      NothingPendingEarly(run, p, n - 1, i);
    }
  }

  lemma DueIsPending(run: seq<Step>, p: Params, h: nat)
    requires p.Valid() && h < |run|
    ensures PendingAt(run, p, h, h % p.coinbaseMaturity) == DueAt(run, p, h)
  {
    var m := p.coinbaseMaturity;
    if h < m {
      SmallMod(h, m);
      NothingPendingEarly(run, p, h, h);
    } else {
      ModPeriod(h - m, m);
      PendingSurvives(run, p, h, h - m);
    }
  }

  /** A reward leaves the ring whole: to the payee's cell, or, when the payee's
      authority is gone, to the burn. */
  ghost predicate Released(before: Ledger, burned: u256, amount: u256, payee: Address, after: Paid) {
    && after.Paid?
    && if amount == 0 then after == Paid(before, 0, burned)
       else if payee in before.spent then
         burned + amount < TWO256 && after == Paid(before, 0, burned + amount)
       else
         && before.Get(NativeSlot(payee)) + amount < TWO256
         && after == Paid(before.Put(NativeSlot(payee), before.Get(NativeSlot(payee)) + amount), amount, burned)
  }

  lemma ReleaseMeans(l: Ledger, index: nat, burned: u256)
    requires ReleaseCoinbase(l, index, burned).Paid?
    ensures Released(l, burned, l.Get(ProtocolSlot(PendingAmount(index))), l.Get(ProtocolSlot(PendingAddr(index))),
                     ReleaseCoinbase(l, index, burned))
  {
  }

  /** What the ring holds when block `h` reaches F12. */
  lemma RingAtRelease(run: seq<Step>, p: Params, h: nat, s: Stages)
    requires p.Valid() && IsRun(run, p) && h < |run|
    requires StagesOf(run[h].pre, run[h].block, p, s, run[h].post, run[h].res)
    ensures s.funded.Get(ProtocolSlot(PendingAmount(h % p.coinbaseMaturity))) == DueAt(run, p, h).0
    ensures s.funded.Get(ProtocolSlot(PendingAddr(h % p.coinbaseMaturity))) == DueAt(run, p, h).1
  {
    hide Apply, BlockRule, StagesOf, Sound, PendingAt, DueAt;
    assert StepOk(run, h, p);
    var index := h % p.coinbaseMaturity;
    var l, b := run[h].pre, run[h].block;
    var amount, addr := ProtocolSlot(PendingAmount(index)), ProtocolSlot(PendingAddr(index));
    var _ := AcceptedStages(l, b, p, true);
    RingHolds(run, p, h, index);
    DueIsPending(run, p, h);
    UndisturbedKept(l, b, p, s, run[h].post, run[h].res, amount);
    UndisturbedKept(l, b, p, s, run[h].post, run[h].res, addr);
    FundedFrom(l, b, p, s, run[h].post, run[h].res);
    TreasuryAt(s.kept, TreasuryShare(p, b.header.height), amount);
    TreasuryAt(s.kept, TreasuryShare(p, b.header.height), addr);
  }

  lemma FundedFrom(l: Ledger, b: Block, p: Params, s: Stages, l': Ledger, res: BlockResult)
    requires p.Valid() && StagesOf(l, b, p, s, l', res)
    ensures s.reward.Reward? && PayTreasury(s.kept, TreasuryShare(p, b.header.height)) == Some(s.funded)
    ensures s.paid == ReleaseCoinbase(s.funded, b.header.height % p.coinbaseMaturity, s.reward.burned) && s.paid.Paid?
    ensures res.matured == s.paid.matured && res.burned == s.paid.burned
    ensures s.funded.spent == l'.spent
  {
    hide FoldCerts, FoldOrder, Prologue, Bookkeeping, PruneSeen, RewardOf, TreasuryShare, PayTreasury, ReleaseCoinbase,
      RecordCoinbase, UpdateBaseFees;
    var index := b.header.height % p.coinbaseMaturity;
    ReleaseAt(s.funded, index, s.reward.burned, TreasurySlot());
    RecordAt(s.paid.ledger, index, b.header.emissionAddr, s.reward.miner, TreasurySlot());
    BaseFeesAt(s.recorded, b, p, s.t, s.seqBase, s.parBase, s.folded.seqApplied, s.folded.parApplied, TreasurySlot());
  }

  /** Coinbase maturity: block `h` settles the reward of block `h - maturity` and
      no other, crediting it whole to the payee that block named, or burning it
      whole when that payee's authority is gone. */
  lemma MaturesOnTime(run: seq<Step>, p: Params, h: nat) returns (s: Stages)
    requires p.Valid() && IsRun(run, p) && h < |run|
    ensures StagesOf(run[h].pre, run[h].block, p, s, run[h].post, run[h].res)
    ensures Released(s.funded, s.reward.burned, DueAt(run, p, h).0, DueAt(run, p, h).1, s.paid)
    ensures run[h].res.matured == s.paid.matured && run[h].res.burned == s.paid.burned
    ensures s.funded.spent == run[h].post.spent
  {
    hide Apply, BlockRule, StagesOf, Released, DueAt;
    assert StepOk(run, h, p);
    s := AcceptedStages(run[h].pre, run[h].block, p, true);
    RingAtRelease(run, p, h, s);
    FundedFrom(run[h].pre, run[h].block, p, s, run[h].post, run[h].res);
    ReleaseMeans(s.funded, h % p.coinbaseMaturity, s.reward.burned);
  }

  // -------------------------------------------------------- one bill per id

  ghost predicate SettledAt(run: seq<Step>, k: nat, i: nat, id: Hash) {
    && k < |run| && i < |run[k].res.outcomes|
    && run[k].res.outcomes[i].id == id
    && run[k].res.outcomes[i].outcome != Dropped
  }

  /** No two certificates of the run share an id while differing in TTL: a
      collision of the id hash, which commits to the TTL, would be needed. */
  ghost predicate IdsFixTtls(run: seq<Step>, p: Params) {
    forall k1, i1, k2, i2 ::
      0 <= k1 < |run| && 0 <= i1 < |run[k1].block.certs| && 0 <= k2 < |run| && 0 <= i2 < |run[k2].block.certs|
      && p.CertId(run[k1].block.certs[i1]) == p.CertId(run[k2].block.certs[i2]) ==>
        run[k1].block.certs[i1].ttl == run[k2].block.certs[i2].ttl
  }

  /** The seen set after a block, in terms of its outcomes. */
  lemma BlockSeen(l: Ledger, b: Block, p: Params, checkRoot: bool) returns (ordered: seq<Carried>, folded: map<Hash, u64>)
    requires p.Valid() && Apply(l, b, p, checkRoot).Accepted?
    requires RingPaysUsers(l)
    ensures ordered == FoldOrder(Carry(b.certs, p)) && AllAdmitted(l, b.header.height, p, ordered) && DistinctIds(ordered)
    ensures SeenTracks(l.seen, folded, ordered, Apply(l, b, p, checkRoot).res.outcomes)
    ensures
      var h := b.header.height;
      var seen := Apply(l, b, p, checkRoot).ledger.seen;
      forall id :: id in seen <==> id in folded && (h >= 1 ==> folded[id] >= h - 1)
    ensures forall id :: id in Apply(l, b, p, checkRoot).ledger.seen ==>
              id in folded && Apply(l, b, p, checkRoot).ledger.seen[id] == folded[id]
  {
    hide Apply, BlockRule, Prologue, FoldCerts, FoldOrder, Bookkeeping, RewardOf, PayTreasury, UpdateBaseFees,
      RecordCoinbase, ReleaseCoinbase, SeenTracks, Admitted, TreasuryShare;
    var r := Apply(l, b, p, checkRoot);
    var h := b.header.height;
    var s := AcceptedStages(l, b, p, checkRoot);
    var cc := Carry(b.certs, p);
    RulesGive(l, b, p);
    ordered := FoldOrder(cc);
    FoldOrderAdmitted(l, h, p, cc);
    FoldOrderDistinct(cc);
    AdmittedAreValid(l, h, p, ordered);
    PrologueAt(l, b, p, ProtocolSlot(SpentWord));
    AdmittedAreNew(l, h, p, ordered);
    FoldSeen(s.begun, ordered, p, s.seqBase, s.parBase);
    folded := s.folded.ledger.seen;
    BookkeepingAt(s.folded.ledger, b, p, s.folded.seqApplied, ProtocolSlot(SpentWord));
    RingKept(l, b, p, s, r.ledger, r.res);
    TailAt(l, b, p, s, r.ledger, r.res, ProtocolSlot(SpentWord));
  }

  lemma AdmittedAreNew(l: Ledger, h: u64, p: Params, cc: seq<Carried>)
    requires p.Valid() && AllAdmitted(l, h, p, cc)
    ensures forall i :: 0 <= i < |cc| ==> cc[i].id !in l.seen && h <= cc[i].cert.ttl
  {
    hide StatelessValid;
    forall i | 0 <= i < |cc|
      ensures cc[i].id !in l.seen && h <= cc[i].cert.ttl
    {
      assert Admitted(l, h, p, cc[i]);
    }
  }

  /** The certificate behind a recorded outcome. */
  lemma OutcomeCert(run: seq<Step>, p: Params, k: nat, i: nat, ordered: seq<Carried>) returns (j: nat)
    requires p.Valid() && k < |run| && ordered == FoldOrder(Carry(run[k].block.certs, p)) && i < |ordered|
    ensures j < |run[k].block.certs|
    ensures ordered[i] == Carried(run[k].block.certs[j], p.CertId(run[k].block.certs[j]))
  {
    hide FoldOrder;
    var cc := Carry(run[k].block.certs, p);
    FoldOrderBag(cc);
    assert ordered[i] in multiset(cc);
    j := IndexOf(cc, ordered[i]);
  }

  /** A settled id stays in the seen set for as long as its TTL could still let it
      back into a block. */
  lemma {:induction false} SettledIsRemembered(run: seq<Step>, p: Params, k: nat, i: nat, id: Hash, k2: nat, j2: nat, n: nat)
    requires p.Valid() && IsRun(run, p) && IdsFixTtls(run, p) && SettledAt(run, k, i, id) && k < n <= |run|
    requires k2 < |run| && j2 < |run[k2].block.certs| && p.CertId(run[k2].block.certs[j2]) == id
    ensures
      var ttl := run[k2].block.certs[j2].ttl;
      || (id in StateAt(run, n).seen && StateAt(run, n).seen[id] == ttl)
      || ttl + 2 < n
    decreases n
  {
    hide Apply, FoldOrder, Sound, Admitted, Carry;
    var h := n - 1;
    RunIsSound(run, p, h);
    assert StepOk(run, h, p);
    SoundRing(run[h].pre, p, h);
    var ordered, folded := BlockSeen(run[h].pre, run[h].block, p, true);
    if n == k + 1 {
      AdmittedAreNew(run[h].pre, h, p, ordered);
      var j := OutcomeCert(run, p, k, i, ordered);
      assert run[k].block.certs[j].ttl == run[k2].block.certs[j2].ttl;
    } else {
      SettledIsRemembered(run, p, k, i, id, k2, j2, n - 1);
    }
  }

  lemma SoundRing(l: Ledger, p: Params, h: nat)
    requires Sound(l, p, h)
    ensures RingPaysUsers(l)
  {
  }

  /** One signature, at most one bill: along any run an id settles at one place
      only, pruning notwithstanding. */
  lemma OneBill(run: seq<Step>, p: Params, k1: nat, i1: nat, k2: nat, i2: nat, id: Hash)
    requires p.Valid() && IsRun(run, p) && IdsFixTtls(run, p)
    requires SettledAt(run, k1, i1, id) && SettledAt(run, k2, i2, id) && k1 <= k2
    ensures k1 == k2 && i1 == i2
  {
    hide Apply, FoldOrder, Sound, Carry;
    RunIsSound(run, p, k2);
    assert StepOk(run, k2, p);
    SoundRing(run[k2].pre, p, k2);
    var ordered, folded := BlockSeen(run[k2].pre, run[k2].block, p, true);
    AdmittedAreNew(run[k2].pre, k2, p, ordered);
    if k1 < k2 {
      var j2 := OutcomeCert(run, p, k2, i2, ordered);
      SettledIsRemembered(run, p, k1, i1, id, k2, j2, k2);
    }
  }

  /** An id enters the seen set only by settling: a certificate that was only
      ever dropped can be submitted again. */
  lemma {:induction false} SeenWasSettled(run: seq<Step>, p: Params, n: nat, id: Hash) returns (k: nat, i: nat)
    requires p.Valid() && IsRun(run, p) && n <= |run| && id in StateAt(run, n).seen
    ensures k < n && SettledAt(run, k, i, id)
  {
    hide Apply, FoldOrder, Sound, Admitted, Carry;
    var h := n - 1;
    RunIsSound(run, p, h);
    assert StepOk(run, h, p);
    SoundRing(run[h].pre, p, h);
    var ordered, folded := BlockSeen(run[h].pre, run[h].block, p, true);
    if id in run[h].pre.seen {
      k, i := SeenWasSettled(run, p, h, id);
    } else {
      k := h;
      i :| 0 <= i < |ordered| && ordered[i].id == id && run[h].res.outcomes[i].outcome != Dropped;
    }
  }
}
