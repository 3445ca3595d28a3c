/** The epoch controller sees exactly its epoch: at every boundary the sample ring
    and the citation count describe the blocks of the epoch just ended, and no
    other. */
module Epochs {
  import opened U256
  import opened Types
  import opened Ledgers
  import opened Seqs
  import opened Medians
  import opened Fold
  import opened CertLaws
  import opened BlockLaws
  import opened Conservation
  import opened BlockFrames
  import opened Runs

  // ------------------------------------------------------ one block's books

  /** A bookkeeping cell after a block, from the ledger the books were kept on. */
  lemma BookCellAfter(l: Ledger, b: Block, p: Params, checkRoot: bool, w: Word) returns (s: Stages)
    requires p.Valid() && Apply(l, b, p, checkRoot).Accepted? && RingPaysUsers(l) && BookWord(w)
    ensures StagesOf(l, b, p, s, Apply(l, b, p, checkRoot).ledger, Apply(l, b, p, checkRoot).res)
    ensures s.folded.Running?
    ensures s.folded.ledger.Get(ProtocolSlot(w)) == Prologue(l, b, p).Get(ProtocolSlot(w))
    ensures Apply(l, b, p, checkRoot).ledger.Get(ProtocolSlot(w))
            == Bookkeeping(s.folded.ledger, b, p, s.folded.seqApplied).Get(ProtocolSlot(w))
  {
    hide Apply, BlockRule, StagesOf, Prologue, Bookkeeping;
    var r := Apply(l, b, p, checkRoot);
    s := AcceptedStages(l, b, p, checkRoot);
    BegunIs(l, b, p, s, r.ledger, r.res);
    FoldedIs(l, b, p, s, r.ledger, r.res);
    KeptAt(l, b, p, s, r.ledger, r.res, ProtocolSlot(w));
    PruneAt(Bookkeeping(s.folded.ledger, b, p, s.folded.seqApplied), b.header.height, ProtocolSlot(w));
    RingKept(l, b, p, s, r.ledger, r.res);
    TailAt(l, b, p, s, r.ledger, r.res, ProtocolSlot(w));
  }

  lemma BookkeepingSample(l: Ledger, b: Block, p: Params, seqApplied: u64, i: nat)
    requires p.Valid()
    ensures Bookkeeping(l, b, p, seqApplied).Get(ProtocolSlot(AppliedGasSample(i)))
            == if i == b.header.height % p.epochLength then seqApplied else l.Get(ProtocolSlot(AppliedGasSample(i)))
  {
    hide Wrap64;
  }

  lemma BookkeepingCount(l: Ledger, b: Block, p: Params, seqApplied: u64)
    requires p.Valid()
    ensures Bookkeeping(l, b, p, seqApplied).Get(ProtocolSlot(CitedCount))
            == if b.cites == [] then l.Get(ProtocolSlot(CitedCount))
               else Wrap64(Wrap64(l.Get(ProtocolSlot(CitedCount))) + |b.cites|)
  {
    hide Wrap64;
  }

  lemma SampleAfter(l: Ledger, b: Block, p: Params, checkRoot: bool, i: nat)
    requires p.Valid() && Apply(l, b, p, checkRoot).Accepted? && RingPaysUsers(l)
    ensures
      var r := Apply(l, b, p, checkRoot);
      r.ledger.Get(ProtocolSlot(AppliedGasSample(i)))
      == if i == b.header.height % p.epochLength then r.res.seqGasApplied else l.Get(ProtocolSlot(AppliedGasSample(i)))
  {
    hide Apply, Prologue, Bookkeeping, FoldCerts, FoldOrder, PruneSeen, RewardOf, PayTreasury, ReleaseCoinbase,
      RecordCoinbase, UpdateBaseFees;
    var s := BookCellAfter(l, b, p, checkRoot, AppliedGasSample(i));
    PrologueAt(l, b, p, ProtocolSlot(AppliedGasSample(i)));
    BookkeepingSample(s.folded.ledger, b, p, s.folded.seqApplied, i);
  }

  lemma PrologueCited(l: Ledger, b: Block, p: Params)
    requires p.Valid()
    ensures Prologue(l, b, p).Get(ProtocolSlot(CitedCount))
            == if p.IsEpochBoundary(b.header.height) && b.header.height > 0 then 0 else l.Get(ProtocolSlot(CitedCount))
  {
    hide LowerMedian, Healthy, Params.NextSeqGasTarget, Quot;
  }

  lemma CitedAfter(l: Ledger, b: Block, p: Params, checkRoot: bool, before: nat)
    requires p.Valid() && Apply(l, b, p, checkRoot).Accepted? && RingPaysUsers(l)
    requires l.Get(ProtocolSlot(CitedCount)) == Wrap64(before)
    ensures
      var h := b.header.height;
      var base := if p.IsEpochBoundary(h) && h > 0 then 0 else before;
      Apply(l, b, p, checkRoot).ledger.Get(ProtocolSlot(CitedCount)) == Wrap64(base + |b.cites|)
  {
    hide Apply, Prologue, Bookkeeping, StagesOf, Wrap64, Params.IsEpochBoundary, Params.Valid;
    WrapZero();
    var h := b.header.height;
    var base := if p.IsEpochBoundary(h) && h > 0 then 0 else before;
    var s := BookCellAfter(l, b, p, checkRoot, CitedCount);
    PrologueCited(l, b, p);
    BookkeepingCount(s.folded.ledger, b, p, s.folded.seqApplied);
    CountStep(base, |b.cites|);
  }

  lemma CountStep(base: nat, n: nat)
    ensures (if n == 0 then Wrap64(base) else Wrap64(Wrap64(Wrap64(base)) + n)) == Wrap64(base + n)
  {
    WrapTwice(base);
    WrapAbsorbs(base, n);
  }

  // ------------------------------------------------------------ the samples

  /** The applied gas of the latest block before `n` at ring position `i`. */
  function SampleAt(run: seq<Step>, p: Params, n: nat, i: nat): u64
    requires p.Valid() && n <= |run|
  {
    if n == 0 then 0
    else if (n - 1) % p.epochLength == i then run[n - 1].res.seqGasApplied
    else SampleAt(run, p, n - 1, i)
  }

  lemma {:induction false} SamplesHold(run: seq<Step>, p: Params, n: nat, i: nat)
    requires p.Valid() && IsRun(run, p) && n <= |run|
    ensures StateAt(run, n).Get(ProtocolSlot(AppliedGasSample(i))) == SampleAt(run, p, n, i)
  {
    hide Apply, Sound;
    if n > 0 {
      SamplesHold(run, p, n - 1, i);
      RunIsSound(run, p, n - 1);
      assert StepOk(run, n - 1, p);
      SoundRing(run[n - 1].pre, p, n - 1);
      SampleAfter(run[n - 1].pre, run[n - 1].block, p, true, i);
    }
  }

  lemma {:induction false} SampleSurvives(run: seq<Step>, p: Params, n: nat, k: nat)
    requires p.Valid() && n <= |run| && k < n <= k + p.epochLength
    ensures SampleAt(run, p, n, k % p.epochLength) == run[k].res.seqGasApplied
    decreases n
  {
    if n > k + 1 {
      ModDiffers(k, n - 1, p.epochLength);
      SampleSurvives(run, p, n - 1, k);
    }
  }

  /** The applied gas of blocks `lo .. lo + n - 1`. */
  function AppliedGas(run: seq<Step>, lo: nat, n: nat): seq<u64>
    requires lo + n <= |run|
  {
    if n == 0 then [] else AppliedGas(run, lo, n - 1) + [run[lo + n - 1].res.seqGasApplied]
  }

  lemma BoundaryPosition(h: nat, i: nat, length: nat)
    requires length > 0 && h % length == 0 && h >= length && i < length
    ensures (h - length + i) % length == i
  {
    assert h == length * (h / length);
    assert h - length + i == length * (h / length - 1) + i;
    ResidueUnique(h - length + i, length, h / length - 1, i);
  }

  /** Position i holds the sample of the epoch's block i. */
  lemma SampleOfEpoch(run: seq<Step>, p: Params, h: nat, i: nat)
    requires p.Valid() && IsRun(run, p) && h <= |run| && i < p.epochLength <= h && h % p.epochLength == 0
    ensures StateAt(run, h).Get(ProtocolSlot(AppliedGasSample(i))) == run[h - p.epochLength + i].res.seqGasApplied
  {
    hide Apply, IsRun, SampleAt;
    SamplesHold(run, p, h, i);
    BoundaryPosition(h, i, p.epochLength);
    SampleSurvives(run, p, h, h - p.epochLength + i);
  }

  lemma {:induction false} RingIsEpoch(run: seq<Step>, p: Params, h: nat, l: Ledger, n: nat)
    requires p.Valid() && IsRun(run, p) && h <= |run| && n <= p.epochLength <= h && h % p.epochLength == 0
    requires forall i :: 0 <= i < p.epochLength ==>
               l.Get(ProtocolSlot(AppliedGasSample(i))) == StateAt(run, h).Get(ProtocolSlot(AppliedGasSample(i)))
    ensures Samples(l, n) == AppliedGas(run, h - p.epochLength, n)
  {
    hide Apply, IsRun, SampleAt;
    if n > 0 {
      RingIsEpoch(run, p, h, l, n - 1);
      SampleOfEpoch(run, p, h, n - 1);
    }
  }

  // ---------------------------------------------------------- the citations

  function CiteCount(run: seq<Step>, lo: nat, hi: nat): nat
    requires lo <= hi <= |run|
  {
    if lo == hi then 0 else CiteCount(run, lo, hi - 1) + |run[hi - 1].block.cites|
  }

  /** The first block of the epoch that block `n - 1` belongs to. */
  function EpochStart(p: Params, n: nat): (lo: nat)
    requires p.Valid()
    ensures lo <= n
  {
    if n == 0 then 0 else if (n - 1) % p.epochLength == 0 then n - 1 else EpochStart(p, n - 1)
  }

  /** The count cell is the citations of the epoch in progress. */
  lemma {:induction false} CitedHolds(run: seq<Step>, p: Params, n: nat)
    requires p.Valid() && IsRun(run, p) && n <= |run|
    ensures StateAt(run, n).Get(ProtocolSlot(CitedCount)) == Wrap64(CiteCount(run, EpochStart(p, n), n))
  {
    hide Apply, Sound, Wrap64;
    if n == 0 {
      WrapZero();
    } else {
      CitedHolds(run, p, n - 1);
      RunIsSound(run, p, n - 1);
      assert StepOk(run, n - 1, p);
      SoundRing(run[n - 1].pre, p, n - 1);
      var before := CiteCount(run, EpochStart(p, n - 1), n - 1);
      CitedAfter(run[n - 1].pre, run[n - 1].block, p, true, before);
    }
  }

  lemma {:induction false} EpochStartIs(p: Params, n: nat, k: nat)
    requires p.Valid() && k % p.epochLength == 0 && k < n <= k + p.epochLength
    ensures EpochStart(p, n) == k
    decreases n
  {
    if n > k + 1 {
      ModDiffers(k, n - 1, p.epochLength);
      EpochStartIs(p, n - 1, k);
    }
  }

  /** Every header cited by blocks `lo .. hi - 1`. */
  ghost function CitedHeaders(run: seq<Step>, lo: nat, hi: nat): set<Header>
    requires lo <= hi <= |run|
  {
    if lo == hi then {} else CitedHeaders(run, lo, hi - 1) + Elements(run[hi - 1].block.cites)
  }

  lemma {:induction false} CitesRuleGives(l: Ledger, b: Block, p: Params, n: nat)
    requires n <= |b.cites| && b.header.height > 1 && CitesRule(l, b, p, n).None?
    ensures forall i :: 0 <= i < n ==> b.cites[i].height == b.header.height - 1
    ensures forall i, j :: 0 <= i < j < n ==> p.headerHash(b.cites[i]) < p.headerHash(b.cites[j])
  {
    if n > 0 {
      CitesRuleGives(l, b, p, n - 1);
      assert CiteRule(l, b, p, n - 1).None?;
    }
  }

  lemma {:induction false} DistinctSeqSize(s: seq<Header>)
    requires forall i, j :: 0 <= i < j < |s| ==> s[i] != s[j]
    ensures |Elements(s)| == |s|
  {
    if s == [] {
      assert Elements(s) == {};
    } else {
      var n := |s| - 1;
      DistinctSeqSize(s[..n]);
      assert s == s[..n] + [s[n]];
      assert Elements(s) == Elements(s[..n]) + {s[n]};
    }
  }

  /** C1 and C5: a block's citations are pairwise distinct headers, all of the
      height just below it. */
  lemma BlockCites(run: seq<Step>, p: Params, k: nat)
    requires p.Valid() && IsRun(run, p) && k < |run|
    ensures |Elements(run[k].block.cites)| == |run[k].block.cites|
    ensures forall c :: c in run[k].block.cites ==> k > 1 && c.height == k - 1
  {
    hide Apply, BlockRule, StagesOf;
    assert StepOk(run, k, p);
    var _ := AcceptedStages(run[k].pre, run[k].block, p, true);
    RulesGive(run[k].pre, run[k].block, p);
    var b := run[k].block;
    if k > 1 {
      CitesRuleGives(run[k].pre, b, p, |b.cites|);
    }
    DistinctSeqSize(b.cites);
  }

  /** Citations counted are headers counted: no header is cited twice in an epoch. */
  lemma {:induction false} CitationsAreDistinct(run: seq<Step>, p: Params, lo: nat, hi: nat)
    requires p.Valid() && IsRun(run, p) && lo <= hi <= |run|
    ensures |CitedHeaders(run, lo, hi)| == CiteCount(run, lo, hi)
    ensures forall c :: c in CitedHeaders(run, lo, hi) ==> c.height + 1 < hi
  {
    hide IsRun;
    if lo < hi {
      CitationsAreDistinct(run, p, lo, hi - 1);
      BlockCites(run, p, hi - 1);
      var here := Elements(run[hi - 1].block.cites);
      assert CitedHeaders(run, lo, hi - 1) !! here;
    }
  }

  // ------------------------------------------------- what a citation names

  lemma BookkeepingParent(l: Ledger, b: Block, p: Params, seqApplied: u64)
    requires p.Valid()
    ensures
      var l' := Bookkeeping(l, b, p, seqApplied);
      && l'.Get(ProtocolSlot(PrevParentId)) == b.header.parentId
      && l'.Get(ProtocolSlot(PrevTarget)) == b.header.target
  {
    hide Wrap64;
  }

  /** The two cells the citation rules read are the last block's own parent and
      target. */
  lemma ParentHolds(run: seq<Step>, p: Params, n: nat)
    requires p.Valid() && IsRun(run, p) && 0 < n <= |run|
    ensures StateAt(run, n).Get(ProtocolSlot(PrevParentId)) == run[n - 1].block.header.parentId
    ensures StateAt(run, n).Get(ProtocolSlot(PrevTarget)) == run[n - 1].block.header.target
  {
    hide Apply, Sound, StagesOf, Prologue, Bookkeeping;
    var k := n - 1;
    RunIsSound(run, p, k);
    assert StepOk(run, k, p);
    SoundRing(run[k].pre, p, k);
    var s := BookCellAfter(run[k].pre, run[k].block, p, true, PrevParentId);
    BookkeepingParent(s.folded.ledger, run[k].block, p, s.folded.seqApplied);
    s := BookCellAfter(run[k].pre, run[k].block, p, true, PrevTarget);
    BookkeepingParent(s.folded.ledger, run[k].block, p, s.folded.seqApplied);
  }

  /** A sibling of the block's parent: one height down, with the parent's own parent
      and target, and not the header the block names as its parent. */
  ghost predicate Sibling(cited: Header, parent: Header, b: Header, p: Params) {
    && cited.version == HEADER_VERSION
    && cited.height == parent.height && cited.parentId == parent.parentId && cited.target == parent.target
    && p.headerHash(cited) != b.parentId
  }

  lemma {:induction false} CitesRuleMeans(l: Ledger, b: Block, p: Params, n: nat)
    requires n <= |b.cites| && b.header.height > 1
    ensures CitesRule(l, b, p, n).None? <==>
              && (forall i :: 0 <= i < n ==>
                    && b.cites[i].version == HEADER_VERSION
                    && b.cites[i].height == b.header.height - 1
                    && b.cites[i].parentId == l.Get(ProtocolSlot(PrevParentId))
                    && b.cites[i].target == l.Get(ProtocolSlot(PrevTarget))
                    && p.headerHash(b.cites[i]) != b.header.parentId)
              && (forall i :: 0 < i < n ==> p.headerHash(b.cites[i - 1]) < p.headerHash(b.cites[i]))
  {
    if n > 0 {
      CitesRuleMeans(l, b, p, n - 1);
    }
  }

  /** Along every run every citation names a sibling of the citing block's parent; no
      block cites before height 2. */
  lemma CitesAreSiblings(run: seq<Step>, p: Params, k: nat, i: nat)
    requires p.Valid() && IsRun(run, p) && k < |run| && i < |run[k].block.cites|
    ensures k > 1 && Sibling(run[k].block.cites[i], run[k - 1].block.header, run[k].block.header, p)
    ensures run[k].block.header.parentId == p.headerHash(run[k - 1].block.header) ==>
              run[k].block.cites[i] != run[k - 1].block.header
  {
    hide Apply, BlockRule, StagesOf;
    assert StepOk(run, k, p);
    var s := AcceptedStages(run[k].pre, run[k].block, p, true);
    RulesGive(run[k].pre, run[k].block, p);
    if k > 1 {
      assert StepOk(run, k - 1, p);
      CitesRuleMeans(run[k].pre, run[k].block, p, |run[k].block.cites|);
      ParentHolds(run, p, k);
    }
  }

  // ------------------------------------------------------------- the theorem

  lemma BeaconKeepsBooks(l: Ledger, b: Block, p: Params, w: Word)
    requires p.Valid() && w !in {BeaconEpoch, BeaconHeight, BeaconEntropy}
    ensures WriteBeacon(l, b, p).Get(ProtocolSlot(w)) == l.Get(ProtocolSlot(w))
  {
    hide Quot;
  }

  /** At every boundary above genesis the controller moves the target by the lower
      median of the applied gas of exactly the last epoch's blocks, gated on the
      number of distinct headers those blocks cited. */
  lemma ControllerSeesItsEpoch(run: seq<Step>, p: Params, h: nat) returns (median: u64)
    requires p.Valid() && IsRun(run, p) && 0 < h < |run| && h % p.epochLength == 0
    ensures p.epochLength <= h
    ensures HasRank(AppliedGas(run, h - p.epochLength, p.epochLength), median, (p.epochLength - 1) / 2)
    ensures
      var cited := Wrap64(|CitedHeaders(run, h - p.epochLength, h)|);
      var healthy := Product(cited, 10000) <= Product(p.healthGateBps, p.epochLength);
      run[h].post.Get(ProtocolSlot(SeqGasTarget))
      == p.NextSeqGasTarget(Wrap64(run[h].pre.Get(ProtocolSlot(SeqGasTarget))), Wrap64(2 * median), healthy)
  {
    hide Apply, Sound, Prologue, Wrap64, Product, Params.NextSeqGasTarget, Sorted, WriteBeacon;
    var length := p.epochLength;
    BoundaryBeyond(h, length);
    assert StepOk(run, h, p);
    RunIsSound(run, p, h);
    SoundRing(run[h].pre, p, h);
    var l := WriteBeacon(run[h].pre, run[h].block, p);
    forall i | 0 <= i < length
      ensures l.Get(ProtocolSlot(AppliedGasSample(i))) == StateAt(run, h).Get(ProtocolSlot(AppliedGasSample(i)))
    {
      BeaconKeepsBooks(run[h].pre, run[h].block, p, AppliedGasSample(i));
    }
    BeaconKeepsBooks(run[h].pre, run[h].block, p, CitedCount);
    RingIsEpoch(run, p, h, l, length);
    SamplesLength(l, length);
    median := LowerMedian(l, p);
    SortedHasRank(Samples(l, length), (length - 1) / 2);
    CitedHolds(run, p, h);
    PreviousBoundary(h, length);
    EpochStartIs(p, h, h - length);
    CitationsAreDistinct(run, p, h - length, h);
    WrapTwice(|CitedHeaders(run, h - length, h)|);
    TargetAfter(run[h].pre, run[h].block, p, true);
    PrologueTarget(run[h].pre, run[h].block, p);
  }

  lemma WrapTwice(n: nat)
    ensures Wrap64(Wrap64(n)) == Wrap64(n)
  {
  }

  lemma BoundaryBeyond(h: nat, length: nat)
    requires length > 0 && h > 0 && h % length == 0
    ensures length <= h
  {
    if h < length {
      SmallMod(h, length);
    }
  }

  lemma PreviousBoundary(h: nat, length: nat)
    requires 0 < length <= h && h % length == 0
    ensures (h - length) % length == 0
  {
    BoundaryPosition(h, 0, length);
  }
}
