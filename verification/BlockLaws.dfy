/** What accepting one block means: the rules it satisfied, and the laws its
    fold obeyed. */
module BlockLaws {
  import opened U256
  import opened Types
  import opened Validity
  import opened Ledgers
  import opened Seqs
  import opened Fold
  import opened Derivation
  import opened CertLaws

  // ------------------------------------------------------ the rules, as facts

  /** What the per-certificate rules establish about one certificate. */
  predicate Admitted(l: Ledger, h: u64, p: Params, cy: Carried)
    requires p.Valid()
  {
    && StatelessValid(cy.cert, p)
    && h <= cy.cert.ttl
    && cy.cert.ttl - h <= p.ttlMax
    && cy.id !in l.seen
    && cy.cert.feeBid.seqMax >= RuleSeqBaseFee(l, p, h)
    && cy.cert.feeBid.parMax >= RuleParBaseFee(l, p, h)
  }

  predicate AllAdmitted(l: Ledger, h: u64, p: Params, cc: seq<Carried>)
    requires p.Valid()
  {
    forall i :: 0 <= i < |cc| ==> Admitted(l, h, p, cc[i])
  }

  predicate DistinctIds(cc: seq<Carried>) {
    forall i, j :: 0 <= i < j < |cc| ==> cc[i].id != cc[j].id
  }

  lemma {:induction false} CertsRuleMeans(l: Ledger, h: u64, p: Params, cc: seq<Carried>, n: nat)
    requires p.Valid() && n <= |cc|
    ensures CertsRule(l, h, p, cc, n).None? <==> AllAdmitted(l, h, p, cc[..n]) && DistinctIds(cc[..n])
  {
    hide StatelessFailure;
    if n > 0 {
      CertsRuleMeans(l, h, p, cc, n - 1);
      assert cc[..n] == cc[..n - 1] + [cc[n - 1]];
      assert CertRule(l, h, p, cc, n - 1).None? <==> Admitted(l, h, p, cc[n - 1]) && !DuplicateId(cc, n - 1);
    }
  }

  /** The per-certificate half of the block rules, in both directions. */
  lemma CertificateRulesMean(l: Ledger, b: Block, p: Params)
    requires p.Valid()
    ensures
      var cc := Carry(b.certs, p);
      CertsRule(l, b.header.height, p, cc, |cc|).None?
      <==> AllAdmitted(l, b.header.height, p, cc) && DistinctIds(cc)
  {
    var cc := Carry(b.certs, p);
    CertsRuleMeans(l, b.header.height, p, cc, |cc|);
    assert cc[..|cc|] == cc;
  }

  /** What the later theorems use of a block that broke no rule. */
  lemma RulesGive(l: Ledger, b: Block, p: Params)
    requires p.Valid() && BlockRule(l, b, p).None?
    ensures AllAdmitted(l, b.header.height, p, Carry(b.certs, p))
    ensures DistinctIds(Carry(b.certs, p))
    ensures CheckCites(l, b, p).None?
    ensures b.header.height > 0 ==> IsUser(b.header.emissionAddr)
    ensures b.header.height == 0 ==> b.certs == [] && b.header.emissionAddr == 0
    ensures |b.cites| <= p.maxCites
  {
    CertificateRulesMean(l, b, p);
    HeaderRulesGive(l, b, p);
  }

  lemma HeaderRulesGive(l: Ledger, b: Block, p: Params)
    requires p.Valid() && HeaderRule(l, b, p).None?
    ensures CheckCites(l, b, p).None?
    ensures b.header.height > 0 ==> IsUser(b.header.emissionAddr)
    ensures b.header.height == 0 ==> b.certs == [] && b.header.emissionAddr == 0
    ensures |b.cites| <= p.maxCites
  {
  }

  // ------------------------------------------------------------ fold order

  lemma {:induction false} InsertBag(sorted: seq<Carried>, x: Carried)
    ensures multiset(Insert(sorted, x)) == multiset(sorted) + multiset{x}
  {
    if sorted != [] && Before(x, sorted[|sorted| - 1]) {
      var n := |sorted| - 1;
      InsertBag(sorted[..n], x);
      assert sorted == sorted[..n] + [sorted[n]];
    }
  }

  /** Sorting loses no certificate and invents none. */
  lemma {:induction false} FoldOrderBag(cc: seq<Carried>)
    ensures multiset(FoldOrder(cc)) == multiset(cc)
  {
    hide Insert;
    if cc != [] {
      var n := |cc| - 1;
      FoldOrderBag(cc[..n]);
      InsertBag(FoldOrder(cc[..n]), cc[n]);
      assert cc == cc[..n] + [cc[n]];
    }
  }

  lemma FoldOrderAdmitted(l: Ledger, h: u64, p: Params, cc: seq<Carried>)
    requires p.Valid() && AllAdmitted(l, h, p, cc)
    ensures AllAdmitted(l, h, p, FoldOrder(cc))
  {
    hide Admitted, FoldOrder;
    var s := FoldOrder(cc);
    FoldOrderBag(cc);
    forall i | 0 <= i < |s|
      ensures Admitted(l, h, p, s[i])
    {
      EqualBagsEqualMembers(s, cc, s[i]);
      var j :| 0 <= j < |cc| && cc[j] == s[i];
    }
  }

  lemma {:induction false} DistinctIdsBag(a: seq<Carried>, b: seq<Carried>)
    requires multiset(a) == multiset(b) && DistinctIds(a)
    ensures DistinctIds(b)
  {
    forall i, j | 0 <= i < j < |b|
      ensures b[i].id != b[j].id
    {
      DistinctPair(a, b, i, j);
    }
  }

  /** Two positions of a permutation come from two positions of the original. */
  lemma DistinctPair(a: seq<Carried>, b: seq<Carried>, i: nat, j: nat)
    requires multiset(a) == multiset(b) && DistinctIds(a) && i < j < |b|
    ensures b[i].id != b[j].id
  {
    EqualBagsEqualMembers(a, b, b[i]);
    var x := IndexOf(a, b[i]);
    BagWithout(a, x);
    BagWithout(b, i);
    var rest := Without(b, i);
    assert rest[j - 1] == b[j];
    assert b[j] in multiset(rest);
    var y := IndexOf(Without(a, x), b[j]);
    if y < x {
      assert Without(a, x)[y] == a[y];
    } else {
      assert Without(a, x)[y] == a[y + 1];
    }
  }

  lemma FoldOrderDistinct(cc: seq<Carried>)
    requires DistinctIds(cc)
    ensures DistinctIds(FoldOrder(cc))
  {
    FoldOrderBag(cc);
    DistinctIdsBag(cc, FoldOrder(cc));
  }

  // --------------------------------------------- the certificates, together

  predicate AllValid(cc: seq<Carried>, p: Params)
    requires p.Valid()
  {
    forall i :: 0 <= i < |cc| ==> StatelessValid(cc[i].cert, p)
  }

  lemma AdmittedAreValid(l: Ledger, h: u64, p: Params, cc: seq<Carried>)
    requires p.Valid() && AllAdmitted(l, h, p, cc)
    ensures AllValid(cc, p)
  {
    hide StatelessValid;
    forall i | 0 <= i < |cc|
      ensures StatelessValid(cc[i].cert, p)
    {
      assert Admitted(l, h, p, cc[i]);
    }
  }

  /** What `FoldOne` does, in terms of the certificate's own result. */
  lemma FoldOneIs(g: Progress, cy: Carried, p: Params, seqBase: u256, parBase: u256)
    requires g.Running?
    ensures
      var r := ApplyCertificate(g.ledger, cy.cert, cy.id, p, seqBase, parBase, g.burned);
      var g' := FoldOne(g, cy, p, seqBase, parBase);
      g'.Running? ==>
        && r.CertSettled?
        && g'.ledger == r.ledger && g'.burned == r.burned && g'.tips == g.tips + r.tip
        && g'.outcomes == g.outcomes + [r.out]
  {
    hide ApplyCertificate, Params.SeqGas, Params.ParGas, Wrap64;
  }

  /** The certificates of a block neither make nor lose native coin: what leaves
      the cells is burned or tipped. */
  lemma {:induction false} FoldConserves(l: Ledger, cc: seq<Carried>, p: Params, seqBase: u256, parBase: u256, maturity: nat)
    requires p.Valid() && AllValid(cc, p)
    ensures
      var g := FoldCerts(l, cc, p, seqBase, parBase);
      g.Running? ==> Total(g.ledger.cells, Native(maturity)) + g.burned + g.tips == Total(l.cells, Native(maturity))
  {
    hide FoldOne, StatelessValid, ApplyCertificate, Total;
    if cc != [] {
      var n := |cc| - 1;
      FoldConserves(l, cc[..n], p, seqBase, parBase, maturity);
      var g := FoldCerts(l, cc[..n], p, seqBase, parBase);
      if g.Running? {
        FoldOneIs(g, cc[n], p, seqBase, parBase);
        CertConserves(g.ledger, cc[n].cert, cc[n].id, p, seqBase, parBase, g.burned, Native(maturity));
      }
    }
  }

  /** Across a block's certificates a sealed cell keeps its value and the
      registry only grows, and only by one-shot addresses. */
  lemma {:induction false} FoldFrame(l: Ledger, cc: seq<Carried>, p: Params, seqBase: u256, parBase: u256, slot: Slot)
    requires p.Valid() && AllValid(cc, p) && Sealed(l, slot)
    ensures
      var g := FoldCerts(l, cc, p, seqBase, parBase);
      g.Running? ==>
        && g.ledger.Get(slot) == l.Get(slot)
        && l.spent <= g.ledger.spent
        && (forall a :: a in g.ledger.spent ==> a in l.spent || IsOneShot(a))
  {
    hide FoldOne, StatelessValid, ApplyCertificate;
    if cc != [] {
      var n := |cc| - 1;
      FoldFrame(l, cc[..n], p, seqBase, parBase, slot);
      var g := FoldCerts(l, cc[..n], p, seqBase, parBase);
      if g.Running? {
        FoldOneIs(g, cc[n], p, seqBase, parBase);
        CertFrame(g.ledger, cc[n].cert, cc[n].id, p, seqBase, parBase, g.burned, slot);
        MarkedAreOneShot(cc[n].cert, p);
      }
    }
  }

  /** The same frame, measured from any point inside the block: whatever is
      sealed after the first `n` certificates stays as it is to the last. */
  lemma {:induction false} FoldFrameFrom(l: Ledger, cc: seq<Carried>, n: nat, p: Params, seqBase: u256, parBase: u256, slot: Slot)
    requires p.Valid() && AllValid(cc, p) && n <= |cc|
    requires FoldCerts(l, cc, p, seqBase, parBase).Running?
    ensures
      var mid := FoldCerts(l, cc[..n], p, seqBase, parBase);
      var end := FoldCerts(l, cc, p, seqBase, parBase);
      && mid.Running?
      && mid.ledger.spent <= end.ledger.spent
      && (Sealed(mid.ledger, slot) ==> end.ledger.Get(slot) == mid.ledger.Get(slot))
    decreases |cc|
  {
    hide FoldOne, StatelessValid, ApplyCertificate;
    if n == |cc| {
      assert cc[..n] == cc;
    } else {
      var k := |cc| - 1;
      assert cc[..k][..n] == cc[..n];
      FoldFrameFrom(l, cc[..k], n, p, seqBase, parBase, slot);
      var g := FoldCerts(l, cc[..k], p, seqBase, parBase);
      FoldOneIs(g, cc[k], p, seqBase, parBase);
      CertFrame(g.ledger, cc[k].cert, cc[k].id, p, seqBase, parBase, g.burned, ProtocolSlot(SpentWord));
      if Sealed(g.ledger, slot) {
        CertFrame(g.ledger, cc[k].cert, cc[k].id, p, seqBase, parBase, g.burned, slot);
      }
    }
  }

  lemma MarkedAreOneShot(c: Certificate, p: Params)
    requires p.Valid() && StatelessValid(c, p)
    ensures forall a :: a in MarkedAddrs(c.writes) ==> IsOneShot(a)
  {
    hide StatelessValid;
    ValidIsTame(c, p);
    forall a | a in MarkedAddrs(c.writes)
      ensures IsOneShot(a)
    {
      var w :| w in c.writes && w.op.OpMarkSpent? && w.slot.addr == a;
      assert WriteShape(w);
    }
  }

  /** How one certificate's record relates to the seen set around it. */
  ghost predicate SeenTracks(before: map<Hash, u64>, after: map<Hash, u64>, cc: seq<Carried>, outcomes: seq<CertOutcome>) {
    && |outcomes| == |cc|
    && (forall i :: 0 <= i < |cc| ==> outcomes[i].id == cc[i].id)
    && (forall i :: 0 <= i < |cc| && outcomes[i].outcome != Dropped ==>
          cc[i].id in after && after[cc[i].id] == cc[i].cert.ttl)
    && (forall id :: id in before ==> id in after && after[id] == before[id])
    && (forall id :: id in after && id !in before ==>
          exists i :: 0 <= i < |cc| && cc[i].id == id && outcomes[i].outcome != Dropped)
  }

  lemma SeenTracksStep(before: map<Hash, u64>, mid: map<Hash, u64>, after: map<Hash, u64>,
                       cc: seq<Carried>, outcomes: seq<CertOutcome>, cy: Carried, out: CertOutcome)
    requires SeenTracks(before, mid, cc, outcomes) && DistinctIds(cc + [cy]) && cy.id !in before
    requires out.id == cy.id
    requires after == if out.outcome == Dropped || cy.id in mid then mid else mid[cy.id := cy.cert.ttl]
    ensures SeenTracks(before, after, cc + [cy], outcomes + [out])
  {
    var n := |cc|;
    assert (cc + [cy])[n] == cy && (outcomes + [out])[n] == out;
    forall i | 0 <= i < n
      ensures cc[i].id != cy.id
    {
      assert (cc + [cy])[i] == cc[i];
    }
    assert cy.id !in mid;
    forall id | id in after && id !in before
      ensures exists i :: 0 <= i < n + 1 && (cc + [cy])[i].id == id && (outcomes + [out])[i].outcome != Dropped
    {
      if id in mid {
        var i :| 0 <= i < n && cc[i].id == id && outcomes[i].outcome != Dropped;
        assert (cc + [cy])[i] == cc[i] && (outcomes + [out])[i] == outcomes[i];
      } else {
        assert (cc + [cy])[n].id == id && (outcomes + [out])[n].outcome != Dropped;
      }
    }
  }

  /** Every certificate is recorded in order; the settled ones, and only those,
      enter the seen set with their own TTL. */
  lemma {:induction false} FoldSeen(l: Ledger, cc: seq<Carried>, p: Params, seqBase: u256, parBase: u256)
    requires p.Valid() && AllValid(cc, p) && DistinctIds(cc)
    requires forall i :: 0 <= i < |cc| ==> cc[i].id !in l.seen
    ensures
      var g := FoldCerts(l, cc, p, seqBase, parBase);
      g.Running? ==> SeenTracks(l.seen, g.ledger.seen, cc, g.outcomes)
  {
    hide FoldOne, StatelessValid, ApplyCertificate, SeenTracks;
    if cc == [] {
      SeenTracksNothing(l.seen);
    } else {
      var n := |cc| - 1;
      FoldSeen(l, cc[..n], p, seqBase, parBase);
      var g := FoldCerts(l, cc[..n], p, seqBase, parBase);
      if g.Running? {
        FoldOneIs(g, cc[n], p, seqBase, parBase);
        CertFrame(g.ledger, cc[n].cert, cc[n].id, p, seqBase, parBase, g.burned, ProtocolSlot(SpentWord));
        assert cc == cc[..n] + [cc[n]];
        var r := ApplyCertificate(g.ledger, cc[n].cert, cc[n].id, p, seqBase, parBase, g.burned);
        if r.CertSettled? {
          SeenTracksStep(l.seen, g.ledger.seen, r.ledger.seen, cc[..n], g.outcomes, cc[n], r.out);
        }
      }
    }
  }

  lemma SeenTracksNothing(m: map<Hash, u64>)
    ensures SeenTracks(m, m, [], [])
  {
  }

  // --------------------------------------------------- the stages of a block

  /** An accepted block, taken apart: the intermediate values of `Apply`. */
  datatype Stages = Stages(
    t: u64, begun: Ledger, seqBase: u256, parBase: u256, folded: Progress, kept: Ledger,
    reward: Reward, funded: Ledger, paid: Paid, recorded: Ledger)

  ghost predicate StagesOf(l: Ledger, b: Block, p: Params, s: Stages, l': Ledger, res: BlockResult)
    requires p.Valid()
  {
    var h := b.header.height;
    && s.t == CurrentSeqGasTarget(l, p, h)
    && s.begun == Prologue(l, b, p)
    && s.seqBase == s.begun.Get(ProtocolSlot(SeqBaseFee))
    && s.parBase == s.begun.Get(ProtocolSlot(ParBaseFee))
    && s.folded == FoldCerts(s.begun, FoldOrder(Carry(b.certs, p)), p, s.seqBase, s.parBase)
    && s.folded.Running?
    && s.folded.seqUsed <= p.SeqGasBurst(s.t)
    && BurstWellDefined(s.folded.seqUsed, p.SeqGasLimit(s.t))
    && s.kept == PruneSeen(Bookkeeping(s.folded.ledger, b, p, s.folded.seqApplied), h)
    && s.reward == RewardOf(p, h, s.folded.tips, s.folded.burned, s.folded.seqUsed, p.SeqGasLimit(s.t))
    && s.reward.Reward?
    && PayTreasury(s.kept, TreasuryShare(p, h)) == Some(s.funded)
    && s.paid == ReleaseCoinbase(s.funded, h % p.coinbaseMaturity, s.reward.burned)
    && s.paid.Paid?
    && s.recorded == RecordCoinbase(s.paid.ledger, h % p.coinbaseMaturity, b.header.emissionAddr, s.reward.miner)
    && l' == UpdateBaseFees(s.recorded, b, p, s.t, s.seqBase, s.parBase, s.folded.seqApplied, s.folded.parApplied)
    && res.outcomes == s.folded.outcomes
    && res.seqGasUsed == s.folded.seqUsed
    && res.parGasUsed == s.folded.parUsed
    && res.seqGasApplied == s.folded.seqApplied
    && res.parGasApplied == s.folded.parApplied
    && res.burned == s.paid.burned
    && res.minerReward == s.reward.miner
    && res.treasury == TreasuryShare(p, h)
    && res.matured == s.paid.matured
  }

  lemma AcceptedStages(l: Ledger, b: Block, p: Params, checkRoot: bool) returns (s: Stages)
    requires p.Valid() && Apply(l, b, p, checkRoot).Accepted?
    ensures BlockRule(l, b, p).None?
    ensures StagesOf(l, b, p, s, Apply(l, b, p, checkRoot).ledger, Apply(l, b, p, checkRoot).res)
  {
    hide BlockRule, Prologue, FoldCerts, FoldOrder, Bookkeeping, PruneSeen, RewardOf, PayTreasury, ReleaseCoinbase,
      RecordCoinbase, UpdateBaseFees, TreasuryShare, CurrentSeqGasTarget, Wrap64;
    var h := b.header.height;
    var t := CurrentSeqGasTarget(l, p, h);
    var l1 := Prologue(l, b, p);
    var seqBase := l1.Get(ProtocolSlot(SeqBaseFee));
    var parBase := l1.Get(ProtocolSlot(ParBaseFee));
    var g := FoldCerts(l1, FoldOrder(Carry(b.certs, p)), p, seqBase, parBase);
    UsedWithinBurst(l, b, p, l1, seqBase, parBase);
    var kept := PruneSeen(Bookkeeping(g.ledger, b, p, g.seqApplied), h);
    var reward := RewardOf(p, h, g.tips, g.burned, g.seqUsed, p.SeqGasLimit(t));
    var funded := PayTreasury(kept, TreasuryShare(p, h)).value;
    var paid := ReleaseCoinbase(funded, h % p.coinbaseMaturity, reward.burned);
    var recorded := RecordCoinbase(paid.ledger, h % p.coinbaseMaturity, b.header.emissionAddr, reward.miner);
    s := Stages(t, l1, seqBase, parBase, g, kept, reward, funded, paid, recorded);
  }
}
