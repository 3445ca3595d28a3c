/** F1 erases the proposer's interleaving: the fold order of a valid block is a
    function of the set of its certificates. */
module FoldOrders {
  import opened U256
  import opened Types
  import opened Validity
  import opened Ledgers
  import opened Seqs
  import opened Fold
  import opened BlockLaws

  ghost predicate StrictlyOrdered(s: seq<Carried>) {
    forall i, j :: 0 <= i < j < |s| ==> Before(s[i], s[j])
  }

  /** With distinct ids the key (underwriter, seq, id) is a strict total order. */
  lemma KeyIsTotal(a: Carried, b: Carried, c: Carried)
    ensures !(Before(a, b) && Before(b, a))
    ensures a.id != b.id ==> Before(a, b) || Before(b, a)
    ensures Before(a, b) && Before(b, c) ==> Before(a, c)
  {
  }

  lemma {:induction false} InsertKeepsOrder(sorted: seq<Carried>, x: Carried)
    requires StrictlyOrdered(sorted)
    requires forall i :: 0 <= i < |sorted| ==> sorted[i].id != x.id
    ensures StrictlyOrdered(Insert(sorted, x))
  {
    if sorted != [] {
      var n := |sorted| - 1;
      var last := sorted[n];
      if Before(x, last) {
        InsertKeepsOrder(sorted[..n], x);
        InsertBag(sorted[..n], x);
        var r := Insert(sorted[..n], x);
        forall i | 0 <= i < |r|
          ensures Before(r[i], last)
        {
          assert r[i] in multiset(r);
          if r[i] != x {
            var k := IndexOf(sorted[..n], r[i]);
          }
        }
      } else {
        KeyIsTotal(x, last, last);
        forall i | 0 <= i < |sorted|
          ensures Before(sorted[i], x)
        {
          KeyIsTotal(sorted[i], last, x);
        }
      }
    }
  }

  lemma {:induction false} FoldOrderIsOrdered(cc: seq<Carried>)
    requires DistinctIds(cc)
    ensures StrictlyOrdered(FoldOrder(cc))
  {
    hide Before, Insert;
    if cc != [] {
      var n := |cc| - 1;
      var s := FoldOrder(cc[..n]);
      FoldOrderIsOrdered(cc[..n]);
      FoldOrderBag(cc[..n]);
      forall i | 0 <= i < |s|
        ensures s[i].id != cc[n].id
      {
        assert s[i] in multiset(s);
        var k := IndexOf(cc[..n], s[i]);
      }
      InsertKeepsOrder(s, cc[n]);
    }
  }

  /** The greatest element of a bag comes last in every strict order of it. */
  lemma LastIsShared(a: seq<Carried>, b: seq<Carried>)
    requires StrictlyOrdered(a) && StrictlyOrdered(b) && multiset(a) == multiset(b) && a != [] && |a| == |b|
    ensures a[|a| - 1] == b[|b| - 1]
  {
    hide Before;
    var n := |a| - 1;
    var x, y := a[n], b[n];
    BagOfPrefix(a);
    BagOfPrefix(b);
    var i := IndexOf(b, x);
    var j := IndexOf(a, y);
    assert i < n ==> Before(x, y);
    assert j < n ==> Before(y, x);
    KeyIsTotal(x, y, y);
  }

  /** Equal bags have one strictly ordered arrangement. */
  lemma {:induction false} OrderIsUnique(a: seq<Carried>, b: seq<Carried>)
    requires StrictlyOrdered(a) && StrictlyOrdered(b) && multiset(a) == multiset(b)
    ensures a == b
    decreases |a|
  {
    hide Before;
    EqualBagsEqualLengths(a, b);
    if a != [] {
      var n := |a| - 1;
      BagOfPrefix(a);
      BagOfPrefix(b);
      LastIsShared(a, b);
      OrderIsUnique(a[..n], b[..n]);
    }
  }

  lemma {:induction false} CarryBag(a: seq<Certificate>, b: seq<Certificate>, p: Params)
    requires multiset(a) == multiset(b)
    ensures multiset(Carry(a, p)) == multiset(Carry(b, p))
    decreases |a|
  {
    EqualBagsEqualLengths(a, b);
    if a != [] {
      var n := |a| - 1;
      var i := PeelEqualBags(a, b);
      CarryBag(a[..n], Without(b, i), p);
      assert Carry(a, p) == Carry(a[..n], p) + [Carry(a, p)[n]];
      assert Carry(Without(b, i), p) == Without(Carry(b, p), i);
      BagWithout(Carry(b, p), i);
      assert Carry(b, p)[i] == Carry(a, p)[n];
      assert Carry(b, p)[i] in multiset(Carry(b, p));
    }
  }

  /** Any two blocks that carry the same certificates fold them in one order. */
  lemma FoldOrderErases(a: seq<Certificate>, b: seq<Certificate>, p: Params)
    requires multiset(a) == multiset(b) && DistinctIds(Carry(a, p))
    ensures FoldOrder(Carry(a, p)) == FoldOrder(Carry(b, p))
  {
    CarryBag(a, b, p);
    DistinctIdsBag(Carry(a, p), Carry(b, p));
    FoldOrderBag(Carry(a, p));
    FoldOrderBag(Carry(b, p));
    FoldOrderIsOrdered(Carry(a, p));
    FoldOrderIsOrdered(Carry(b, p));
    OrderIsUnique(FoldOrder(Carry(a, p)), FoldOrder(Carry(b, p)));
  }

  // ------------------------------------------------- and so does the fold

  /** The same block, its certificates rearranged: the header differs only in the
      root that commits to the arrangement. */
  predicate Rearranged(b: Block, c: Block) {
    && multiset(b.certs) == multiset(c.certs)
    && b.cites == c.cites
    && c.header == b.header.(certRoot := c.header.certRoot)
  }

  lemma StagesIgnoreOrder(l: Ledger, g: Progress, b: Block, c: Block, p: Params)
    requires p.Valid() && Rearranged(b, c) && g.Running?
    ensures Prologue(l, b, p) == Prologue(l, c, p)
    ensures Bookkeeping(l, b, p, g.seqApplied) == Bookkeeping(l, c, p, g.seqApplied)
  {
    hide UpdateSeqGasTarget, Ledger.Put, Ledger.Get;
  }

  lemma EpilogueIgnoresOrder(l: Ledger, b: Block, c: Block, p: Params, checkRoot: bool, t: u64, seqBase: u256, parBase: u256,
                             g: Progress)
    requires p.Valid() && Rearranged(b, c) && g.Running?
    requires BurstWellDefined(g.seqUsed, p.SeqGasLimit(t))
    ensures Epilogue(l, b, p, checkRoot, t, seqBase, parBase, g) == Epilogue(l, c, p, checkRoot, t, seqBase, parBase, g)
  {
    hide RewardOf, PayTreasury, TreasuryShare, ReleaseCoinbase, RecordCoinbase;
    assert forall m :: UpdateBaseFees(m, b, p, t, seqBase, parBase, g.seqApplied, g.parApplied)
                    == UpdateBaseFees(m, c, p, t, seqBase, parBase, g.seqApplied, g.parApplied);
  }

  /** Proposer order is erased: two arrangements of a block that both pass the
      rules give the same verdict, outcomes, fees and post-state. */
  lemma ProposerOrderErased(l: Ledger, b: Block, c: Block, p: Params, checkRoot: bool)
    requires p.Valid() && Rearranged(b, c)
    requires BlockRule(l, b, p).None? && BlockRule(l, c, p).None?
    ensures Apply(l, b, p, checkRoot) == Apply(l, c, p, checkRoot)
  {
    hide BlockRule, Prologue, FoldOrder, FoldCerts, Bookkeeping, Epilogue, PruneSeen, CurrentSeqGasTarget;
    RulesGive(l, b, p);
    FoldOrderErases(b.certs, c.certs, p);
    var h := b.header.height;
    var t := CurrentSeqGasTarget(l, p, h);
    var g0 := Running(l, [], 0, 0, 0, 0, 0, 0);
    StagesIgnoreOrder(l, g0, b, c, p);
    var l1 := Prologue(l, b, p);
    var seqBase := l1.Get(ProtocolSlot(SeqBaseFee));
    var parBase := l1.Get(ProtocolSlot(ParBaseFee));
    var g := FoldCerts(l1, FoldOrder(Carry(b.certs, p)), p, seqBase, parBase);
    UsedWithinBurst(l, b, p, l1, seqBase, parBase);
    if g.Running? {
      StagesIgnoreOrder(g.ledger, g, b, c, p);
      EpilogueIgnoresOrder(PruneSeen(Bookkeeping(g.ledger, b, p, g.seqApplied), h), b, c, p, checkRoot, t, seqBase, parBase, g);
    }
  }
}
