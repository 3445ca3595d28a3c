/** The block rules (core/fold/blockrules.go) as one list of conditions: a block
    passes if and only if all of them hold, and the header rule reported is that of
    the first one that does not. */
module Rules {
  import opened U256
  import opened Types
  import opened Validity
  import opened Ledgers
  import opened Fold
  import opened BlockLaws
  import opened Conservation
  import opened Epochs
  import opened Subsidies

  /** A ceiling that scales with the gas target: n per genesis target, and never
      above its capacity. */
  ghost predicate WithinScaled(n: nat, genesis: u64, t: u64, unit: u64, capacity: nat) {
    Product(n, unit) <= Product(genesis, t) && n <= capacity
  }

  lemma ScaledMeans(n: nat, genesis: u64, t: u64, unit: u64, capacity: nat)
    requires unit > 0 && capacity < TWO64
    ensures n <= Min(MulDiv64(genesis, t, unit), capacity) <==> WithinScaled(n, genesis, t, unit, capacity)
  {
    var q := Quot(Product(genesis, t), unit);
    QuotMeans(Product(genesis, t), unit);
    hide Quot;
    if n <= q {
      Scales(unit, n, q);
    } else {
      Scales(unit, q + 1, n);
    }
  }

  /** The citations a block may carry. */
  ghost predicate CitesOk(l: Ledger, b: Block, p: Params) {
    if b.header.height <= 1 then b.cites == []
    else
      && (forall i :: 0 <= i < |b.cites| ==>
            && b.cites[i].version == HEADER_VERSION
            && b.cites[i].height == b.header.height - 1
            && b.cites[i].parentId == l.Get(ProtocolSlot(PrevParentId))
            && b.cites[i].target == l.Get(ProtocolSlot(PrevTarget))
            && p.headerHash(b.cites[i]) != b.header.parentId)
      && (forall i :: 0 < i < |b.cites| ==> p.headerHash(b.cites[i - 1]) < p.headerHash(b.cites[i]))
  }

  lemma CitesMean(l: Ledger, b: Block, p: Params)
    ensures CheckCites(l, b, p).None? <==> CitesOk(l, b, p)
  {
    if b.header.height > 1 {
      CitesRuleMeans(l, b, p, |b.cites|);
    }
  }

  const HEADER_CHECKS: nat := 12

  /** The header conditions, in the order they are checked. */
  ghost predicate HeaderCheck(l: Ledger, b: Block, p: Params, n: nat)
    requires p.Valid()
  {
    var h := b.header;
    var t := CurrentSeqGasTarget(l, p, h.height);
    var unit := p.seqGasTargetGenesis;
    match n
    case 0 => h.version == HEADER_VERSION
    case 1 => WithinScaled(|b.certs|, p.maxCertsGenesis, t, unit, p.certListCapacity)
    case 2 => WithinScaled(SigCount(b.certs), p.maxSigsGenesis, t, unit, TWO64 - 1)
    case 3 => WithinScaled(BlockSize(b), p.blockByteLimitGenesis, t, unit, p.blockByteCapacity)
    case 4 => |b.cites| <= p.maxCites
    case 5 => h.certRoot == p.certRootOf(b.certs)
    case 6 => h.citesRoot == p.citesRootOf(b.cites)
    case 7 => CitesOk(l, b, p)
    case 8 => if h.height > 0 then h.parentId != 0 else b.certs == [] && h.parentId == p.consensusRoot && h.emissionAddr == 0
    case 9 => h.height > 0 ==> IsUser(h.emissionAddr)
    case 10 => h.pow.seedEpoch == p.SeedEpochFor(h.height)
    case 11 => h.height % p.epochLength != 0 ==> h.stateRoot == 0
    case _ => true
  }

  /** The rule each condition is reported as; the citations have rules of their own. */
  function RuleAt(n: nat): Option<Rule> {
    match n
    case 0 => Some(B7)
    case 1 => Some(B12)
    case 2 => Some(B18)
    case 3 => Some(B13)
    case 4 => Some(B15)
    case 5 => Some(B14)
    case 6 => Some(B16)
    case 8 => Some(B10)
    case 9 => Some(B11)
    case 10 => Some(B0b)
    case 11 => Some(B9)
    case _ => None
  }

  ghost predicate PassesFirst(l: Ledger, b: Block, p: Params, n: nat)
    requires p.Valid()
  {
    forall m: nat :: m < n ==> HeaderCheck(l, b, p, m)
  }

  lemma LimitsMean(l: Ledger, b: Block, p: Params)
    requires p.Valid()
    ensures
      var t := CurrentSeqGasTarget(l, p, b.header.height);
      && (HeaderCheck(l, b, p, 1) <==> |b.certs| <= p.MaxCertsPerBlock(t))
      && (HeaderCheck(l, b, p, 2) <==> SigCount(b.certs) <= p.MaxSigsPerBlock(t))
      && (HeaderCheck(l, b, p, 3) <==> BlockSize(b) <= p.BlockByteLimit(t))
  {
    hide WithinScaled, MulDiv64, SigCount, BlockSize, CurrentSeqGasTarget;
    var t := CurrentSeqGasTarget(l, p, b.header.height);
    ScaledMeans(|b.certs|, p.maxCertsGenesis, t, p.seqGasTargetGenesis, p.certListCapacity);
    ScaledMeans(SigCount(b.certs), p.maxSigsGenesis, t, p.seqGasTargetGenesis, TWO64 - 1);
    ScaledMeans(BlockSize(b), p.blockByteLimitGenesis, t, p.seqGasTargetGenesis, p.blockByteCapacity);
  }

  /** The first header condition that fails names the rule; if none fails, no rule
      does. */
  lemma FirstHeaderRule(l: Ledger, b: Block, p: Params, n: nat)
    requires p.Valid() && n < HEADER_CHECKS && PassesFirst(l, b, p, n) && !HeaderCheck(l, b, p, n)
    ensures HeaderRule(l, b, p) == if n == 7 then CheckCites(l, b, p) else RuleAt(n)
    ensures HeaderRule(l, b, p).Some?
  {
    HeaderChecks(l, b, p);
    hide HeaderCheck, CheckCites, CheckGenesisShape, CheckEmissionAddr, CheckSeedEpoch, SigCount, BlockSize,
      CurrentSeqGasTarget, Params.MaxCertsPerBlock, Params.MaxSigsPerBlock, Params.BlockByteLimit, Params.IsEpochBoundary;
    assert forall m: nat :: m < n ==> HeaderCheck(l, b, p, m);
  }

  /** Each condition as the code tests it. */
  lemma HeaderChecks(l: Ledger, b: Block, p: Params)
    requires p.Valid()
    ensures
      var h := b.header;
      var t := CurrentSeqGasTarget(l, p, h.height);
      && (HeaderCheck(l, b, p, 0) <==> h.version == HEADER_VERSION)
      && (HeaderCheck(l, b, p, 1) <==> |b.certs| <= p.MaxCertsPerBlock(t))
      && (HeaderCheck(l, b, p, 2) <==> SigCount(b.certs) <= p.MaxSigsPerBlock(t))
      && (HeaderCheck(l, b, p, 3) <==> BlockSize(b) <= p.BlockByteLimit(t))
      && (HeaderCheck(l, b, p, 4) <==> |b.cites| <= p.maxCites)
      && (HeaderCheck(l, b, p, 5) <==> p.certRootOf(b.certs) == h.certRoot)
      && (HeaderCheck(l, b, p, 6) <==> p.citesRootOf(b.cites) == h.citesRoot)
      && (HeaderCheck(l, b, p, 7) <==> CheckCites(l, b, p).None?)
      && CheckGenesisShape(b, p) == (if HeaderCheck(l, b, p, 8) then None else Some(B10))
      && CheckEmissionAddr(b) == (if HeaderCheck(l, b, p, 9) then None else Some(B11))
      && CheckSeedEpoch(b, p) == (if HeaderCheck(l, b, p, 10) then None else Some(B0b))
      && (HeaderCheck(l, b, p, 11) <==> p.IsEpochBoundary(h.height) || h.stateRoot == 0)
  {
    hide WithinScaled, CitesOk, CheckCites, SigCount, BlockSize, CurrentSeqGasTarget, Params.MaxCertsPerBlock,
      Params.MaxSigsPerBlock, Params.BlockByteLimit, Params.SeedEpochFor;
    LimitsMean(l, b, p);
    CitesMean(l, b, p);
    ZeroModulo(p.epochLength);
  }

  lemma ZeroModulo(n: nat)
    requires n > 0
    ensures 0 % n == 0
  {
  }

  lemma HeaderRulesMean(l: Ledger, b: Block, p: Params)
    requires p.Valid()
    ensures HeaderRule(l, b, p).None? <==> PassesFirst(l, b, p, HEADER_CHECKS)
  {
    hide HeaderRule;
    if !PassesFirst(l, b, p, HEADER_CHECKS) {
      var n := FirstFailure(l, b, p, HEADER_CHECKS);
      FirstHeaderRule(l, b, p, n);
    } else {
      PassingHeader(l, b, p);
    }
  }

  lemma PassingHeader(l: Ledger, b: Block, p: Params)
    requires p.Valid() && PassesFirst(l, b, p, HEADER_CHECKS)
    ensures HeaderRule(l, b, p).None?
  {
    HeaderChecks(l, b, p);
    hide HeaderCheck, CheckCites, CheckGenesisShape, CheckEmissionAddr, CheckSeedEpoch, SigCount, BlockSize,
      CurrentSeqGasTarget, Params.MaxCertsPerBlock, Params.MaxSigsPerBlock, Params.BlockByteLimit, Params.IsEpochBoundary;
    assert forall m: nat :: m < HEADER_CHECKS ==> HeaderCheck(l, b, p, m);
  }

  lemma {:induction false} FirstFailure(l: Ledger, b: Block, p: Params, top: nat) returns (n: nat)
    requires p.Valid() && !PassesFirst(l, b, p, top)
    ensures n < top && PassesFirst(l, b, p, n) && !HeaderCheck(l, b, p, n)
  {
    hide HeaderCheck;
    if PassesFirst(l, b, p, top - 1) {
      n := top - 1;
    } else {
      n := FirstFailure(l, b, p, top - 1);
    }
  }

  // ---------------------------------------------------------- the whole block

  /** Everything a block must satisfy. */
  ghost predicate InRules(l: Ledger, b: Block, p: Params)
    requires p.Valid()
  {
    var cc := Carry(b.certs, p);
    var t := CurrentSeqGasTarget(l, p, b.header.height);
    && PassesFirst(l, b, p, HEADER_CHECKS)
    && AllAdmitted(l, b.header.height, p, cc) && DistinctIds(cc)
    && Wrap64(SeqGasSum(cc, p)) <= 4 * t
    && Wrap64(ParGasSum(cc, p)) <= 2 * Product(p.parGasRatio, t)
    && forall c, w :: c in b.certs && w in c.writes ==> Version(w.slot.addr) != VERSION_PROTOCOL
  }

  /** A block on a state whose gas target is in range breaks no rule if and only if
      it satisfies all of them. */
  lemma BlockRulesMean(l: Ledger, b: Block, p: Params)
    requires p.Valid() && TargetInRange(l, p, b.header.height)
    ensures BlockRule(l, b, p).None? <==> InRules(l, b, p)
  {
    hide HeaderRule, CertsRule, PassesFirst, AllAdmitted, DistinctIds, CurrentSeqGasTarget, SeqGasSum, ParGasSum, Wrap64,
      WritesProtocol, Product, Params.SeqGasBurst, Params.ParGasLimit, TargetInRange;
    HeaderRulesMean(l, b, p);
    CertificateRulesMean(l, b, p);
    TargetIsSmall(l, p, b.header.height);
    LimitsAre(p, CurrentSeqGasTarget(l, p, b.header.height));
    ProtocolWritesMean(b.certs);
  }

  lemma ProtocolWritesMean(certs: seq<Certificate>)
    ensures WritesProtocol(certs) <==> !(forall c, w :: c in certs && w in c.writes ==> Version(w.slot.addr) != VERSION_PROTOCOL)
  {
    if WritesProtocol(certs) {
      var i :| 0 <= i < |certs| && !NoProtocolWrites(certs[i]);
      assert certs[i] in certs;
    }
    if c, w :| c in certs && w in c.writes && Version(w.slot.addr) == VERSION_PROTOCOL {
      var i :| 0 <= i < |certs| && certs[i] == c;
      assert !NoProtocolWrites(certs[i]);
    }
  }

  /** What one more certificate and one more citation add to a block: the body and
      its offset. */
  lemma SizeMargins(b: Block, c: Certificate, h: Header)
    ensures BlockSize(b.(certs := b.certs + [c])) == BlockSize(b) + CertSize(c) + 4
    ensures BlockSize(b.(cites := b.cites + [h])) == BlockSize(b) + HEADER_SIZE + 4
  {
    hide CertSize;
    assert (b.certs + [c])[..|b.certs|] == b.certs;
  }
}
