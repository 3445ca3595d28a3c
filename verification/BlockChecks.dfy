/** The rules a block must pass before the fold touches anything
    (core/fold/blockrules.go), as the loops that check them. */
module BlockChecks {
  import opened U256
  import opened Types
  import opened Validity
  import opened Ledgers
  import opened Fold
  import opened Journals

  // ------------------------------------------------------------ certificates

  /** The first broken certificate rule decides, however many follow. */
  lemma {:induction false} CertsRuleSticks(l: Ledger, h: u64, p: Params, cc: seq<Carried>, n: nat, m: nat)
    requires p.Valid() && n <= m <= |cc| && CertsRule(l, h, p, cc, n).Some?
    ensures CertsRule(l, h, p, cc, m) == CertsRule(l, h, p, cc, n)
  {
    hide CertRule;
    if n < m {
      CertsRuleSticks(l, h, p, cc, n, m - 1);
    }
  }

  ghost predicate Listed(inBlock: set<Hash>, cc: seq<Carried>, n: nat)
    requires n <= |cc|
  {
    forall id :: id in inBlock <==> exists j :: 0 <= j < n && cc[j].id == id
  }

  /** One certificate against B0 to B8, with the ids already met in this block. */
  method CheckCertificate(s: State, h: u64, p: Params, cc: seq<Carried>, i: nat, inBlock: set<Hash>,
                          seqBase: u256, parBase: u256) returns (err: Option<Rule>)
    requires p.Valid() && i < |cc| && Listed(inBlock, cc, i)
    requires seqBase == RuleSeqBaseFee(s.View(), p, h) && parBase == RuleParBaseFee(s.View(), p, h)
    ensures err == CertRule(s.View(), h, p, cc, i)
  {
    hide StatelessFailure, RuleSeqBaseFee, RuleParBaseFee;
    var c := cc[i].cert;
    var stateless := StatelessFailure(c, p);
    if stateless.Some? {
      return Some(Stateless(stateless.value));
    }
    if cc[i].id in inBlock {
      return Some(B8);
    }
    if h > c.ttl {
      return Some(B1);
    }
    if c.ttl - h > p.ttlMax {
      return Some(B2);
    }
    if cc[i].id in s.seen {
      return Some(B3);
    }
    if c.feeBid.seqMax < seqBase {
      return Some(B4);
    }
    if c.feeBid.parMax < parBase {
      return Some(B4);
    }
    return None;
  }

  /** The certificate loop: rules in block order, and the gas they declare,
      accumulated in 64 bits. */
  method CheckCertificates(s: State, h: u64, p: Params, cc: seq<Carried>) returns (err: Option<Rule>, seqGas: u64, parGas: u64)
    requires p.Valid()
    ensures err == CertsRule(s.View(), h, p, cc, |cc|)
    ensures err.None? ==> seqGas == Wrap64(SeqGasSum(cc, p)) && parGas == Wrap64(ParGasSum(cc, p))
  {
    hide CertRule, RuleSeqBaseFee, RuleParBaseFee, Params.SeqGas, Params.ParGas, Wrap64;
    var seqBase, parBase := BaseFees(s, h, p);
    seqGas, parGas := 0, 0;
    WrapZero();
    var inBlock: set<Hash> := {};
    assert cc[..0] == [];
    for i := 0 to |cc|
      invariant CertsRule(s.View(), h, p, cc, i).None?
      invariant Listed(inBlock, cc, i)
      invariant seqGas == Wrap64(SeqGasSum(cc[..i], p)) && parGas == Wrap64(ParGasSum(cc[..i], p))
    {
      err := CheckCertificate(s, h, p, cc, i, inBlock, seqBase, parBase);
      if err.Some? {
        CertsRuleSticks(s.View(), h, p, cc, i + 1, |cc|);
        return;
      }
      inBlock := inBlock + {cc[i].id};
      assert cc[..i + 1][..i] == cc[..i];
      WrapAbsorbs(SeqGasSum(cc[..i], p), p.SeqGas(cc[i].cert));
      WrapAbsorbs(ParGasSum(cc[..i], p), p.ParGas(cc[i].cert));
      seqGas, parGas := Wrap64(seqGas + p.SeqGas(cc[i].cert)), Wrap64(parGas + p.ParGas(cc[i].cert));
    }
    assert cc[..|cc|] == cc;
    err := None;
  }

  method BaseFees(s: State, h: u64, p: Params) returns (seqBase: u256, parBase: u256)
    ensures seqBase == RuleSeqBaseFee(s.View(), p, h) && parBase == RuleParBaseFee(s.View(), p, h)
  {
    seqBase, parBase := s.Get(ProtocolSlot(SeqBaseFee)), s.Get(ProtocolSlot(ParBaseFee));
    if h == 0 {
      seqBase, parBase := p.initialSeqBaseFee, p.initialParBaseFee;
    }
  }

  // --------------------------------------------------------------- citations

  lemma {:induction false} CitesRuleSticks(l: Ledger, b: Block, p: Params, n: nat, m: nat)
    requires b.header.height > 1 && n <= m <= |b.cites| && CitesRule(l, b, p, n).Some?
    ensures CitesRule(l, b, p, m) == CitesRule(l, b, p, n)
  {
    hide CiteRule;
    if n < m {
      CitesRuleSticks(l, b, p, n, m - 1);
    }
  }

  method CheckCitations(s: State, b: Block, p: Params) returns (err: Option<Rule>)
    ensures err == CheckCites(s.View(), b, p)
  {
    var h := b.header;
    if h.height <= 1 {
      return if b.cites != [] then Some(B17) else None;
    }
    var prevParent, prevTarget := s.Get(ProtocolSlot(PrevParentId)), s.Get(ProtocolSlot(PrevTarget));
    var lastId: Hash := 0;
    for i := 0 to |b.cites|
      invariant CitesRule(s.View(), b, p, i).None?
      invariant i > 0 ==> lastId == p.headerHash(b.cites[i - 1])
    {
      var cited := b.cites[i];
      var id := p.headerHash(cited);
      err := None;
      if cited.version != HEADER_VERSION {
        err := Some(C0);
      } else if cited.height != h.height - 1 {
        err := Some(C1);
      } else if cited.parentId != prevParent {
        err := Some(C2);
      } else if id == h.parentId {
        err := Some(C3);
      } else if cited.target != prevTarget {
        err := Some(C4);
      } else if i > 0 && id <= lastId {
        err := Some(C5);
      }
      assert err == CiteRule(s.View(), b, p, i);
      if err.Some? {
        CitesRuleSticks(s.View(), b, p, i + 1, |b.cites|);
        return;
      }
      lastId := id;
    }
    err := None;
  }

  // ------------------------------------------------------------ F13 and counts

  method CountSignatures(certs: seq<Certificate>) returns (sigs: nat)
    ensures sigs == SigCount(certs)
  {
    sigs := 0;
    for i := 0 to |certs|
      invariant sigs == SigCount(certs[..i])
    {
      assert certs[..i + 1][..i] == certs[..i];
      sigs := sigs + |certs[i].sigs|;
    }
    assert certs[..|certs|] == certs;
  }

  method AssertNoProtocolWrites(certs: seq<Certificate>) returns (err: Option<Rule>)
    ensures err == if WritesProtocol(certs) then Some(F13) else None
  {
    for i := 0 to |certs|
      invariant forall k :: 0 <= k < i ==> NoProtocolWrites(certs[k])
    {
      for j := 0 to |certs[i].writes|
        invariant forall k :: 0 <= k < j ==> Version(certs[i].writes[k].slot.addr) != VERSION_PROTOCOL
      {
        if Version(certs[i].writes[j].slot.addr) == VERSION_PROTOCOL {
          assert certs[i].writes[j] in certs[i].writes;
          assert !NoProtocolWrites(certs[i]);
          return Some(F13);
        }
      }
    }
    return None;
  }

  // ---------------------------------------------------------- the whole block

  /** The header, size, root, citation and genesis rules. */
  method CheckHeaderRules(s: State, b: Block, p: Params) returns (err: Option<Rule>)
    requires p.Valid()
    ensures err == HeaderRule(s.View(), b, p)
  {
    hide Params.MaxCertsPerBlock, Params.MaxSigsPerBlock, Params.BlockByteLimit, BlockSize, CheckCites, CheckGenesisShape,
      CheckSeedEpoch, SigCount, CurrentSeqGasTarget;
    var h := b.header;
    var t := CurrentSeqGasTarget(s.View(), p, h.height);
    if h.version != HEADER_VERSION {
      return Some(B7);
    }
    if |b.certs| > p.MaxCertsPerBlock(t) {
      return Some(B12);
    }
    var sigs := CountSignatures(b.certs);
    if sigs > p.MaxSigsPerBlock(t) {
      return Some(B18);
    }
    if BlockSize(b) > p.BlockByteLimit(t) {
      return Some(B13);
    }
    if |b.cites| > p.maxCites {
      return Some(B15);
    }
    if p.certRootOf(b.certs) != h.certRoot {
      return Some(B14);
    }
    if p.citesRootOf(b.cites) != h.citesRoot {
      return Some(B16);
    }
    err := CheckCitations(s, b, p);
    if err.Some? {
      return;
    }
    err := CheckGenesisShape(b, p);
    if err.Some? {
      return;
    }
    err := CheckEmissionAddr(b);
    if err.Some? {
      return;
    }
    err := CheckSeedEpoch(b, p);
    if err.Some? {
      return;
    }
    return if !p.IsEpochBoundary(h.height) && h.stateRoot != 0 then Some(B9) else None;
  }

  /** The whole of checkBlockRules: the first rule a block breaks, or none. */
  method CheckBlockRules(s: State, b: Block, p: Params, cc: seq<Carried>) returns (err: Option<Rule>)
    requires p.Valid() && cc == Carry(b.certs, p)
    ensures err == BlockRule(s.View(), b, p)
  {
    hide HeaderRule, CertsRule, WritesProtocol, CurrentSeqGasTarget, SeqGasSum, ParGasSum, Wrap64, Params.SeqGasBurst,
      Params.ParGasLimit;
    err := CheckHeaderRules(s, b, p);
    if err.Some? {
      return;
    }
    var t := CurrentSeqGasTarget(s.View(), p, b.header.height);
    var seqGas, parGas;
    err, seqGas, parGas := CheckCertificates(s, b.header.height, p, cc);
    if err.Some? {
      return;
    }
    if seqGas > p.SeqGasBurst(t) {
      return Some(B5);
    }
    if parGas > p.ParGasLimit(t) {
      return Some(B6);
    }
    err := AssertNoProtocolWrites(b.certs);
  }
}
