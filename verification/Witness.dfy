/** A certificate the wallet accepts and the fold skips: the retirement of an
    address that is already burned.  CheckAll never asks the registry about the
    addresses a program retires, so `Spendable` in WalletLaws is not implied. */
module Witness {
  import opened U256
  import opened Types
  import opened Validity
  import opened Ledgers
  import opened Fold
  import opened AssetLaws
  import opened BlockFrames
  import opened Verdicts
  import opened Wallet

  const KEY: PubKey := 7

  /** The key's one-shot address, already burned. */
  const RETIRED: Address := TWO248 + 7

  /** The key's persistent address, which pays. */
  const PAYER: Address := 2 * TWO248 + 7

  /** Unit parameters: no gas, a skip fee of one, an emission of one per block. */
  const UNIT_PARAMS: Params := Params(
      chainId := 1,
      maxReads := 1, maxWrites := 1, maxSigs := 1, maxMoves := 1, maxRetire := 1,
      ttlMax := 1,
      seqGasTargetGenesis := 1, parGasRatio := 1,
      maxCertsGenesis := 1, blockByteLimitGenesis := 1, maxSigsGenesis := 1,
      certListCapacity := 1, blockByteCapacity := 1, seqGasCapacity := 1,
      maxCites := 0,
      growthDivisor := 1, decayDivisor := 1, healthGateBps := 0,
      gasSeqPerRead := 0, gasSeqPerWrite := 0, gasSeqPerRegistryInsert := 0, gasSeqPerSeenInsert := 0,
      gasParPerSig := 0, gasParPerByte := 0, gasParPerDeriveUnit := 0,
      initialSeqBaseFee := 1, initialParBaseFee := 1, minBaseFee := 1, baseFeeDenominator := 1,
      skipFee := 1,
      genesisEmission := 1, tailEmission := 1, emissionDecayDivisor := 1,
      coinbaseMaturity := 1, treasuryShareBps := 1,
      epochLength := 2,
      keyInterval := 2, keyLag := 1,
      consensusRoot := 0,
      certHash := c => 0,
      headerHash := h => 0,
      certRootOf := cs => 0,
      citesRootOf := hs => 0,
      stateRootOf := (cells, spent) => 0,
      addressHash := (version, k) => k,
      assetHash := (chain, issuer, seqNo) => 0,
      sigVerifies := (c, s) => true)

  const RETIREMENT: Certificate := Certificate(
      chainId := 1,
      seqNo := 0,
      program := Retire([RETIRED]),
      readList := [],
      writes := [Write(Slot(RETIRED, SpentWord), OpMarkSpent, 0)],
      sigs := [Sig(KEY, 0)],
      deposit := Deposit(NativeSlot(PAYER), 1, NativeSlot(PAYER)),
      ttl := 1,
      feeBid := FeeBid(1, 0, 1, 0))

  const AFTER_BURN: Ledger := Ledger(map[NativeSlot(PAYER) := 1], {RETIRED}, map[])

  lemma UnitParams()
    ensures UNIT_PARAMS.Valid()
    ensures UNIT_PARAMS.Issued(1) == 1
    ensures UNIT_PARAMS.SeqGas(RETIREMENT) == 0 && UNIT_PARAMS.ParGas(RETIREMENT) == 0
    ensures FeeCeiling(RETIREMENT, UNIT_PARAMS) == Some(1)
  {
    assert UNIT_PARAMS.Issued(0) == 0;
    assert Quot(1, 2) == 0;
  }

  lemma KnownAddresses()
    ensures Version(RETIRED) == VERSION_ONE_SHOT && Version(PAYER) == VERSION_PERSISTENT
    ensures UNIT_PARAMS.AddressFromPubKey(VERSION_ONE_SHOT, KEY) == RETIRED
    ensures UNIT_PARAMS.AddressFromPubKey(VERSION_PERSISTENT, KEY) == PAYER
  {
  }

  lemma RetirementDerives()
    ensures DerivationMatches(RETIREMENT, UNIT_PARAMS)
  {
    KnownAddresses();
    assert DeriveRetire([RETIRED]) == Some(Derived([], MarkWrites([RETIRED])));
    assert MarkWrites([RETIRED]) == RETIREMENT.writes;
  }

  lemma RetirementIsSigned()
    ensures Authorized(RETIREMENT, UNIT_PARAMS)
  {
    KnownAddresses();
    var c, p := RETIREMENT, UNIT_PARAMS;
    var s := Sig(KEY, 0);
    assert c.sigs == [s];
    assert s in c.sigs && PAYER in RequiredAddresses(c);
    assert SignsFor(c, p, s, PAYER) && SignsFor(c, p, s, RETIRED);
    assert forall w :: w in c.writes ==> w.slot.addr == RETIRED;
  }

  lemma RetirementPays()
    ensures UNIT_PARAMS.Valid() && DepositOk(RETIREMENT, UNIT_PARAMS)
  {
    hide Params.Issued, FeeCeiling;
    UnitParams();
    KnownAddresses();
  }

  lemma RetirementIsShaped()
    ensures Canonical(RETIREMENT, UNIT_PARAMS) && SelfConsistent(RETIREMENT)
    ensures NoProtocolWrites(RETIREMENT) && KnownVersions(RETIREMENT) && SignaturesVerify(RETIREMENT, UNIT_PARAMS)
  {
    KnownAddresses();
  }

  /** The stateless rules take it. */
  lemma RetirementIsValid()
    ensures UNIT_PARAMS.Valid() && StatelessValid(RETIREMENT, UNIT_PARAMS)
  {
    hide Canonical, DerivationMatches, SelfConsistent, NoProtocolWrites, Authorized, DepositOk, KnownVersions,
      SignaturesVerify;
    RetirementIsShaped();
    RetirementDerives();
    RetirementIsSigned();
    RetirementPays();
  }

  /** So does the wallet: the retired cell is empty and the payer covers the fee. */
  lemma RetirementIsAccepted()
    ensures Accepts(RETIREMENT, AFTER_BURN, UNIT_PARAMS, [RETIRED, PAYER])
  {
    UnitParams();
    KnownAddresses();
  }

  lemma AfterBurnIsBacked()
    ensures AssetsBacked(AFTER_BURN)
  {
    EmptyIsBacked();
    forall a: Address | Version(a) == VERSION_ASSET
      ensures Backed(AFTER_BURN, a)
    {
      assert Backed(EMPTY, a);
      TotalPut(map[], Asset(a), NativeSlot(PAYER), 1);
      assert AFTER_BURN.cells == CellPut(map[], NativeSlot(PAYER), 1);
    }
  }

  lemma RetirementIsSkipped(id: Hash)
    ensures
      var r := ApplyCertificate(AFTER_BURN, RETIREMENT, id, UNIT_PARAMS, 1, 1, 0);
      r.CertSettled? && r.out.outcome == SkippedStale && r.ledger.Get(NativeSlot(PAYER)) == 0 && r.burned == 1
  {
    hide ApplyStaged;
    KnownAddresses();
    var l, c := AFTER_BURN, RETIREMENT;
    assert Reserved(l, c).spent == {RETIRED};
    assert c.writes[..0] == [];
    assert Stage(Reserved(l, c), c.writes) == NotStaged(SkippedStale);
  }

  /** On a sound state, every stateless rule and every wallet rule passing and the
      bids covering the base fees, the fold still skips it: its write marks an
      address that is spent.  The payer loses the skip fee. */
  lemma AcceptedYetSkipped(id: Hash)
    ensures UNIT_PARAMS.Valid() && StatelessValid(RETIREMENT, UNIT_PARAMS)
    ensures Accepts(RETIREMENT, AFTER_BURN, UNIT_PARAMS, [RETIRED, PAYER])
    ensures OneShotsOnly(AFTER_BURN) && AssetsBacked(AFTER_BURN)
    ensures
      var r := ApplyCertificate(AFTER_BURN, RETIREMENT, id, UNIT_PARAMS, 1, 1, 0);
      r.CertSettled? && r.out.outcome == SkippedStale && r.ledger.Get(NativeSlot(PAYER)) == 0 && r.burned == 1
  {
    hide StatelessValid, Accepts, AssetsBacked, ApplyCertificate, Params.Valid;
    RetirementIsValid();
    RetirementIsAccepted();
    KnownAddresses();
    AfterBurnIsBacked();
    RetirementIsSkipped(id);
  }
}
