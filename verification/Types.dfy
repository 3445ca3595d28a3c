/** The objects the consensus rules can see (core/types), and the parameter set
    they are judged under (core/params).

    A 32-byte address, hash or key is the big-endian number it spells, so the
    byte-wise comparison of the source is `<` and storing an address in a cell is
    the identity.  A storage word is a constructor rather than a hash of a label:
    "no two purposes share a cell" is then structural.  Digests and signatures are
    uninterpreted functions carried by `Params`. */
module Types {
  import opened U256

  datatype Option<+T> = None | Some(value: T)

  type Address = u256
  type Hash = u256
  type PubKey = u256

  const PROTOCOL_ADDRESS: Address := 0
  const NATIVE_ASSET: Address := 0

  const VERSION_PROTOCOL: nat := 0
  const VERSION_ONE_SHOT: nat := 1
  const VERSION_PERSISTENT: nat := 2
  const VERSION_ASSET: nat := 3

  /** The first byte of an address. */
  function Version(a: Address): nat {
    a / TWO248
  }

  predicate IsUser(a: Address) {
    Version(a) == VERSION_ONE_SHOT || Version(a) == VERSION_PERSISTENT
  }

  predicate IsOneShot(a: Address) {
    Version(a) == VERSION_ONE_SHOT
  }

  // ------------------------------------------------------------------ slots

  datatype Word =
    | SpentWord
    | Balance(asset: Address)
    | AssetCap | AssetDecimals | AssetSymbol | AssetMinter | AssetMinted
    | BeaconEpoch | BeaconHeight | BeaconEntropy
    | SeqBaseFee | ParBaseFee
    | SeqGasTarget | CitedCount | PrevParentId | PrevTarget
    | AppliedGasSample(position: nat)
    | PendingAddr(index: nat)
    | PendingAmount(index: nat)
    | OtherWord(bytes: Hash)

  datatype Slot = Slot(addr: Address, word: Word)

  function BalanceSlot(holder: Address, asset: Address): Slot {
    Slot(holder, Balance(asset))
  }

  function NativeSlot(holder: Address): Slot {
    BalanceSlot(holder, NATIVE_ASSET)
  }

  function ProtocolSlot(w: Word): Slot {
    Slot(PROTOCOL_ADDRESS, w)
  }

  function TreasurySlot(): Slot {
    NativeSlot(PROTOCOL_ADDRESS)
  }

  // ----------------------------------------------------------- certificates

  datatype Access = Exact | GuardGE | GuardLE | GuardEQ
  datatype Read = Read(slot: Slot, access: Access, operand: u256)

  datatype Op = OpSet | OpDeltaAdd | OpDeltaSub | OpMarkSpent
  datatype Write = Write(slot: Slot, op: Op, value: u256)

  datatype Sig = Sig(pubKey: PubKey, signature: nat)
  datatype Deposit = Deposit(cell: Slot, amount: u256, refundTo: Slot)
  datatype FeeBid = FeeBid(seqMax: u256, seqPriority: u256, parMax: u256, parPriority: u256)
  datatype Move = Move(asset: Address, src: Address, dst: Address, amount: u256)

  datatype Program =
    | Transfer(moves: seq<Move>)
    | Issue(issuer: Address, issueCap: u256, symbolHash: Hash, issueMinter: PubKey, decimals: u64)
    | Mint(asset: Address, dst: Address, amount: u256, cap: u256, minter: PubKey)
    | Retire(addrs: seq<Address>)

  datatype Certificate = Certificate(
    chainId: u64,
    seqNo: u64,
    program: Program,
    readList: seq<Read>,
    writes: seq<Write>,
    sigs: seq<Sig>,
    deposit: Deposit,
    ttl: u64,
    feeBid: FeeBid)

  function ProgramSize(g: Program): nat {
    5 + match g
        case Transfer(moves) => 128 * |moves|
        case Issue(_, _, _, _, _) => 129
        case Mint(_, _, _, _, _) => 160
        case Retire(addrs) => 32 * |addrs|
  }

  /** Encoded length: the fixed section plus the four variable fields. */
  function CertSize(c: Certificate): nat {
    328 + ProgramSize(c.program) + 97 * |c.readList| + 97 * |c.writes| + 96 * |c.sigs|
  }

  function DeriveUnits(g: Program): nat {
    match g
    case Transfer(moves) => |moves|
    case Retire(addrs) => |addrs|
    case _ => 1
  }

  function MarkSpentCount(ws: seq<Write>): nat {
    if ws == [] then 0
    else MarkSpentCount(ws[..|ws| - 1]) + if ws[|ws| - 1].op.OpMarkSpent? then 1 else 0
  }

  // ----------------------------------------------------------------- blocks

  const HEADER_VERSION: nat := 1
  const HEADER_SIZE: nat := 260

  datatype PoWSeal = PoWSeal(nonce: nat, extraNonce: nat, seedEpoch: u64)

  datatype Header = Header(
    version: nat,
    height: u64,
    parentId: Hash,
    time: u64,
    certRoot: Hash,
    citesRoot: Hash,
    stateRoot: Hash,
    emissionAddr: Address,
    pow: PoWSeal,
    target: u256,
    powHash: Hash)

  datatype Block = Block(header: Header, certs: seq<Certificate>, cites: seq<Header>)

  function CertsSize(cs: seq<Certificate>): nat {
    if cs == [] then 0 else CertsSize(cs[..|cs| - 1]) + 4 + CertSize(cs[|cs| - 1])
  }

  function BlockSize(b: Block): nat {
    HEADER_SIZE + 8 + CertsSize(b.certs) + (HEADER_SIZE + 4) * |b.cites|
  }

  // ------------------------------------------------------------- parameters

  datatype Params = Params(
    chainId: u64,
    maxReads: nat, maxWrites: nat, maxSigs: nat, maxMoves: nat, maxRetire: nat,
    ttlMax: u64,
    seqGasTargetGenesis: u64, parGasRatio: u64,
    maxCertsGenesis: u64, blockByteLimitGenesis: u64, maxSigsGenesis: u64,
    certListCapacity: u64, blockByteCapacity: u64, seqGasCapacity: u64,
    maxCites: nat,
    growthDivisor: u64, decayDivisor: u64, healthGateBps: u64,
    gasSeqPerRead: u64, gasSeqPerWrite: u64, gasSeqPerRegistryInsert: u64, gasSeqPerSeenInsert: u64,
    gasParPerSig: u64, gasParPerByte: u64, gasParPerDeriveUnit: u64,
    initialSeqBaseFee: u256, initialParBaseFee: u256, minBaseFee: u256, baseFeeDenominator: u64,
    skipFee: u256,
    genesisEmission: u256, tailEmission: u256, emissionDecayDivisor: u64,
    coinbaseMaturity: u64, treasuryShareBps: u64,
    epochLength: u64,
    keyInterval: u64, keyLag: u64,
    // Uninterpreted digests and signature checks.
    consensusRoot: Hash,
    certHash: Certificate -> Hash,
    headerHash: Header -> Hash,
    certRootOf: seq<Certificate> -> Hash,
    citesRootOf: seq<Header> -> Hash,
    stateRootOf: (map<Slot, u256>, set<Address>) -> Hash,
    addressHash: (nat, PubKey) -> nat,
    assetHash: (u64, Address, u64) -> nat,
    sigVerifies: (Certificate, Sig) -> bool)
  {
    /** The part of `Params.Validate` the rules below rest on. */
    predicate Valid() {
      && 0 < seqGasTargetGenesis <= seqGasCapacity
      && 8 * seqGasCapacity < TWO64
      && 2 * parGasRatio * seqGasCapacity < TWO64
      && 0 < growthDivisor <= seqGasTargetGenesis
      && 0 < decayDivisor <= seqGasTargetGenesis
      && healthGateBps <= 10000
      && 0 < baseFeeDenominator
      && 0 < minBaseFee <= initialSeqBaseFee
      && minBaseFee <= initialParBaseFee
      && 0 < tailEmission <= genesisEmission
      && 0 < emissionDecayDivisor
      && 0 < coinbaseMaturity
      && 0 < treasuryShareBps < 10000
      && 0 < epochLength
      && 0 < keyLag < keyInterval
      && keyInterval + keyLag < TWO64
      && 0 < skipFee
    }

    function SeqGasLimit(t: u64): u64 {
      Wrap64(2 * t)
    }

    function SeqGasBurst(t: u64): u64 {
      Wrap64(4 * t)
    }

    function ParGasLimit(t: u64): u64 {
      Wrap64(Product(parGasRatio, SeqGasLimit(t)))
    }

    function ParGasTarget(t: u64): u64 {
      Wrap64(Product(parGasRatio, t))
    }

    function MaxCertsPerBlock(t: u64): nat
      requires Valid()
    {
      Min(MulDiv64(maxCertsGenesis, t, seqGasTargetGenesis), certListCapacity)
    }

    function MaxSigsPerBlock(t: u64): nat
      requires Valid()
    {
      Min(MulDiv64(maxSigsGenesis, t, seqGasTargetGenesis), TWO64 - 1)
    }

    function BlockByteLimit(t: u64): nat
      requires Valid()
    {
      Min(MulDiv64(blockByteLimitGenesis, t, seqGasTargetGenesis), blockByteCapacity)
    }

    predicate IsEpochBoundary(h: u64)
      requires Valid()
    {
      h % epochLength == 0
    }

    function NextSeqGasTarget(t: u64, medianApplied2x: u64, healthy: bool): u64
      requires Valid()
    {
      var lo := t - Quot(t, decayDivisor);
      var hi := if healthy then Wrap64(t + Quot(t, growthDivisor)) else t;
      var n0 := Max(medianApplied2x, lo);
      var n1 := Min(n0, hi);
      var n2 := Min(n1, seqGasCapacity);
      Max(n2, seqGasTargetGenesis)
    }

    function NextBaseFee(base: u256, gasUsed: u64, gasTarget: u64): u256
      requires Valid()
    {
      if gasTarget == 0 || gasUsed == gasTarget then Max(base, minBaseFee)
      else if gasUsed > gasTarget then
        var delta := Quot(MulDiv64(base, gasUsed - gasTarget, gasTarget), baseFeeDenominator);
        SatAdd(base, Max(delta, 1))
      else
        var delta := Quot(MulDiv64(base, gasTarget - gasUsed, gasTarget), baseFeeDenominator);
        Max(SatSub(base, delta), minBaseFee)
    }

    /** The per-epoch coinbase rate: decays by one part in the divisor, at least
        one unit a step, and stops at the tail. */
    function EpochRate(epoch: nat): u256
      requires Valid()
    {
      if epoch == 0 then genesisEmission
      else
        var e := EpochRate(epoch - 1);
        if e <= tailEmission then tailEmission
        else Max(tailEmission, SatSub(e, Max(1, Quot(e, emissionDecayDivisor))))
    }

    function Emission(h: u64): u256
      requires Valid()
    {
      if h == 0 then 0 else EpochRate(Quot(h, epochLength))
    }

    /** Everything the schedule has paid through height `h`, inclusive. */
    function Issued(h: u64): nat
      requires Valid()
    {
      if h == 0 then 0 else Issued(h - 1) + Emission(h)
    }

    /** The id commits to every field except the signatures. */
    function CertId(c: Certificate): Hash {
      certHash(c.(sigs := []))
    }

    function AddressFromPubKey(version: nat, k: PubKey): Address
      requires version < 256
    {
      version * TWO248 + addressHash(version, k) % TWO248
    }

    function DeriveAssetAddress(issuer: Address, seqNo: u64, chain: u64): (a: Address)
      ensures Version(a) == VERSION_ASSET
    {
      VERSION_ASSET * TWO248 + assetHash(chain, issuer, seqNo) % TWO248
    }

    function SeqGas(c: Certificate): u64 {
      Wrap64(Product(gasSeqPerRead, |c.readList|) + Product(gasSeqPerWrite, |c.writes|)
             + Product(gasSeqPerRegistryInsert, MarkSpentCount(c.writes)) + gasSeqPerSeenInsert)
    }

    function ParGas(c: Certificate): u64 {
      Wrap64(Product(gasParPerSig, |c.sigs|) + Product(gasParPerByte, CertSize(c))
             + Product(gasParPerDeriveUnit, DeriveUnits(c.program)))
    }

    function SeedEpochFor(h: u64): u64
      requires Valid()
    {
      if h < keyLag || h - keyLag < keyInterval then 0 else Quot(h - keyLag, keyInterval)
    }
  }
}
