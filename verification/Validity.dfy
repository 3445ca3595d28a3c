/** The stateless rules (core/validity): what a program derives, and V1..V9.

    Slots are ordered in the source by their hashed bytes, which the structural
    words do not carry.  Two strictly sorted lists are equal exactly when they are
    permutations of each other, so V3's "declared equals derived" is a multiset
    equality here and V1's strict order is slot distinctness. */
module Validity {
  import opened U256
  import opened Types

  datatype VRule = V1 | V2 | V3 | V4 | V5 | V6 | V7 | V9

  // ------------------------------------------------------------- derivation

  /** A slot with the total accumulated against it. */
  datatype SlotSum = SlotSum(slot: Slot, total: nat)

  function AddSum(sums: seq<SlotSum>, slot: Slot, v: nat): seq<SlotSum> {
    if sums == [] then [SlotSum(slot, v)]
    else if sums[0].slot == slot then [SlotSum(slot, sums[0].total + v)] + sums[1..]
    else [sums[0]] + AddSum(sums[1..], slot, v)
  }

  function Debits(moves: seq<Move>): seq<SlotSum> {
    if moves == [] then []
    else
      var m := moves[|moves| - 1];
      AddSum(Debits(moves[..|moves| - 1]), BalanceSlot(m.src, m.asset), m.amount)
  }

  function Credits(moves: seq<Move>): seq<SlotSum> {
    if moves == [] then []
    else
      var m := moves[|moves| - 1];
      AddSum(Credits(moves[..|moves| - 1]), BalanceSlot(m.dst, m.asset), m.amount)
  }

  /** The one-shot sources of a transfer, each once. */
  function BurnedSources(moves: seq<Move>): seq<Address> {
    if moves == [] then []
    else
      var before := BurnedSources(moves[..|moves| - 1]);
      var a := moves[|moves| - 1].src;
      if IsOneShot(a) && a !in before then before + [a] else before
  }

  predicate MoveOk(m: Move) {
    && (m.asset == NATIVE_ASSET || Version(m.asset) == VERSION_ASSET)
    && m.amount != 0
    && IsUser(m.src)
    && IsUser(m.dst)
    && m.src != m.dst
  }

  predicate SumsFit(sums: seq<SlotSum>) {
    forall i :: 0 <= i < |sums| ==> sums[i].total < TWO256
  }

  predicate TransferOk(moves: seq<Move>) {
    && moves != []
    && (forall i :: 0 <= i < |moves| ==> MoveOk(moves[i]))
    && SumsFit(Debits(moves))
    && SumsFit(Credits(moves))
    && (forall i, j :: 0 <= i < |Debits(moves)| && 0 <= j < |Credits(moves)| ==>
          Debits(moves)[i].slot != Credits(moves)[j].slot)
  }

  function GuardReads(sums: seq<SlotSum>): (r: seq<Read>)
    requires SumsFit(sums)
    ensures |r| == |sums|
    ensures forall i :: 0 <= i < |sums| ==> r[i] == Read(sums[i].slot, GuardGE, sums[i].total)
  {
    seq(|sums|, i requires 0 <= i < |sums| => Read(sums[i].slot, GuardGE, sums[i].total))
  }

  function DeltaWrites(sums: seq<SlotSum>, op: Op): (r: seq<Write>)
    requires SumsFit(sums)
    ensures |r| == |sums|
    ensures forall i :: 0 <= i < |sums| ==> r[i] == Write(sums[i].slot, op, sums[i].total)
  {
    seq(|sums|, i requires 0 <= i < |sums| => Write(sums[i].slot, op, sums[i].total))
  }

  function MarkWrites(addrs: seq<Address>): (r: seq<Write>)
    ensures |r| == |addrs|
    ensures forall i :: 0 <= i < |addrs| ==> r[i] == Write(Slot(addrs[i], SpentWord), OpMarkSpent, 0)
  {
    seq(|addrs|, i requires 0 <= i < |addrs| => Write(Slot(addrs[i], SpentWord), OpMarkSpent, 0))
  }

  datatype Derived = Derived(readList: seq<Read>, writes: seq<Write>)

  function DeriveTransfer(moves: seq<Move>): Option<Derived> {
    if !TransferOk(moves) then None
    else Some(Derived(
                GuardReads(Debits(moves)),
                DeltaWrites(Debits(moves), OpDeltaSub)
                + DeltaWrites(Credits(moves), OpDeltaAdd)
                + MarkWrites(BurnedSources(moves))))
  }

  function DeriveIssue(g: Program, asset: Address): Option<Derived>
    requires g.Issue?
  {
    if !IsUser(g.issuer) || g.issueCap == 0 then None
    else Some(Derived(
                [Read(Slot(asset, AssetCap), Exact, 0)],
                [Write(Slot(asset, AssetCap), OpSet, g.issueCap),
                 Write(Slot(asset, AssetDecimals), OpSet, g.decimals),
                 Write(Slot(asset, AssetSymbol), OpSet, g.symbolHash),
                 Write(Slot(asset, AssetMinter), OpSet, g.issueMinter)]))
  }

  function DeriveMint(g: Program): Option<Derived>
    requires g.Mint?
  {
    if Version(g.asset) != VERSION_ASSET || !IsUser(g.dst) || g.amount == 0 || g.cap == 0
       || g.amount > g.cap then None
    else Some(Derived(
                [Read(Slot(g.asset, AssetCap), Exact, g.cap),
                 Read(Slot(g.asset, AssetMinter), Exact, g.minter),
                 Read(Slot(g.asset, AssetMinted), GuardLE, g.cap - g.amount)],
                [Write(Slot(g.asset, AssetMinted), OpDeltaAdd, g.amount),
                 Write(BalanceSlot(g.dst, g.asset), OpDeltaAdd, g.amount)]))
  }

  function DeriveRetire(addrs: seq<Address>): Option<Derived> {
    if addrs == []
       || (exists i :: 0 <= i < |addrs| && !IsOneShot(addrs[i]))
       || (exists i :: 0 < i < |addrs| && addrs[i - 1] >= addrs[i]) then None
    else Some(Derived([], MarkWrites(addrs)))
  }

  function Derive(g: Program, p: Params, chainId: u64, seqNo: u64): Option<Derived> {
    match g
    case Transfer(moves) => DeriveTransfer(moves)
    case Issue(issuer, _, _, _, _) => DeriveIssue(g, p.DeriveAssetAddress(issuer, seqNo, chainId))
    case Mint(_, _, _, _, _) => DeriveMint(g)
    case Retire(addrs) => DeriveRetire(addrs)
  }

  predicate Marks(ws: seq<Write>, a: Address) {
    exists i :: 0 <= i < |ws| && ws[i].op.OpMarkSpent? && ws[i].slot.addr == a
  }

  function WithDepositMark(ws: seq<Write>, deposit: Address): seq<Write> {
    if !IsOneShot(deposit) || Marks(ws, deposit) then ws
    else ws + MarkWrites([deposit])
  }

  /** What a certificate implies: its program's sets plus the burn that debiting
      a one-shot deposit cell requires. */
  function DeriveCert(c: Certificate, p: Params): Option<Derived> {
    match Derive(c.program, p, c.chainId, c.seqNo)
    case None => None
    case Some(d) => Some(Derived(d.readList, WithDepositMark(d.writes, c.deposit.cell.addr)))
  }

  // ------------------------------------------------------------------ rules

  predicate DistinctReadSlots(rs: seq<Read>) {
    forall i, j :: 0 <= i < j < |rs| ==> rs[i].slot != rs[j].slot
  }

  predicate DistinctSlots(ws: seq<Write>) {
    forall i, j :: 0 <= i < j < |ws| ==> ws[i].slot != ws[j].slot
  }

  predicate Canonical(c: Certificate, p: Params) {
    && c.chainId == p.chainId
    && (c.program.Transfer? ==> |c.program.moves| <= p.maxMoves)
    && (c.program.Retire? ==> |c.program.addrs| <= p.maxRetire)
    && |c.readList| <= p.maxReads
    && |c.writes| <= p.maxWrites
    && 0 < |c.sigs| <= p.maxSigs
    && DistinctReadSlots(c.readList)
    && DistinctSlots(c.writes)
    && (forall i :: 0 < i < |c.sigs| ==> c.sigs[i - 1].pubKey < c.sigs[i].pubKey)
    && c.feeBid.seqPriority <= c.feeBid.seqMax
    && c.feeBid.parPriority <= c.feeBid.parMax
  }

  predicate DerivationMatches(c: Certificate, p: Params) {
    match DeriveCert(c, p)
    case None => false
    case Some(d) => multiset(c.readList) == multiset(d.readList) && multiset(c.writes) == multiset(d.writes)
  }

  /** Some read bounds this subtraction from below. */
  predicate SubIsCovered(c: Certificate, w: Write) {
    exists r :: r in c.readList && r.slot == w.slot && !r.access.GuardLE? && w.value <= r.operand
  }

  predicate AddFits(c: Certificate, w: Write) {
    forall r :: r in c.readList && r.slot == w.slot && !r.access.GuardGE? ==> r.operand + w.value < TWO256
  }

  predicate SelfConsistent(c: Certificate) {
    && (forall w :: w in c.writes && w.op.OpMarkSpent? ==> IsUser(w.slot.addr))
    && (forall w :: w in c.writes && w.op.OpDeltaSub? ==> SubIsCovered(c, w))
    && (forall w :: w in c.writes && w.op.OpDeltaAdd? ==> AddFits(c, w))
    && (IsOneShot(c.deposit.cell.addr) ==> Marks(c.writes, c.deposit.cell.addr))
    && (forall w :: w in c.writes && (w.op.OpDeltaSub? || w.op.OpSet?) && IsOneShot(w.slot.addr) ==>
          Marks(c.writes, w.slot.addr))
    && (forall w :: w in c.writes && !w.op.OpMarkSpent? && !w.op.OpDeltaSub? ==> !Marks(c.writes, w.slot.addr))
  }

  predicate NoProtocolWrites(c: Certificate) {
    forall w :: w in c.writes ==> Version(w.slot.addr) != VERSION_PROTOCOL
  }

  predicate SignsFor(c: Certificate, p: Params, s: Sig, a: Address)
  {
    Version(a) < 256 && p.AddressFromPubKey(Version(a), s.pubKey) == a
  }

  function RequiredAddresses(c: Certificate): set<Address> {
    {c.deposit.cell.addr}
    + (if c.program.Issue? then {c.program.issuer} else {})
    + (set w | w in c.writes && !w.op.OpDeltaAdd? && IsUser(w.slot.addr) :: w.slot.addr)
  }

  predicate Authorized(c: Certificate, p: Params) {
    && (forall a :: a in RequiredAddresses(c) ==> exists s :: s in c.sigs && SignsFor(c, p, s, a))
    && (c.program.Mint? ==> exists s :: s in c.sigs && s.pubKey == c.program.minter)
    && (forall s :: s in c.sigs ==>
          || (c.program.Mint? && s.pubKey == c.program.minter)
          || exists a :: a in RequiredAddresses(c) && SignsFor(c, p, s, a))
  }

  function FeeCeiling(c: Certificate, p: Params): Option<u256> {
    var total := Product(p.SeqGas(c), c.feeBid.seqMax) + Product(p.ParGas(c), c.feeBid.parMax);
    if total < TWO256 then Some(Max(p.skipFee, total)) else None
  }

  predicate DepositOk(c: Certificate, p: Params)
    requires p.Valid()
  {
    && c.deposit.cell.word == Balance(NATIVE_ASSET)
    && IsUser(c.deposit.cell.addr)
    && c.deposit.refundTo.word == Balance(NATIVE_ASSET)
    && IsUser(c.deposit.refundTo.addr)
    && !(IsOneShot(c.deposit.cell.addr) && c.deposit.refundTo.addr == c.deposit.cell.addr)
    && !Marks(c.writes, c.deposit.refundTo.addr)
    && FeeCeiling(c, p).Some?
    && FeeCeiling(c, p).value <= c.deposit.amount <= p.Issued(c.ttl)
  }

  predicate KnownVersions(c: Certificate) {
    && (forall r :: r in c.readList ==> Version(r.slot.addr) <= VERSION_ASSET)
    && (forall w :: w in c.writes ==> Version(w.slot.addr) <= VERSION_ASSET)
    && Version(c.deposit.cell.addr) <= VERSION_ASSET
    && Version(c.deposit.refundTo.addr) <= VERSION_ASSET
  }

  predicate SignaturesVerify(c: Certificate, p: Params) {
    forall s :: s in c.sigs ==> p.sigVerifies(c, s)
  }

  /** The first stateless rule a certificate breaks, in the order they run. */
  function StatelessFailure(c: Certificate, p: Params): Option<VRule>
    requires p.Valid()
  {
    if !Canonical(c, p) then Some(V1)
    else if !DerivationMatches(c, p) then Some(V3)
    else if !SelfConsistent(c) then Some(V6)
    else if !NoProtocolWrites(c) then Some(V7)
    else if !Authorized(c, p) then Some(V4)
    else if !DepositOk(c, p) then Some(V5)
    else if !KnownVersions(c) then Some(V9)
    else if !SignaturesVerify(c, p) then Some(V2)
    else None
  }

  predicate StatelessValid(c: Certificate, p: Params)
    requires p.Valid()
  {
    StatelessFailure(c, p).None?
  }
}
