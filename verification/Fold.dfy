/** The state-transition function (core/fold) as a function of values.

    Each stage of `apply` is a named function here; the in-place fold of modules
    `Machine` and `BlockMachine` is proved to compute exactly these. */
module Fold {
  import opened U256
  import opened Types
  import opened Validity
  import opened Ledgers
  import opened Medians

  datatype Outcome = Applied | SkippedStale | SkippedOverflow | Dropped

  datatype CertOutcome = CertOutcome(
    id: Hash,
    outcome: Outcome,
    charged: u256,
    refunded: u256,
    refundBurned: u256,
    swept: u256,
    sweptStranded: u256,
    strandedCells: nat)

  datatype Rule =
    | Stateless(v: VRule)
    | B0b | B1 | B2 | B3 | B4 | B5 | B6 | B7 | B8 | B9 | B10 | B11 | B12 | B13 | B14 | B15 | B16 | B17 | B18
    | C0 | C1 | C2 | C3 | C4 | C5
    | F3 | F13 | F14

  /** Why a block is refused: a named rule, or arithmetic that only broken
      conservation could reach. */
  datatype Fault = RuleFault(rule: Rule) | ConservationFault

  // ------------------------------------------------------------ block rules

  datatype Carried = Carried(cert: Certificate, id: Hash)

  function Carry(certs: seq<Certificate>, p: Params): (cc: seq<Carried>)
    ensures |cc| == |certs|
    ensures forall i :: 0 <= i < |certs| ==> cc[i] == Carried(certs[i], p.CertId(certs[i]))
  {
    seq(|certs|, i requires 0 <= i < |certs| => Carried(certs[i], p.CertId(certs[i])))
  }

  function CurrentSeqGasTarget(l: Ledger, p: Params, h: u64): u64 {
    if h == 0 then p.seqGasTargetGenesis else Wrap64(l.Get(ProtocolSlot(SeqGasTarget)))
  }

  function RuleSeqBaseFee(l: Ledger, p: Params, h: u64): u256 {
    if h == 0 then p.initialSeqBaseFee else l.Get(ProtocolSlot(SeqBaseFee))
  }

  function RuleParBaseFee(l: Ledger, p: Params, h: u64): u256 {
    if h == 0 then p.initialParBaseFee else l.Get(ProtocolSlot(ParBaseFee))
  }

  function SigCount(certs: seq<Certificate>): nat {
    if certs == [] then 0 else SigCount(certs[..|certs| - 1]) + |certs[|certs| - 1].sigs|
  }

  function SeqGasSum(cc: seq<Carried>, p: Params): nat {
    if cc == [] then 0 else SeqGasSum(cc[..|cc| - 1], p) + p.SeqGas(cc[|cc| - 1].cert)
  }

  function ParGasSum(cc: seq<Carried>, p: Params): nat {
    if cc == [] then 0 else ParGasSum(cc[..|cc| - 1], p) + p.ParGas(cc[|cc| - 1].cert)
  }

  predicate DuplicateId(cc: seq<Carried>, i: nat)
    requires i < |cc|
  {
    exists j :: 0 <= j < i && cc[j].id == cc[i].id
  }

  /** The rules one certificate is judged by, in order. */
  function CertRule(l: Ledger, h: u64, p: Params, cc: seq<Carried>, i: nat): Option<Rule>
    requires p.Valid() && i < |cc|
  {
    var c := cc[i].cert;
    var stateless := StatelessFailure(c, p);
    if stateless.Some? then Some(Stateless(stateless.value))
    else if DuplicateId(cc, i) then Some(B8)
    else if h > c.ttl then Some(B1)
    else if c.ttl - h > p.ttlMax then Some(B2)
    else if cc[i].id in l.seen then Some(B3)
    else if c.feeBid.seqMax < RuleSeqBaseFee(l, p, h) then Some(B4)
    else if c.feeBid.parMax < RuleParBaseFee(l, p, h) then Some(B4)
    else None
  }

  function CertsRule(l: Ledger, h: u64, p: Params, cc: seq<Carried>, n: nat): Option<Rule>
    requires p.Valid() && n <= |cc|
  {
    if n == 0 then None
    else
      var earlier := CertsRule(l, h, p, cc, n - 1);
      if earlier.Some? then earlier else CertRule(l, h, p, cc, n - 1)
  }

  function CiteRule(l: Ledger, b: Block, p: Params, i: nat): Option<Rule>
    requires i < |b.cites| && b.header.height > 1
  {
    var cited := b.cites[i];
    if cited.version != HEADER_VERSION then Some(C0)
    else if cited.height != b.header.height - 1 then Some(C1)
    else if cited.parentId != l.Get(ProtocolSlot(PrevParentId)) then Some(C2)
    else if p.headerHash(cited) == b.header.parentId then Some(C3)
    else if cited.target != l.Get(ProtocolSlot(PrevTarget)) then Some(C4)
    else if i > 0 && p.headerHash(cited) <= p.headerHash(b.cites[i - 1]) then Some(C5)
    else None
  }

  function CitesRule(l: Ledger, b: Block, p: Params, n: nat): Option<Rule>
    requires n <= |b.cites| && b.header.height > 1
  {
    if n == 0 then None
    else
      var earlier := CitesRule(l, b, p, n - 1);
      if earlier.Some? then earlier else CiteRule(l, b, p, n - 1)
  }

  function CheckCites(l: Ledger, b: Block, p: Params): Option<Rule> {
    if b.header.height <= 1 then
      if b.cites != [] then Some(B17) else None
    else CitesRule(l, b, p, |b.cites|)
  }

  function CheckGenesisShape(b: Block, p: Params): Option<Rule>
    requires p.Valid()
  {
    if b.header.height != 0 then
      if b.header.parentId == 0 then Some(B10) else None
    else if b.certs != [] then Some(B10)
    else if b.header.parentId != p.consensusRoot then Some(B10)
    else if b.header.emissionAddr != 0 then Some(B10)
    else if !p.IsEpochBoundary(0) then Some(B10)
    else None
  }

  function CheckEmissionAddr(b: Block): Option<Rule> {
    if b.header.height == 0 || IsUser(b.header.emissionAddr) then None else Some(B11)
  }

  function CheckSeedEpoch(b: Block, p: Params): Option<Rule>
    requires p.Valid()
  {
    if b.header.pow.seedEpoch == p.SeedEpochFor(b.header.height) then None else Some(B0b)
  }

  function FirstOf(a: Option<Rule>, b: Option<Rule>): Option<Rule> {
    if a.Some? then a else b
  }

  predicate WritesProtocol(certs: seq<Certificate>) {
    exists i :: 0 <= i < |certs| && !NoProtocolWrites(certs[i])
  }

  /** The rules that need only the header, the sizes and the cited headers. */
  function HeaderRule(l: Ledger, b: Block, p: Params): Option<Rule>
    requires p.Valid()
  {
    var h := b.header;
    var t := CurrentSeqGasTarget(l, p, h.height);
    if h.version != HEADER_VERSION then Some(B7)
    else if |b.certs| > p.MaxCertsPerBlock(t) then Some(B12)
    else if SigCount(b.certs) > p.MaxSigsPerBlock(t) then Some(B18)
    else if BlockSize(b) > p.BlockByteLimit(t) then Some(B13)
    else if |b.cites| > p.maxCites then Some(B15)
    else if p.certRootOf(b.certs) != h.certRoot then Some(B14)
    else if p.citesRootOf(b.cites) != h.citesRoot then Some(B16)
    else
      FirstOf(CheckCites(l, b, p),
              FirstOf(CheckGenesisShape(b, p),
                      FirstOf(CheckEmissionAddr(b),
                              FirstOf(CheckSeedEpoch(b, p),
                                      if !p.IsEpochBoundary(h.height) && h.stateRoot != 0 then Some(B9) else None))))
  }

  /** The first rule a block breaks, in the order they run. */
  function BlockRule(l: Ledger, b: Block, p: Params): Option<Rule>
    requires p.Valid()
  {
    var cc := Carry(b.certs, p);
    var t := CurrentSeqGasTarget(l, p, b.header.height);
    var header := HeaderRule(l, b, p);
    if header.Some? then header
    else
      var certs := CertsRule(l, b.header.height, p, cc, |cc|);
      if certs.Some? then certs
      else if Wrap64(SeqGasSum(cc, p)) > p.SeqGasBurst(t) then Some(B5)
      else if Wrap64(ParGasSum(cc, p)) > p.ParGasLimit(t) then Some(B6)
      else if WritesProtocol(b.certs) then Some(F13)
      else None
  }

  // ------------------------------------------------------- one certificate

  predicate ReadHolds(l: Ledger, r: Read) {
    && r.slot.addr !in l.spent
    && match r.access
       case Exact => l.Get(r.slot) == r.operand
       case GuardEQ => l.Get(r.slot) == r.operand
       case GuardGE => l.Get(r.slot) >= r.operand
       case GuardLE => l.Get(r.slot) <= r.operand
  }

  predicate ReadsHold(l: Ledger, rs: seq<Read>) {
    forall i :: 0 <= i < |rs| ==> ReadHolds(l, rs[i])
  }

  datatype PendingCell = PendingCell(slot: Slot, value: u256)
  datatype Overlay = Staged(cells: seq<PendingCell>, spend: seq<Address>) | NotStaged(outcome: Outcome)

  function StageOne(l: Ledger, w: Write, cells: seq<PendingCell>, spend: seq<Address>): Overlay {
    if w.slot.addr in l.spent then NotStaged(SkippedStale)
    else
      match w.op
      case OpMarkSpent => Staged(cells, spend + [w.slot.addr])
      case OpSet => Staged(cells + [PendingCell(w.slot, w.value)], spend)
      case OpDeltaAdd =>
        if l.Get(w.slot) + w.value >= TWO256 then NotStaged(SkippedOverflow)
        else Staged(cells + [PendingCell(w.slot, l.Get(w.slot) + w.value)], spend)
      case OpDeltaSub =>
        if l.Get(w.slot) < w.value then NotStaged(SkippedOverflow)
        else Staged(cells + [PendingCell(w.slot, l.Get(w.slot) - w.value)], spend)
  }

  /** Every write against the pre-commit state; one failure discards them all. */
  function Stage(l: Ledger, ws: seq<Write>): Overlay {
    if ws == [] then Staged([], [])
    else
      match Stage(l, ws[..|ws| - 1])
      case NotStaged(o) => NotStaged(o)
      case Staged(cells, spend) => StageOne(l, ws[|ws| - 1], cells, spend)
  }

  function CommitCells(l: Ledger, cells: seq<PendingCell>): Ledger {
    if cells == [] then l
    else CommitCells(l, cells[..|cells| - 1]).Put(cells[|cells| - 1].slot, cells[|cells| - 1].value)
  }

  function CommitSpends(l: Ledger, spend: seq<Address>): Ledger {
    if spend == [] then l else CommitSpends(l, spend[..|spend| - 1]).Spend(spend[|spend| - 1])
  }

  datatype Residual = Residual(ledger: Ledger, moved: u256, left: u256)

  function MoveResidual(l: Ledger, src: Slot, dst: Address): Residual {
    var v := l.Get(src);
    var target := Slot(dst, src.word);
    if v == 0 then Residual(l, 0, 0)
    else if dst in l.spent then Residual(l, 0, v)
    else if l.Get(target) + v >= TWO256 then Residual(l, 0, v)
    else Residual(l.Put(src, 0).Put(target, l.Get(target) + v), v, 0)
  }

  datatype Sweep = Sweep(ledger: Ledger, swept: u256, stranded: u256, cells: nat)

  function SweepNative(s: Sweep, c: Certificate, a: Address): Sweep {
    var r := MoveResidual(s.ledger, NativeSlot(a), c.deposit.refundTo.addr);
    Sweep(r.ledger, SatAdd(s.swept, r.moved), SatAdd(s.stranded, r.left),
          s.cells + if r.left != 0 then 1 else 0)
  }

  predicate SweepsAlso(x: Write, a: Address) {
    x.slot.addr == a && !x.op.OpMarkSpent? && x.slot.word != Balance(NATIVE_ASSET)
  }

  function SweepNamed(s: Sweep, c: Certificate, a: Address, n: nat): Sweep
    requires n <= |c.writes|
  {
    if n == 0 then s
    else
      var t := SweepNamed(s, c, a, n - 1);
      var x := c.writes[n - 1];
      if !SweepsAlso(x, a) then t
      else
        var r := MoveResidual(t.ledger, x.slot, c.deposit.refundTo.addr);
        t.(ledger := r.ledger, cells := t.cells + if r.left != 0 then 1 else 0)
  }

  /** F8b over the first `n` writes: empty what each burned address still holds. */
  function SweepBurned(l: Ledger, c: Certificate, n: nat): Sweep
    requires n <= |c.writes|
  {
    if n == 0 then Sweep(l, 0, 0, 0)
    else
      var s := SweepBurned(l, c, n - 1);
      var w := c.writes[n - 1];
      if !w.op.OpMarkSpent? then s
      else SweepNamed(SweepNative(s, c, w.slot.addr), c, w.slot.addr, |c.writes|)
  }

  // ------------------------------------------------------------------- fees

  datatype Market = Market(burn: nat, tip: nat)

  /** One fee market: the base portion burned, the clamped priority tipped. */
  function MarketOf(gas: u64, base: u256, maxPrice: u256, priority: u256): Option<Market> {
    if maxPrice < base then None
    else
      var effective := Min(priority, maxPrice - base);
      var burn := Product(gas, base);
      var tip := Product(gas, effective);
      if burn >= TWO256 || tip >= TWO256 then None else Some(Market(burn, tip))
  }

  datatype Fee = Fee(charge: u256, burned: u256, tip: u256)

  function Fees(c: Certificate, p: Params, seqBase: u256, parBase: u256): Option<Fee> {
    var s := MarketOf(p.SeqGas(c), seqBase, c.feeBid.seqMax, c.feeBid.seqPriority);
    var q := MarketOf(p.ParGas(c), parBase, c.feeBid.parMax, c.feeBid.parPriority);
    if s.None? || q.None? then None
    else
      var burned := s.value.burn + q.value.burn;
      var tip := s.value.tip + q.value.tip;
      if burned >= TWO256 || tip >= TWO256 || burned + tip >= TWO256 then None
      else Some(Fee(burned + tip, burned, tip))
  }

  // ------------------------------------------------------------- settlement

  datatype CertStep = CertFault(fault: Fault) | CertDone(ledger: Ledger, out: CertOutcome, burned: u256)

  function BareOutcome(id: Hash, outcome: Outcome): CertOutcome {
    CertOutcome(id, outcome, 0, 0, 0, 0, 0, 0)
  }

  function Settle(l: Ledger, c: Certificate, id: Hash, outcome: Outcome, charge: u256, burned: u256): CertStep {
    var burned1 := if outcome != Applied then burned + charge else burned;
    if burned1 >= TWO256 then CertFault(ConservationFault)
    else if c.deposit.amount < charge then CertFault(ConservationFault)
    else
      var refund := c.deposit.amount - charge;
      if refund == 0 then
        CertDone(l.See(id, c.ttl), BareOutcome(id, outcome).(charged := charge), burned1)
      else if c.deposit.refundTo.addr in l.spent then
        if burned1 + refund >= TWO256 then CertFault(ConservationFault)
        else CertDone(l.See(id, c.ttl),
                      BareOutcome(id, outcome).(charged := charge, refundBurned := refund), burned1 + refund)
      else if l.Get(c.deposit.refundTo) + refund >= TWO256 then CertFault(ConservationFault)
      else CertDone(l.Put(c.deposit.refundTo, l.Get(c.deposit.refundTo) + refund).See(id, c.ttl),
                    BareOutcome(id, outcome).(charged := charge, refunded := refund), burned1)
  }

  datatype CertResult =
    | CertFailed(fault: Fault)
    | CertSettled(ledger: Ledger, out: CertOutcome, tip: u256, burned: u256)

  function Untipped(s: CertStep): CertResult {
    match s
    case CertFault(f) => CertFailed(f)
    case CertDone(l, out, burned) => CertSettled(l, out, 0, burned)
  }

  /** F8 through F9 of a certificate whose reads held and whose writes staged. */
  function ApplyStaged(l: Ledger, c: Certificate, id: Hash, p: Params, seqBase: u256, parBase: u256, burned: u256,
                       cells: seq<PendingCell>, spend: seq<Address>): CertResult {
    var sw := SweepBurned(CommitSpends(CommitCells(l, cells), spend), c, |c.writes|);
    var fees := Fees(c, p, seqBase, parBase);
    if fees.None? || burned + fees.value.burned >= TWO256 then CertFailed(ConservationFault)
    else
      match Settle(sw.ledger, c, id, Applied, fees.value.charge, burned + fees.value.burned)
      case CertFault(f) => CertFailed(f)
      case CertDone(l', out, burned') =>
        CertSettled(l', out.(swept := sw.swept, sweptStranded := sw.stranded, strandedCells := sw.cells),
                    fees.value.tip, burned')
  }

  /** F6 onward, once the deposit is reserved. */
  function ApplyReserved(l: Ledger, c: Certificate, id: Hash, p: Params, seqBase: u256, parBase: u256, burned: u256)
    : CertResult
  {
    if !ReadsHold(l, c.readList) then Untipped(Settle(l, c, id, SkippedStale, p.skipFee, burned))
    else
      match Stage(l, c.writes)
      case NotStaged(o) => Untipped(Settle(l, c, id, o, p.skipFee, burned))
      case Staged(cells, spend) => ApplyStaged(l, c, id, p, seqBase, parBase, burned, cells, spend)
  }

  predicate Reservable(l: Ledger, c: Certificate) {
    c.deposit.cell.addr !in l.spent && l.Get(c.deposit.cell) >= c.deposit.amount
  }

  function Reserved(l: Ledger, c: Certificate): Ledger
    requires Reservable(l, c)
  {
    l.Put(c.deposit.cell, l.Get(c.deposit.cell) - c.deposit.amount)
  }

  function ApplyCertificate(l: Ledger, c: Certificate, id: Hash, p: Params, seqBase: u256, parBase: u256, burned: u256)
    : CertResult
  {
    if !IsUser(c.deposit.cell.addr) then CertFailed(RuleFault(F3))
    else if !Reservable(l, c) then CertSettled(l, BareOutcome(id, Dropped), 0, burned)
    else ApplyReserved(Reserved(l, c), c, id, p, seqBase, parBase, burned)
  }

  // ------------------------------------------------------------- fold order

  /** F1's key: underwriter, then the signer's own sequence, then the id. */
  predicate Before(a: Carried, b: Carried) {
    var ua := a.cert.deposit.cell.addr;
    var ub := b.cert.deposit.cell.addr;
    || ua < ub
    || (ua == ub && a.cert.seqNo < b.cert.seqNo)
    || (ua == ub && a.cert.seqNo == b.cert.seqNo && a.id < b.id)
  }

  function Insert(sorted: seq<Carried>, x: Carried): seq<Carried> {
    if sorted == [] || !Before(x, sorted[|sorted| - 1]) then sorted + [x]
    else Insert(sorted[..|sorted| - 1], x) + [sorted[|sorted| - 1]]
  }

  function FoldOrder(cc: seq<Carried>): seq<Carried> {
    if cc == [] then [] else Insert(FoldOrder(cc[..|cc| - 1]), cc[|cc| - 1])
  }

  // ------------------------------------------------------ a block's stages

  /** F2: the epoch beacon. */
  function WriteBeacon(l: Ledger, b: Block, p: Params): Ledger
    requires p.Valid()
  {
    l.Put(ProtocolSlot(BeaconEpoch), Quot(b.header.height, p.epochLength))
     .Put(ProtocolSlot(BeaconHeight), b.header.height)
     .Put(ProtocolSlot(BeaconEntropy), b.header.parentId - b.header.parentId % TWO128)
  }

  const TWO128: nat := 0x1_0000_0000_0000_0000_0000_0000_0000_0000

  function Samples(l: Ledger, n: nat): seq<u64> {
    if n == 0 then [] else Samples(l, n - 1) + [Wrap64(l.Get(ProtocolSlot(AppliedGasSample(n - 1))))]
  }

  predicate Healthy(l: Ledger, p: Params) {
    Product(Wrap64(l.Get(ProtocolSlot(CitedCount))), 10000) <= Product(p.healthGateBps, p.epochLength)
  }

  lemma SamplesLength(l: Ledger, n: nat)
    ensures |Samples(l, n)| == n
  {
  }

  function LowerMedian(l: Ledger, p: Params): u64
    requires p.Valid()
  {
    SamplesLength(l, p.epochLength);
    Sorted(Samples(l, p.epochLength))[(p.epochLength - 1) / 2]
  }

  /** F2b: the epoch controller. */
  function UpdateSeqGasTarget(l: Ledger, p: Params): Ledger
    requires p.Valid()
  {
    var t := Wrap64(l.Get(ProtocolSlot(SeqGasTarget)));
    l.Put(ProtocolSlot(SeqGasTarget), p.NextSeqGasTarget(t, Wrap64(2 * LowerMedian(l, p)), Healthy(l, p)))
     .Put(ProtocolSlot(CitedCount), 0)
  }

  /** Everything the fold writes before the first certificate. */
  function Prologue(l: Ledger, b: Block, p: Params): Ledger
    requires p.Valid()
  {
    var h := b.header.height;
    var l1 := if p.IsEpochBoundary(h) then WriteBeacon(l, b, p) else l;
    var l2 := if p.IsEpochBoundary(h) && h > 0 then UpdateSeqGasTarget(l1, p) else l1;
    if h == 0 then
      l2.Put(ProtocolSlot(SeqBaseFee), p.initialSeqBaseFee)
        .Put(ProtocolSlot(ParBaseFee), p.initialParBaseFee)
        .Put(ProtocolSlot(SeqGasTarget), p.seqGasTargetGenesis)
    else l2
  }

  datatype Progress =
    | Halted(fault: Fault)
    | Running(ledger: Ledger, outcomes: seq<CertOutcome>, tips: u256, burned: u256,
              seqUsed: u64, parUsed: u64, seqApplied: u64, parApplied: u64)

  function FoldOne(g: Progress, cy: Carried, p: Params, seqBase: u256, parBase: u256): Progress
    requires g.Running?
  {
    match ApplyCertificate(g.ledger, cy.cert, cy.id, p, seqBase, parBase, g.burned)
    case CertFailed(f) => Halted(f)
    case CertSettled(l, out, tip, burned) =>
      if g.tips + tip >= TWO256 then Halted(ConservationFault)
      else
        var applied := out.outcome == Applied;
        Running(l, g.outcomes + [out], g.tips + tip, burned,
                Wrap64(g.seqUsed + p.SeqGas(cy.cert)), Wrap64(g.parUsed + p.ParGas(cy.cert)),
                if applied then Wrap64(g.seqApplied + p.SeqGas(cy.cert)) else g.seqApplied,
                if applied then Wrap64(g.parApplied + p.ParGas(cy.cert)) else g.parApplied)
  }

  /** The certificates, in fold order, one after the other. */
  function FoldCerts(l: Ledger, cc: seq<Carried>, p: Params, seqBase: u256, parBase: u256): Progress {
    if cc == [] then Running(l, [], 0, 0, 0, 0, 0, 0)
    else
      var g := FoldCerts(l, cc[..|cc| - 1], p, seqBase, parBase);
      if g.Halted? then g else FoldOne(g, cc[|cc| - 1], p, seqBase, parBase)
  }

  /** F2c: this block's sample, citations, parent and target. */
  function Bookkeeping(l: Ledger, b: Block, p: Params, seqApplied: u64): Ledger
    requires p.Valid()
  {
    var l1 := l.Put(ProtocolSlot(AppliedGasSample(b.header.height % p.epochLength)), seqApplied);
    var l2 := if b.cites == [] then l1
              else l1.Put(ProtocolSlot(CitedCount),
                          Wrap64(Wrap64(l1.Get(ProtocolSlot(CitedCount))) + |b.cites|));
    l2.Put(ProtocolSlot(PrevParentId), b.header.parentId)
      .Put(ProtocolSlot(PrevTarget), b.header.target)
  }

  /** F10: forget the ids no later block can include. */
  function PruneSeen(l: Ledger, h: u64): Ledger {
    if h >= 1 then l.Prune(h - 1) else l
  }

  function TreasuryShare(p: Params, h: u64): u256
    requires p.Valid()
  {
    MulDiv64(p.Emission(h), p.treasuryShareBps, 10000)
  }

  /** The quadratic burst forfeiture. */
  function Forfeit(reward: u256, used: u64, limit: u64): u256
    requires used > limit > 0
  {
    var excess := used - limit;
    MulDiv64(MulDiv64(reward, excess, limit), excess, limit)
  }

  datatype Reward = NoReward | Reward(miner: u256, burned: u256)

  /** F11's split: the producer's remainder plus the tips, less the forfeit. */
  function RewardOf(p: Params, h: u64, tips: u256, burned: u256, used: u64, limit: u64): Reward
    requires p.Valid()
    requires BurstWellDefined(used, limit)
  {
    var subsidy := p.Emission(h);
    var treasury := TreasuryShare(p, h);
    if treasury > subsidy then NoReward
    else if subsidy - treasury + tips >= TWO256 then NoReward
    else
      var reward := subsidy - treasury + tips;
      if used <= limit then Reward(reward, burned)
      else
        var forfeit := Forfeit(reward, used, limit);
        if burned + forfeit >= TWO256 then NoReward
        else Reward(SatSub(reward, forfeit), burned + forfeit)
  }

  datatype Paid = NotPaid | Paid(ledger: Ledger, matured: u256, burned: u256)

  /** The treasury's share, credited at once. */
  function PayTreasury(l: Ledger, treasury: u256): Option<Ledger> {
    if treasury == 0 then Some(l)
    else if l.Get(TreasurySlot()) + treasury >= TWO256 then None
    else Some(l.Put(TreasurySlot(), l.Get(TreasurySlot()) + treasury))
  }

  /** F12, release: the reward written one maturity ago. */
  function ReleaseCoinbase(l: Ledger, index: nat, burned: u256): Paid {
    var amount := l.Get(ProtocolSlot(PendingAmount(index)));
    var payee := l.Get(ProtocolSlot(PendingAddr(index)));
    if amount == 0 then Paid(l, 0, burned)
    else if payee in l.spent then
      if burned + amount >= TWO256 then NotPaid else Paid(l, 0, burned + amount)
    else if l.Get(NativeSlot(payee)) + amount >= TWO256 then NotPaid
    else Paid(l.Put(NativeSlot(payee), l.Get(NativeSlot(payee)) + amount), amount, burned)
  }

  /** F12, record: this block's reward, or a cleared entry when there is none. */
  function RecordCoinbase(l: Ledger, index: nat, payee: Address, reward: u256): Ledger {
    l.Put(ProtocolSlot(PendingAddr(index)), if reward == 0 then 0 else payee)
     .Put(ProtocolSlot(PendingAmount(index)), reward)
  }

  /** F12b: the two base fees. */
  function UpdateBaseFees(l: Ledger, b: Block, p: Params, t: u64, seqBase: u256, parBase: u256,
                          seqApplied: u64, parApplied: u64): Ledger
    requires p.Valid()
  {
    if b.header.height == 0 then l
    else
      l.Put(ProtocolSlot(SeqBaseFee), p.NextBaseFee(seqBase, Min(seqApplied, p.SeqGasLimit(t)), t))
       .Put(ProtocolSlot(ParBaseFee), p.NextBaseFee(parBase, parApplied, p.ParGasTarget(t)))
  }

  datatype BlockResult = BlockResult(
    outcomes: seq<CertOutcome>,
    seqGasUsed: u64, parGasUsed: u64, seqGasApplied: u64, parGasApplied: u64,
    burned: u256, minerReward: u256, treasury: u256, matured: u256,
    stateRoot: Hash)

  datatype ApplyResult = Rejected(fault: Fault) | Accepted(ledger: Ledger, res: BlockResult)

  /** F11 through F14, after the certificates have run and the books are kept. */
  function Epilogue(l: Ledger, b: Block, p: Params, checkRoot: bool, t: u64, seqBase: u256, parBase: u256, g: Progress)
    : ApplyResult
    requires p.Valid() && g.Running?
    requires BurstWellDefined(g.seqUsed, p.SeqGasLimit(t))
  {
    var h := b.header.height;
    var reward := RewardOf(p, h, g.tips, g.burned, g.seqUsed, p.SeqGasLimit(t));
    if reward.NoReward? then Rejected(ConservationFault)
    else
      var l1 := PayTreasury(l, TreasuryShare(p, h));
      if l1.None? then Rejected(ConservationFault)
      else
        var index := h % p.coinbaseMaturity;
        var paid := ReleaseCoinbase(l1.value, index, reward.burned);
        if paid.NotPaid? then Rejected(ConservationFault)
        else
          var l2 := RecordCoinbase(paid.ledger, index, b.header.emissionAddr, reward.miner);
          var l3 := UpdateBaseFees(l2, b, p, t, seqBase, parBase, g.seqApplied, g.parApplied);
          var root := if p.IsEpochBoundary(h) then p.stateRootOf(l3.cells, l3.spent) else 0;
          if p.IsEpochBoundary(h) && checkRoot && root != b.header.stateRoot then Rejected(RuleFault(F14))
          else Accepted(l3, BlockResult(g.outcomes, g.seqUsed, g.parUsed, g.seqApplied, g.parApplied,
                                        paid.burned, reward.miner, TreasuryShare(p, h), paid.matured, root))
  }

  /** A block that passed its rules can only enter the burst band when the
      sequential limit is positive, so the forfeiture never divides by zero. */
  predicate BurstWellDefined(used: u64, limit: u64) {
    used > limit ==> limit > 0
  }

  function Apply(l: Ledger, b: Block, p: Params, checkRoot: bool): ApplyResult
    requires p.Valid()
  {
    var h := b.header.height;
    var t := CurrentSeqGasTarget(l, p, h);
    var rule := BlockRule(l, b, p);
    if rule.Some? then Rejected(RuleFault(rule.value))
    else
      var l1 := Prologue(l, b, p);
      var seqBase := l1.Get(ProtocolSlot(SeqBaseFee));
      var parBase := l1.Get(ProtocolSlot(ParBaseFee));
      var g := FoldCerts(l1, FoldOrder(Carry(b.certs, p)), p, seqBase, parBase);
      if g.Halted? then Rejected(g.fault)
      else
        UsedWithinBurst(l, b, p, l1, seqBase, parBase);
        var l2 := PruneSeen(Bookkeeping(g.ledger, b, p, g.seqApplied), h);
        Epilogue(l2, b, p, checkRoot, t, seqBase, parBase, g)
  }

  /** The gas a block reports is the gas its rules bounded: summing in fold order
      or in block order is the same, wrap-around included. */
  lemma UsedWithinBurst(l: Ledger, b: Block, p: Params, l1: Ledger, seqBase: u256, parBase: u256)
    requires p.Valid() && BlockRule(l, b, p).None?
    ensures
      var g := FoldCerts(l1, FoldOrder(Carry(b.certs, p)), p, seqBase, parBase);
      var t := CurrentSeqGasTarget(l, p, b.header.height);
      g.Running? ==>
        && g.seqUsed == Wrap64(SeqGasSum(Carry(b.certs, p), p))
        && g.seqUsed <= p.SeqGasBurst(t)
        && BurstWellDefined(g.seqUsed, p.SeqGasLimit(t))
  {
    var cc := Carry(b.certs, p);
    FoldCountsGas(l1, FoldOrder(cc), p, seqBase, parBase);
    FoldOrderKeepsGas(cc, p);
    RulesBoundGas(l, b, p);
    BurstNeedsALimit(CurrentSeqGasTarget(l, p, b.header.height), Wrap64(SeqGasSum(cc, p)), p);
  }

  lemma RulesBoundGas(l: Ledger, b: Block, p: Params)
    requires p.Valid() && BlockRule(l, b, p).None?
    ensures Wrap64(SeqGasSum(Carry(b.certs, p), p)) <= p.SeqGasBurst(CurrentSeqGasTarget(l, p, b.header.height))
  {
  }

  lemma BurstNeedsALimit(t: u64, used: u64, p: Params)
    requires used <= p.SeqGasBurst(t)
    ensures BurstWellDefined(used, p.SeqGasLimit(t))
  {
  }

  lemma {:induction false} FoldCountsGas(l: Ledger, cc: seq<Carried>, p: Params, seqBase: u256, parBase: u256)
    ensures
      var g := FoldCerts(l, cc, p, seqBase, parBase);
      g.Running? ==> g.seqUsed == Wrap64(SeqGasSum(cc, p))
  {
    hide FoldOne;
    if cc != [] {
      var n := |cc| - 1;
      FoldCountsGas(l, cc[..n], p, seqBase, parBase);
      var g := FoldCerts(l, cc[..n], p, seqBase, parBase);
      if g.Running? {
        FoldOneCountsGas(g, cc[n], p, seqBase, parBase, SeqGasSum(cc[..n], p));
      }
    }
  }

  lemma FoldOneCountsGas(g: Progress, cy: Carried, p: Params, seqBase: u256, parBase: u256, sum: nat)
    requires g.Running? && g.seqUsed == Wrap64(sum)
    ensures
      var g' := FoldOne(g, cy, p, seqBase, parBase);
      g'.Running? ==> g'.seqUsed == Wrap64(sum + p.SeqGas(cy.cert))
  {
    hide ApplyCertificate, Params.SeqGas, Params.ParGas;
    WrapAbsorbs(sum, p.SeqGas(cy.cert));
  }

  lemma {:induction false} InsertKeepsGas(sorted: seq<Carried>, x: Carried, p: Params)
    ensures SeqGasSum(Insert(sorted, x), p) == SeqGasSum(sorted, p) + p.SeqGas(x.cert)
  {
    var n := |sorted|;
    if sorted == [] || !Before(x, sorted[n - 1]) {
      assert (sorted + [x])[..n] == sorted;
    } else {
      InsertKeepsGas(sorted[..n - 1], x, p);
      var r := Insert(sorted[..n - 1], x);
      assert (r + [sorted[n - 1]])[..|r|] == r;
    }
  }

  lemma {:induction false} FoldOrderKeepsGas(cc: seq<Carried>, p: Params)
    ensures SeqGasSum(FoldOrder(cc), p) == SeqGasSum(cc, p)
  {
    if cc != [] {
      FoldOrderKeepsGas(cc[..|cc| - 1], p);
      InsertKeepsGas(FoldOrder(cc[..|cc| - 1]), cc[|cc| - 1], p);
    }
  }
}
