/** What the derivation rule guarantees about a certificate's declared writes:
    where they may land, and that they neither create nor destroy units of any
    pool except by minting. */
module Derivation {
  import opened U256
  import opened Types
  import opened Validity
  import opened Ledgers
  import opened Seqs

  // ------------------------------------------------- signed sums of writes

  function Delta(w: Write, pool: Pool): int {
    if !Counts(pool, w.slot) then 0
    else match w.op
      case OpDeltaAdd => w.value
      case OpDeltaSub => -(w.value as int)
      case _ => 0
  }

  function NetDelta(ws: seq<Write>, pool: Pool): int {
    if ws == [] then 0 else NetDelta(ws[..|ws| - 1], pool) + Delta(ws[|ws| - 1], pool)
  }

  lemma {:induction false} NetDeltaConcat(a: seq<Write>, b: seq<Write>, pool: Pool)
    ensures NetDelta(a + b, pool) == NetDelta(a, pool) + NetDelta(b, pool)
  {
    if b == [] {
      assert a + b == a;
    } else {
      var n := |b| - 1;
      assert (a + b)[..|a + b| - 1] == a + b[..n];
      NetDeltaConcat(a, b[..n], pool);
    }
  }

  lemma NetDeltaSingle(w: Write, pool: Pool)
    ensures NetDelta([w], pool) == Delta(w, pool)
  {
    assert [w][..0] == [];
  }

  lemma NetDeltaRemove(ws: seq<Write>, i: nat, pool: Pool)
    requires i < |ws|
    ensures NetDelta(ws, pool) == NetDelta(Without(ws, i), pool) + Delta(ws[i], pool)
  {
    assert ws == ws[..i] + ([ws[i]] + ws[i + 1..]);
    NetDeltaConcat(ws[..i], [ws[i]] + ws[i + 1..], pool);
    NetDeltaConcat([ws[i]], ws[i + 1..], pool);
    NetDeltaConcat(ws[..i], ws[i + 1..], pool);
    NetDeltaSingle(ws[i], pool);
  }

  /** The order the writes are declared in does not matter. */
  lemma {:induction false} NetDeltaPermutes(a: seq<Write>, b: seq<Write>, pool: Pool)
    requires multiset(a) == multiset(b)
    ensures NetDelta(a, pool) == NetDelta(b, pool)
    decreases |a|
  {
    EqualBagsEqualLengths(a, b);
    if a != [] {
      var i := PeelEqualBags(a, b);
      NetDeltaPermutes(a[..|a| - 1], Without(b, i), pool);
      NetDeltaRemove(b, i, pool);
    }
  }

  // --------------------------------------------------- transfers balance

  function PoolSum(sums: seq<SlotSum>, pool: Pool): nat {
    if sums == [] then 0
    else (if Counts(pool, sums[0].slot) then sums[0].total else 0) + PoolSum(sums[1..], pool)
  }

  lemma {:induction false} AddSumAdds(sums: seq<SlotSum>, slot: Slot, v: nat, pool: Pool)
    ensures PoolSum(AddSum(sums, slot, v), pool) == PoolSum(sums, pool) + if Counts(pool, slot) then v else 0
  {
    if sums == [] {
    } else if sums[0].slot == slot {
      assert ([SlotSum(slot, sums[0].total + v)] + sums[1..])[1..] == sums[1..];
    } else {
      AddSumAdds(sums[1..], slot, v, pool);
      assert ([sums[0]] + AddSum(sums[1..], slot, v))[1..] == AddSum(sums[1..], slot, v);
    }
  }

  /** What a transfer takes out of a pool it puts back into the same pool. */
  lemma {:induction false} DebitsEqualCredits(moves: seq<Move>, pool: Pool)
    ensures PoolSum(Debits(moves), pool) == PoolSum(Credits(moves), pool)
  {
    if moves != [] {
      var n := |moves| - 1;
      var m := moves[n];
      DebitsEqualCredits(moves[..n], pool);
      AddSumAdds(Debits(moves[..n]), BalanceSlot(m.src, m.asset), m.amount, pool);
      AddSumAdds(Credits(moves[..n]), BalanceSlot(m.dst, m.asset), m.amount, pool);
    }
  }

  lemma {:induction false} DeltaWritesNet(sums: seq<SlotSum>, op: Op, pool: Pool)
    requires SumsFit(sums)
    requires op.OpDeltaAdd? || op.OpDeltaSub?
    ensures NetDelta(DeltaWrites(sums, op), pool) ==
            if op.OpDeltaAdd? then PoolSum(sums, pool) as int else -(PoolSum(sums, pool) as int)
  {
    if sums != [] {
      var w := DeltaWrites(sums, op);
      assert w == [w[0]] + DeltaWrites(sums[1..], op);
      NetDeltaConcat([w[0]], DeltaWrites(sums[1..], op), pool);
      NetDeltaSingle(w[0], pool);
      DeltaWritesNet(sums[1..], op, pool);
    }
  }

  lemma {:induction false} NeutralWrites(ws: seq<Write>, pool: Pool)
    requires forall i :: 0 <= i < |ws| ==> !Counts(pool, ws[i].slot) || ws[i].op.OpMarkSpent? || ws[i].op.OpSet?
    ensures NetDelta(ws, pool) == 0
  {
    if ws != [] {
      NeutralWrites(ws[..|ws| - 1], pool);
    }
  }

  lemma TransferBalances(moves: seq<Move>, pool: Pool)
    requires TransferOk(moves)
    ensures NetDelta(DeriveTransfer(moves).value.writes, pool) == 0
  {
    var d := DeltaWrites(Debits(moves), OpDeltaSub);
    var k := DeltaWrites(Credits(moves), OpDeltaAdd);
    var m := MarkWrites(BurnedSources(moves));
    DeltaWritesNet(Debits(moves), OpDeltaSub, pool);
    DeltaWritesNet(Credits(moves), OpDeltaAdd, pool);
    DebitsEqualCredits(moves, pool);
    NeutralWrites(m, pool);
    NetDeltaConcat(d, k, pool);
    NetDeltaConcat(d + k, m, pool);
  }

  /** The units a certificate brings into being. */
  function Minted(c: Certificate, pool: Pool): nat {
    if c.program.Mint? && pool == Asset(c.program.asset) then c.program.amount else 0
  }

  lemma MintNet(g: Program, pool: Pool)
    requires g.Mint? && DeriveMint(g).Some?
    requires pool.Asset? ==> Version(pool.id) == VERSION_ASSET
    ensures NetDelta(DeriveMint(g).value.writes, pool) == if pool == Asset(g.asset) then g.amount as int else 0
  {
    var ws := DeriveMint(g).value.writes;
    assert ws == [ws[0]] + [ws[1]];
    NetDeltaConcat([ws[0]], [ws[1]], pool);
    NetDeltaSingle(ws[0], pool);
    NetDeltaSingle(ws[1], pool);
  }

  lemma DerivedNet(c: Certificate, p: Params, pool: Pool)
    requires Derive(c.program, p, c.chainId, c.seqNo).Some?
    requires pool.Asset? ==> Version(pool.id) == VERSION_ASSET
    ensures NetDelta(Derive(c.program, p, c.chainId, c.seqNo).value.writes, pool) == Minted(c, pool)
  {
    match c.program {
      case Transfer(moves) => TransferBalances(moves, pool);
      case Issue(_, _, _, _, _) => NeutralWrites(Derive(c.program, p, c.chainId, c.seqNo).value.writes, pool);
      case Mint(_, _, _, _, _) => MintNet(c.program, pool);
      case Retire(addrs) => NeutralWrites(MarkWrites(addrs), pool);
    }
  }

  lemma DepositMarkNet(ws: seq<Write>, deposit: Address, pool: Pool)
    ensures NetDelta(WithDepositMark(ws, deposit), pool) == NetDelta(ws, pool)
  {
    NetDeltaConcat(ws, MarkWrites([deposit]), pool);
    NeutralWrites(MarkWrites([deposit]), pool);
  }

  /** V3 conserves: the declared writes of a valid certificate net to what it
      mints, in every pool. */
  lemma ValidWritesNet(c: Certificate, p: Params, pool: Pool)
    requires DerivationMatches(c, p)
    requires pool.Asset? ==> Version(pool.id) == VERSION_ASSET
    ensures NetDelta(c.writes, pool) == Minted(c, pool)
  {
    var d := Derive(c.program, p, c.chainId, c.seqNo).value;
    DerivedNet(c, p, pool);
    DepositMarkNet(d.writes, c.deposit.cell.addr, pool);
    NetDeltaPermutes(c.writes, WithDepositMark(d.writes, c.deposit.cell.addr), pool);
  }

  // ------------------------------------------------ where writes may land

  predicate AssetOk(asset: Address) {
    asset == NATIVE_ASSET || Version(asset) == VERSION_ASSET
  }

  predicate UserBalance(slot: Slot) {
    IsUser(slot.addr) && slot.word.Balance? && AssetOk(slot.word.asset)
  }

  /** The only four forms a derived write takes. */
  predicate WriteShape(w: Write) {
    match w.op
    case OpMarkSpent => IsOneShot(w.slot.addr) && w.slot.word == SpentWord
    case OpSet => Version(w.slot.addr) == VERSION_ASSET && !w.slot.word.Balance? && w.slot.word != AssetMinted
    case OpDeltaSub => UserBalance(w.slot)
    case OpDeltaAdd => UserBalance(w.slot) || (Version(w.slot.addr) == VERSION_ASSET && w.slot.word == AssetMinted)
  }

  predicate BalanceSums(sums: seq<SlotSum>) {
    forall i :: 0 <= i < |sums| ==> UserBalance(sums[i].slot)
  }

  lemma {:induction false} AddSumKeepsBalances(sums: seq<SlotSum>, slot: Slot, v: nat)
    requires BalanceSums(sums) && UserBalance(slot)
    ensures BalanceSums(AddSum(sums, slot, v))
  {
    if sums != [] && sums[0].slot != slot {
      assert BalanceSums(sums[1..]);
      AddSumKeepsBalances(sums[1..], slot, v);
    }
  }

  lemma {:induction false} MoveSlotsAreBalances(moves: seq<Move>)
    requires forall i :: 0 <= i < |moves| ==> MoveOk(moves[i])
    ensures BalanceSums(Debits(moves)) && BalanceSums(Credits(moves))
    ensures forall i :: 0 <= i < |BurnedSources(moves)| ==> IsOneShot(BurnedSources(moves)[i])
  {
    if moves != [] {
      var n := |moves| - 1;
      var m := moves[n];
      assert MoveOk(m);
      MoveSlotsAreBalances(moves[..n]);
      AddSumKeepsBalances(Debits(moves[..n]), BalanceSlot(m.src, m.asset), m.amount);
      AddSumKeepsBalances(Credits(moves[..n]), BalanceSlot(m.dst, m.asset), m.amount);
    }
  }

  predicate AllShaped(ws: seq<Write>) {
    forall i :: 0 <= i < |ws| ==> WriteShape(ws[i])
  }

  lemma DerivedShapes(c: Certificate, p: Params)
    requires Derive(c.program, p, c.chainId, c.seqNo).Some?
    ensures AllShaped(Derive(c.program, p, c.chainId, c.seqNo).value.writes)
  {
    if c.program.Transfer? {
      MoveSlotsAreBalances(c.program.moves);
    }
  }

  /** V3 pins every declared write to one of the derived forms. */
  lemma ValidWriteShape(c: Certificate, p: Params, w: Write)
    requires DerivationMatches(c, p) && w in c.writes
    ensures WriteShape(w)
  {
    DerivedShapes(c, p);
    var d := DeriveCert(c, p).value;
    EqualBagsEqualMembers(c.writes, d.writes, w);
    var i :| 0 <= i < |d.writes| && d.writes[i] == w;
  }

  lemma DerivedSubIsGuarded(c: Certificate, p: Params, i: nat)
    requires Derive(c.program, p, c.chainId, c.seqNo).Some?
    requires
      var ws := Derive(c.program, p, c.chainId, c.seqNo).value.writes;
      i < |ws| && ws[i].op.OpDeltaSub?
    ensures
      var d := Derive(c.program, p, c.chainId, c.seqNo).value;
      Read(d.writes[i].slot, GuardGE, d.writes[i].value) in d.readList
  {
    if c.program.Transfer? {
      var sums := Debits(c.program.moves);
      assert i < |sums|;
      assert GuardReads(sums)[i] == Read(sums[i].slot, GuardGE, sums[i].total);
    }
  }

  /** Every declared subtraction carries a GUARD_GE of exactly its amount. */
  lemma SubIsGuarded(c: Certificate, p: Params, w: Write)
    requires DerivationMatches(c, p) && w in c.writes && w.op.OpDeltaSub?
    ensures Read(w.slot, GuardGE, w.value) in c.readList
  {
    var program := Derive(c.program, p, c.chainId, c.seqNo).value;
    var d := DeriveCert(c, p).value;
    EqualBagsEqualMembers(c.writes, d.writes, w);
    var i :| 0 <= i < |d.writes| && d.writes[i] == w;
    assert i < |program.writes| && program.writes[i] == w;
    DerivedSubIsGuarded(c, p, i);
    EqualBagsEqualMembers(c.readList, d.readList, Read(w.slot, GuardGE, w.value));
  }
}
