/** Consensus state as a value (core/state): the cells, the spent registry and
    the seen set, together with the sums the conservation laws speak about. */
module Ledgers {
  import opened U256
  import opened Types

  type Cells = map<Slot, u256>

  function CellValue(m: Cells, slot: Slot): u256 {
    if slot in m then m[slot] else 0
  }

  /** Writing zero deletes the entry: a drained cell and a cell that never
      existed are the same state. */
  function CellPut(m: Cells, slot: Slot, v: u256): Cells {
    if v == 0 then m - {slot} else m[slot := v]
  }

  /** No cell stores a zero. */
  predicate Normal(m: Cells) {
    forall k :: k in m ==> m[k] != 0
  }

  datatype Ledger = Ledger(cells: Cells, spent: set<Address>, seen: map<Hash, u64>)
  {
    function Get(slot: Slot): u256 {
      CellValue(cells, slot)
    }

    function Put(slot: Slot, v: u256): Ledger {
      this.(cells := CellPut(cells, slot, v))
    }

    function Spend(a: Address): Ledger {
      this.(spent := spent + {a})
    }

    /** An id already present keeps the entry it has. */
    function See(id: Hash, ttl: u64): Ledger {
      if id in seen then this else this.(seen := seen[id := ttl])
    }

    /** Drops every seen entry whose TTL lies below the given height. */
    function Prune(below: u64): Ledger {
      this.(seen := map id | id in seen && seen[id] >= below :: seen[id])
    }
  }

  const EMPTY: Ledger := Ledger(map[], {}, map[])

  // ------------------------------------------------------------------ pools

  /** A family of cells whose values are units of one thing: the native coin
      (every native balance, the treasury's included, and the pending rewards),
      or one asset. */
  datatype Pool = Native(maturity: nat) | Asset(id: Address)

  predicate Counts(pool: Pool, slot: Slot) {
    match pool
    case Native(maturity) =>
      || slot.word == Balance(NATIVE_ASSET)
      || (slot.addr == PROTOCOL_ADDRESS && slot.word.PendingAmount? && slot.word.index < maturity)
    case Asset(id) => slot.word == Balance(id)
  }

  ghost function SumOver(m: Cells, keys: set<Slot>): nat {
    if keys == {} then 0
    else
      var k :| k in keys;
      CellValue(m, k) + SumOver(m, keys - {k})
  }

  ghost function PoolKeys(m: Cells, pool: Pool): set<Slot> {
    set k | k in m && Counts(pool, k)
  }

  /** Every unit of the pool, wherever it sits. */
  ghost function Total(m: Cells, pool: Pool): nat {
    SumOver(m, PoolKeys(m, pool))
  }

  lemma {:induction false} SumOverRemove(m: Cells, keys: set<Slot>, k: Slot)
    requires k in keys
    ensures SumOver(m, keys) == CellValue(m, k) + SumOver(m, keys - {k})
    decreases |keys|
  {
    var j :| j in keys && SumOver(m, keys) == CellValue(m, j) + SumOver(m, keys - {j});
    if j != k {
      SumOverRemove(m, keys - {j}, k);
      SumOverRemove(m, keys - {k}, j);
      assert keys - {j} - {k} == keys - {k} - {j};
    }
  }

  lemma {:induction false} SumOverAgrees(m: Cells, n: Cells, keys: set<Slot>)
    requires forall k :: k in keys ==> CellValue(m, k) == CellValue(n, k)
    ensures SumOver(m, keys) == SumOver(n, keys)
    decreases |keys|
  {
    if keys != {} {
      var j :| j in keys;
      SumOverRemove(m, keys, j);
      SumOverRemove(n, keys, j);
      SumOverAgrees(m, n, keys - {j});
    }
  }

  lemma TotalWithout(m: Cells, pool: Pool, slot: Slot)
    requires Counts(pool, slot)
    ensures Total(m, pool) == CellValue(m, slot) + SumOver(m, PoolKeys(m, pool) - {slot})
  {
    if slot in m {
      SumOverRemove(m, PoolKeys(m, pool), slot);
    } else {
      assert PoolKeys(m, pool) - {slot} == PoolKeys(m, pool);
    }
  }

  /** A write moves a pool's total by exactly the change of the written cell. */
  lemma TotalPut(m: Cells, pool: Pool, slot: Slot, v: u256)
    ensures Counts(pool, slot) ==> Total(CellPut(m, slot, v), pool) == Total(m, pool) - CellValue(m, slot) + v
    ensures !Counts(pool, slot) ==> Total(CellPut(m, slot, v), pool) == Total(m, pool)
  {
    var n := CellPut(m, slot, v);
    assert PoolKeys(n, pool) - {slot} == PoolKeys(m, pool) - {slot};
    SumOverAgrees(m, n, PoolKeys(m, pool) - {slot});
    if Counts(pool, slot) {
      TotalWithout(m, pool, slot);
      TotalWithout(n, pool, slot);
    } else {
      assert PoolKeys(m, pool) - {slot} == PoolKeys(m, pool);
      assert PoolKeys(n, pool) - {slot} == PoolKeys(n, pool);
    }
  }

  lemma CellWithinTotal(m: Cells, pool: Pool, slot: Slot)
    requires Counts(pool, slot)
    ensures CellValue(m, slot) <= Total(m, pool)
  {
    TotalWithout(m, pool, slot);
  }

  /** Two different cells of one pool fit together inside its total. */
  lemma TwoCellsWithinTotal(m: Cells, pool: Pool, a: Slot, b: Slot)
    requires Counts(pool, a) && Counts(pool, b) && a != b
    ensures CellValue(m, a) + CellValue(m, b) <= Total(m, pool)
  {
    TotalPut(m, pool, a, 0);
    CellWithinTotal(CellPut(m, a, 0), pool, b);
  }

  lemma TotalOfEmpty(pool: Pool)
    ensures Total(map[], pool) == 0
  {
    assert PoolKeys(map[], pool) == {};
  }
}
