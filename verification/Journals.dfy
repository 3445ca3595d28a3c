/** Consensus state as the node holds it (core/state), mutated in place, and the
    journal every mutation of the fold goes through (core/fold/fold.go).

    The journal's invariant is the undo theorem: at every moment, replaying the
    log backwards gives exactly the state the block started from. */
module Journals {
  import opened U256
  import opened Types
  import opened Ledgers
  import opened Seqs

  datatype CellUndo = CellUndo(slot: Slot, was: u256)
  datatype SeenEntry = SeenEntry(id: Hash, ttl: u64)
  datatype UndoLog = UndoLog(cells: seq<CellUndo>, spentAdded: seq<Address>, seenAdded: seq<Hash>, seenRemoved: seq<SeenEntry>)

  const NO_CHANGES: UndoLog := UndoLog([], [], [], [])

  // -------------------------------------------------- undo, on values

  /** The cells with a log of old values written back, newest first. */
  function RestoreCells(m: Cells, log: seq<CellUndo>): Cells
    decreases |log|
  {
    if log == [] then m
    else
      var last := log[|log| - 1];
      RestoreCells(CellPut(m, last.slot, last.was), log[..|log| - 1])
  }

  function ReAdd(m: map<Hash, u64>, entries: seq<SeenEntry>): map<Hash, u64> {
    if entries == [] then m
    else ReAdd(m, entries[..|entries| - 1])[entries[|entries| - 1].id := entries[|entries| - 1].ttl]
  }

  function Undone(l: Ledger, log: UndoLog): Ledger {
    Ledger(RestoreCells(l.cells, log.cells),
           l.spent - Elements(log.spentAdded),
           ReAdd(l.seen - Elements(log.seenAdded), log.seenRemoved))
  }

  lemma PutBack(m: Cells, slot: Slot, v: u256)
    requires Normal(m)
    ensures CellPut(CellPut(m, slot, v), slot, CellValue(m, slot)) == m
    ensures Normal(CellPut(m, slot, v))
  {
  }

  /** A journalled write is undone by its log entry, whatever follows it. */
  lemma SetUndone(l: Ledger, log: UndoLog, slot: Slot, v: u256)
    requires Normal(l.cells)
    ensures Undone(l.Put(slot, v), log.(cells := log.cells + [CellUndo(slot, l.Get(slot))])) == Undone(l, log)
    ensures Normal(l.Put(slot, v).cells)
  {
    PutBack(l.cells, slot, v);
    var cells := log.cells + [CellUndo(slot, l.Get(slot))];
    assert cells[..|cells| - 1] == log.cells;
  }

  lemma SpendUndone(l: Ledger, log: UndoLog, a: Address)
    requires a !in l.spent
    ensures Undone(l.Spend(a), log.(spentAdded := log.spentAdded + [a])) == Undone(l, log)
  {
    assert Elements(log.spentAdded + [a]) == Elements(log.spentAdded) + {a};
    assert l.spent + {a} - (Elements(log.spentAdded) + {a}) == l.spent - Elements(log.spentAdded);
  }

  lemma SeeUndone(l: Ledger, log: UndoLog, id: Hash, ttl: u64)
    requires id !in l.seen
    ensures Undone(l.See(id, ttl), log.(seenAdded := log.seenAdded + [id])) == Undone(l, log)
  {
    assert Elements(log.seenAdded + [id]) == Elements(log.seenAdded) + {id};
    assert l.seen[id := ttl] - (Elements(log.seenAdded) + {id}) == l.seen - Elements(log.seenAdded);
  }

  /** What pruning below a height removes, as a list. */
  ghost predicate ListsPruned(m: map<Hash, u64>, below: u64, entries: seq<SeenEntry>) {
    && (forall i :: 0 <= i < |entries| ==> entries[i].id in m && m[entries[i].id] == entries[i].ttl && entries[i].ttl < below)
    && (forall id :: id in m && m[id] < below ==> SeenEntry(id, m[id]) in entries)
  }

  lemma {:induction false} ReAddAt(m: map<Hash, u64>, entries: seq<SeenEntry>, full: map<Hash, u64>, id: Hash)
    requires forall i :: 0 <= i < |entries| ==> entries[i].id in full && full[entries[i].id] == entries[i].ttl
    ensures
      var r := ReAdd(m, entries);
      if exists i :: 0 <= i < |entries| && entries[i].id == id then id in r && r[id] == full[id]
      else (id in r <==> id in m) && (id in m ==> r[id] == m[id])
  {
    if entries != [] {
      var n := |entries| - 1;
      ReAddAt(m, entries[..n], full, id);
      assert entries == entries[..n] + [entries[n]];
      if exists i :: 0 <= i < |entries[..n]| && entries[..n][i].id == id {
        var i :| 0 <= i < |entries[..n]| && entries[..n][i].id == id;
        assert entries[i].id == id;
      } else {
        assert forall i :: 0 <= i < n ==> entries[i] == entries[..n][i];
      }
    }
  }

  ghost predicate NoneExpired(m: map<Hash, u64>, ids: seq<Hash>, below: u64) {
    forall i :: 0 <= i < |ids| ==> ids[i] in m ==> m[ids[i]] >= below
  }

  lemma PruneUndoneAt(l: Ledger, log: UndoLog, below: u64, pruned: seq<SeenEntry>, id: Hash)
    requires log.seenRemoved == [] && ListsPruned(l.seen, below, pruned)
    ensures
      var before := Undone(l, log).seen;
      var after := Undone(l.Prune(below), log.(seenRemoved := pruned)).seen;
      if id in l.seen && id in log.seenAdded && l.seen[id] < below then id in after && id !in before
      else (id in before <==> id in after) && (id in before ==> before[id] == after[id])
  {
    ReAddAt(l.Prune(below).seen - Elements(log.seenAdded), pruned, l.seen, id);
    if id in l.seen && l.seen[id] < below {
      assert SeenEntry(id, l.seen[id]) in pruned;
    }
  }

  /** Pruning is undone by re-adding what it removed, exactly when nothing this
      block added is old enough to be pruned: B1's contribution to exact undo. */
  lemma PruneUndone(l: Ledger, log: UndoLog, below: u64, pruned: seq<SeenEntry>)
    requires log.seenRemoved == [] && ListsPruned(l.seen, below, pruned)
    ensures Undone(l.Prune(below), log.(seenRemoved := pruned)) == Undone(l, log) <==> NoneExpired(l.seen, log.seenAdded, below)
  {
    hide Undone, ListsPruned;
    UndoneParts(l, log, below, pruned);
    forall id {
      PruneUndoneAt(l, log, below, pruned, id);
    }
    if NoneExpired(l.seen, log.seenAdded, below) {
      assert Undone(l.Prune(below), log.(seenRemoved := pruned)).seen == Undone(l, log).seen;
    }
  }

  lemma UndoneParts(l: Ledger, log: UndoLog, below: u64, pruned: seq<SeenEntry>)
    ensures Undone(l.Prune(below), log.(seenRemoved := pruned)).cells == Undone(l, log).cells
    ensures Undone(l.Prune(below), log.(seenRemoved := pruned)).spent == Undone(l, log).spent
  {
  }

  /** The failing side, concretely: an entry added and pruned by the same block
      comes back although the state before the block did not hold it. */
  lemma PrunedAdditionReturns(id: Hash, ttl: u64, below: u64)
    requires ttl < below
    ensures
      var l := EMPTY.See(id, ttl);
      var log := NO_CHANGES.(seenAdded := [id]);
      && Undone(l, log) == EMPTY
      && ListsPruned(l.seen, below, [SeenEntry(id, ttl)])
      && Undone(l.Prune(below), log.(seenRemoved := [SeenEntry(id, ttl)])) != EMPTY
  {
    var l := EMPTY.See(id, ttl);
    var log := NO_CHANGES.(seenAdded := [id]);
    assert [SeenEntry(id, ttl)][0] == SeenEntry(id, ttl);
    assert id in Undone(l.Prune(below), log.(seenRemoved := [SeenEntry(id, ttl)])).seen;
    assert id in [id];
    assert Undone(l, log).seen == map[];
    assert Undone(l, log).spent == {};
  }

  // ------------------------------------------------------------ pruning

  ghost predicate Ascending(s: seq<SeenEntry>) {
    forall i, j :: 0 <= i < j < |s| ==> s[i].id < s[j].id
  }

  /** One step of the sort by id. */
  function InsertEntry(s: seq<SeenEntry>, e: SeenEntry): (r: seq<SeenEntry>)
    requires Ascending(s)
    requires forall i :: 0 <= i < |s| ==> s[i].id != e.id
    ensures Ascending(r)
    ensures forall x :: x in r <==> x in s || x == e
  {
    if s == [] || s[|s| - 1].id < e.id then s + [e]
    else
      var rest := InsertEntry(s[..|s| - 1], e);
      assert s == s[..|s| - 1] + [s[|s| - 1]];
      assert forall i :: 0 <= i < |rest| ==> rest[i] in rest;
      rest + [s[|s| - 1]]
  }

  function IdsOf(entries: seq<SeenEntry>): set<Hash> {
    set e | e in entries :: e.id
  }

  /** What the loop over the seen map has collected. */
  ghost predicate Collected(m: map<Hash, u64>, below: u64, todo: set<Hash>, pruned: seq<SeenEntry>) {
    && (forall x :: x in pruned ==> x.id in m && x.id !in todo && m[x.id] == x.ttl < below)
    && (forall id :: id in m && id !in todo && m[id] < below ==> SeenEntry(id, m[id]) in pruned)
  }

  /** The entries to prune, sorted, whatever order the map yields them in. */
  method Expired(m: map<Hash, u64>, below: u64) returns (pruned: seq<SeenEntry>)
    ensures ListsPruned(m, below, pruned) && Ascending(pruned)
  {
    pruned := [];
    var todo := m.Keys;
    while todo != {}
      invariant todo <= m.Keys && Collected(m, below, todo, pruned) && Ascending(pruned)
      decreases |todo|
    {
      var id :| id in todo;
      todo := todo - {id};
      if m[id] < below {
        assert forall i :: 0 <= i < |pruned| ==> pruned[i] in pruned;
        pruned := InsertEntry(pruned, SeenEntry(id, m[id]));
      }
    }
    assert forall i :: 0 <= i < |pruned| ==> pruned[i] in pruned;
  }

  lemma PrunedIs(full: map<Hash, u64>, below: u64, pruned: seq<SeenEntry>)
    requires ListsPruned(full, below, pruned)
    ensures full - IdsOf(pruned) == map id | id in full && full[id] >= below :: full[id]
  {
    forall id | id in full
      ensures id in IdsOf(pruned) <==> full[id] < below
    {
      if full[id] < below {
        assert SeenEntry(id, full[id]) in pruned;
      }
    }
  }

  // -------------------------------------------------------- the state object

  class State {
    var cells: Cells
    var spent: set<Address>
    var seen: map<Hash, u64>

    constructor ()
      ensures View() == EMPTY
    {
      cells, spent, seen := map[], {}, map[];
    }

    function View(): Ledger
      reads this
    {
      Ledger(cells, spent, seen)
    }

    /** An independent copy. */
    method Clone() returns (t: State)
      ensures fresh(t) && t.View() == View()
    {
      t := new State();
      t.cells, t.spent, t.seen := cells, spent, seen;
    }

    function Get(slot: Slot): u256
      reads this
    {
      CellValue(cells, slot)
    }

    method Set(slot: Slot, v: u256)
      modifies this
      ensures View() == old(View()).Put(slot, v)
    {
      if v == 0 {
        cells := cells - {slot};
      } else {
        cells := cells[slot := v];
      }
    }

    method MarkSpent(a: Address)
      modifies this
      ensures View() == old(View()).Spend(a)
    {
      spent := spent + {a};
    }

    method MarkSeen(id: Hash, ttl: u64)
      modifies this
      ensures View() == old(View()).(seen := old(seen)[id := ttl])
    {
      seen := seen[id := ttl];
    }

    /** Drops and returns every entry whose TTL has passed, in id order. */
    method PruneSeen(below: u64) returns (pruned: seq<SeenEntry>)
      modifies this
      ensures View() == old(View()).Prune(below)
      ensures ListsPruned(old(seen), below, pruned)
      ensures Ascending(pruned)
    {
      pruned := Expired(seen, below);
      ghost var full := seen;
      assert full - IdsOf(pruned[..0]) == full;
      for i := 0 to |pruned|
        invariant seen == full - IdsOf(pruned[..i])
        invariant cells == old(cells) && spent == old(spent)
      {
        assert pruned[..i + 1] == pruned[..i] + [pruned[i]];
        assert IdsOf(pruned[..i + 1]) == IdsOf(pruned[..i]) + {pruned[i].id};
        seen := seen - {pruned[i].id};
      }
      assert pruned[..|pruned|] == pruned;
      PrunedIs(full, below, pruned);
    }

    /** Reverses a block: cells newest first, then the registry, then the seen
        set.  The fold's UndoBlock is this call. */
    method Undo(log: UndoLog)
      modifies this
      ensures View() == Undone(old(View()), log)
    {
      var i := |log.cells|;
      assert log.cells[..i] == log.cells;
      while i > 0
        invariant 0 <= i <= |log.cells|
        invariant RestoreCells(cells, log.cells[..i]) == RestoreCells(old(cells), log.cells)
        invariant spent == old(spent) && seen == old(seen)
      {
        i := i - 1;
        assert log.cells[..i + 1][..i] == log.cells[..i];
        Set(log.cells[i].slot, log.cells[i].was);
      }
      for k := 0 to |log.spentAdded|
        invariant spent == old(spent) - Elements(log.spentAdded[..k])
        invariant cells == RestoreCells(old(cells), log.cells) && seen == old(seen)
      {
        assert log.spentAdded[..k + 1] == log.spentAdded[..k] + [log.spentAdded[k]];
        spent := spent - {log.spentAdded[k]};
      }
      assert log.spentAdded[..|log.spentAdded|] == log.spentAdded;
      for k := 0 to |log.seenAdded|
        invariant seen == old(seen) - Elements(log.seenAdded[..k])
        invariant cells == RestoreCells(old(cells), log.cells) && spent == old(spent) - Elements(log.spentAdded)
      {
        assert log.seenAdded[..k + 1] == log.seenAdded[..k] + [log.seenAdded[k]];
        seen := seen - {log.seenAdded[k]};
      }
      assert log.seenAdded[..|log.seenAdded|] == log.seenAdded;
      for k := 0 to |log.seenRemoved|
        invariant seen == ReAdd(old(seen) - Elements(log.seenAdded), log.seenRemoved[..k])
        invariant cells == RestoreCells(old(cells), log.cells) && spent == old(spent) - Elements(log.spentAdded)
      {
        assert log.seenRemoved[..k + 1][..k] == log.seenRemoved[..k];
        seen := seen[log.seenRemoved[k].id := log.seenRemoved[k].ttl];
      }
      assert log.seenRemoved[..|log.seenRemoved|] == log.seenRemoved;
    }
  }

  // ------------------------------------------------------------- the journal

  class Journal {
    const s: State
    var log: UndoLog
    ghost const base: Ledger
    ghost const height: u64

    /** Replaying the log gives back the state the block began with, and every id
        this block marked seen is still too young to prune. */
    ghost predicate Valid()
      reads this, s
    {
      && Normal(s.cells)
      && Undone(s.View(), log) == base
      && (forall i :: 0 <= i < |log.seenAdded| ==> log.seenAdded[i] in s.seen && s.seen[log.seenAdded[i]] >= height)
    }

    constructor (state: State, ghost h: u64)
      requires Normal(state.cells)
      ensures s == state && base == state.View() && height == h && log == NO_CHANGES && Valid()
    {
      s, log, base, height := state, NO_CHANGES, state.View(), h;
      new;
      NothingToUndo(state.View());
    }

    method Set(slot: Slot, v: u256)
      requires Valid()
      modifies this, s
      ensures Valid() && log.seenRemoved == old(log.seenRemoved)
      ensures s.View() == old(s.View()).Put(slot, v)
    {
      SetUndone(s.View(), log, slot, v);
      log := log.(cells := log.cells + [CellUndo(slot, s.Get(slot))]);
      s.Set(slot, v);
    }

    method MarkSpent(a: Address)
      requires Valid()
      modifies this, s
      ensures Valid() && log.seenRemoved == old(log.seenRemoved)
      ensures s.View() == old(s.View()).Spend(a)
    {
      if a in s.spent {
        assert s.spent + {a} == s.spent;
        return;
      }
      SpendUndone(s.View(), log, a);
      s.MarkSpent(a);
      log := log.(spentAdded := log.spentAdded + [a]);
    }

    method MarkSeen(id: Hash, ttl: u64)
      requires Valid() && ttl >= height
      modifies this, s
      ensures Valid() && log.seenRemoved == old(log.seenRemoved)
      ensures s.View() == old(s.View()).See(id, ttl)
    {
      if id in s.seen {
        return;
      }
      SeeUndone(s.View(), log, id, ttl);
      s.MarkSeen(id, ttl);
      log := log.(seenAdded := log.seenAdded + [id]);
    }

    /** F10's pruning, recorded for undo. */
    method PruneSeen(below: u64)
      requires Valid() && log.seenRemoved == [] && below <= height
      modifies this, s
      ensures Valid()
      ensures s.View() == old(s.View()).Prune(below)
    {
      ghost var before := s.View();
      var pruned := s.PruneSeen(below);
      PruneUndone(before, log, below, pruned);
      log := log.(seenRemoved := pruned);
    }

    /** Rolls the whole block back. */
    method Abandon()
      requires Valid()
      modifies s
      ensures s.View() == base
    {
      s.Undo(log);
    }
  }

  lemma NothingToUndo(l: Ledger)
    ensures Undone(l, NO_CHANGES) == l
  {
    assert l.seen - Elements<Hash>([]) == l.seen;
    assert l.spent - Elements<Address>([]) == l.spent;
  }
}
