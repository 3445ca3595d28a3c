/** What the sweep of burned addresses (core/fold F8b) does, cell by cell: with a
    live refund address and room for every pool, each native or named cell of a
    burned address ends empty and its counterpart gains exactly what they held. */
module Sweeps {
  import opened U256
  import opened Types
  import opened Validity
  import opened Ledgers
  import opened Fold
  import opened Derivation
  import opened CertLaws
  import opened NoOverflow

  /** One residual that was not left behind is moved, and nothing else changes. */
  lemma MoveMeans(l: Ledger, src: Slot, dst: Address, slot: Slot)
    requires dst !in l.spent && src.addr != dst && MoveResidual(l, src, dst).left == 0
    ensures
      var r := MoveResidual(l, src, dst);
      && r.moved == l.Get(src)
      && r.ledger.Get(slot) == if slot == src then 0
                               else if slot == Slot(dst, src.word) then l.Get(slot) + l.Get(src)
                               else l.Get(slot)
  {
  }

  /** One of the first n writes names this word of address a, other than the native
      balance. */
  ghost predicate Named(c: Certificate, a: Address, n: nat, word: Word)
    requires n <= |c.writes|
  {
    exists k :: 0 <= k < n && SweepsAlso(c.writes[k], a) && c.writes[k].slot.word == word
  }

  lemma NamedStep(c: Certificate, a: Address, n: nat, word: Word)
    requires n < |c.writes| && DistinctSlots(c.writes)
    ensures Named(c, a, n + 1, word) <==>
              Named(c, a, n, word) || (SweepsAlso(c.writes[n], a) && c.writes[n].slot.word == word)
    ensures SweepsAlso(c.writes[n], a) ==> !Named(c, a, n, c.writes[n].slot.word)
  {
  }

  /** The named cells of one address, one after the other. */
  lemma {:induction false} SweepNamedMeans(s: Sweep, c: Certificate, a: Address, n: nat, maturity: nat, slot: Slot)
    requires n <= |c.writes| && Tame(c) && IsOneShot(a)
    requires a in s.ledger.spent && c.deposit.refundTo.addr !in s.ledger.spent && RoomEverywhere(s.ledger, maturity)
    ensures
      var r := SweepNamed(s, c, a, n);
      && r.swept == s.swept
      && r.ledger.Get(slot) ==
         if slot.addr == c.deposit.refundTo.addr then
           s.ledger.Get(slot) + if Named(c, a, n, slot.word) then s.ledger.Get(Slot(a, slot.word)) else 0
         else if slot.addr == a && Named(c, a, n, slot.word) then 0
         else s.ledger.Get(slot)
  {
    hide RoomEverywhere, MoveResidual, Tame, Named;
    if n == 0 {
      NothingNamed(c, a, slot.word);
    } else {
      var t := SweepNamed(s, c, a, n - 1);
      var x := c.writes[n - 1];
      SweepNamedMeans(s, c, a, n - 1, maturity, slot);
      TameDistinct(c);
      NamedStep(c, a, n - 1, slot.word);
      if SweepsAlso(x, a) {
        SweepNamedMeans(s, c, a, n - 1, maturity, x.slot);
        SweepNamedStrandsNothing(s, c, a, n - 1, maturity);
        TameRefunds(c);
        SweepsBalances(c, x, a);
        ResidualFits(t.ledger, x.slot, c.deposit.refundTo.addr, maturity);
        MoveMeans(t.ledger, x.slot, c.deposit.refundTo.addr, slot);
        NamedStep(c, a, n - 1, x.slot.word);
      }
    }
  }

  lemma NothingNamed(c: Certificate, a: Address, word: Word)
    ensures !Named(c, a, 0, word)
  {
  }

  lemma TameDistinct(c: Certificate)
    requires Tame(c)
    ensures DistinctSlots(c.writes)
  {
  }

  // ------------------------------------------------------ the whole sweep

  /** A cell the sweep looks at, under an address that is burned. */
  ghost predicate SweepsCell(c: Certificate, slot: Slot) {
    slot.word == Balance(NATIVE_ASSET) || Named(c, slot.addr, |c.writes|, slot.word)
  }

  /** One of the first n writes burns this address. */
  ghost predicate MarkedIn(c: Certificate, n: nat, a: Address)
    requires n <= |c.writes|
  {
    exists k :: 0 <= k < n && c.writes[k].op.OpMarkSpent? && c.writes[k].slot.addr == a
  }

  lemma MarkedStep(c: Certificate, n: nat, a: Address)
    requires n < |c.writes| && Tame(c)
    ensures MarkedIn(c, n + 1, a) <==>
              MarkedIn(c, n, a) || (c.writes[n].op.OpMarkSpent? && c.writes[n].slot.addr == a)
    ensures c.writes[n].op.OpMarkSpent? ==> !MarkedIn(c, n, c.writes[n].slot.addr)
  {
    forall k | 0 <= k < n && c.writes[k].op.OpMarkSpent? && c.writes[n].op.OpMarkSpent?
      ensures c.writes[k].slot.addr != c.writes[n].slot.addr
    {
      assert WriteShape(c.writes[k]) && WriteShape(c.writes[n]);
      assert c.writes[k].slot != c.writes[n].slot;
    }
  }

  /** What the addresses burned by the first n writes hold of one word. */
  ghost function Incoming(l: Ledger, c: Certificate, n: nat, word: Word): nat
    requires n <= |c.writes|
  {
    if n == 0 then 0
    else
      var w := c.writes[n - 1];
      Incoming(l, c, n - 1, word)
      + if w.op.OpMarkSpent? && SweepsCell(c, Slot(w.slot.addr, word)) then l.Get(Slot(w.slot.addr, word)) else 0
  }

  /** One burned address: its native cell, then its named ones. */
  lemma SweepOneMeans(s: Sweep, c: Certificate, a: Address, maturity: nat, slot: Slot)
    requires Tame(c) && IsOneShot(a)
    requires a in s.ledger.spent && c.deposit.refundTo.addr !in s.ledger.spent && RoomEverywhere(s.ledger, maturity)
    ensures
      var r := SweepNamed(SweepNative(s, c, a), c, a, |c.writes|);
      && r.swept == SatAdd(s.swept, s.ledger.Get(NativeSlot(a)))
      && r.ledger.Get(slot) ==
         if slot.addr == c.deposit.refundTo.addr then
           s.ledger.Get(slot) + if SweepsCell(c, Slot(a, slot.word)) then s.ledger.Get(Slot(a, slot.word)) else 0
         else if slot.addr == a && SweepsCell(c, slot) then 0
         else s.ledger.Get(slot)
  {
    hide RoomEverywhere, MoveResidual, Tame, Named, SweepNamed;
    var refund := c.deposit.refundTo.addr;
    TameRefunds(c);
    ResidualFits(s.ledger, NativeSlot(a), refund, maturity);
    MoveResidualFacts(s.ledger, NativeSlot(a), refund, slot);
    MoveMeans(s.ledger, NativeSlot(a), refund, slot);
    MoveMeans(s.ledger, NativeSlot(a), refund, Slot(a, slot.word));
    SweepNamedMeans(SweepNative(s, c, a), c, a, |c.writes|, maturity, slot);
    NativeIsNotNamed(c, a);
  }

  lemma NativeIsNotNamed(c: Certificate, a: Address)
    ensures !Named(c, a, |c.writes|, Balance(NATIVE_ASSET))
  {
  }

  /** Every swept cell of a burned address ends empty, the refund address has
      gained what they held, and no other cell has moved. */
  lemma {:induction false} SweepMeans(l: Ledger, c: Certificate, n: nat, maturity: nat, slot: Slot)
    requires n <= |c.writes| && Tame(c)
    requires forall w :: w in c.writes && w.op.OpMarkSpent? ==> w.slot.addr in l.spent
    requires c.deposit.refundTo.addr !in l.spent && RoomEverywhere(l, maturity)
    ensures SweepBurned(l, c, n).ledger.Get(slot) ==
            if slot.addr == c.deposit.refundTo.addr then l.Get(slot) + Incoming(l, c, n, slot.word)
            else if MarkedIn(c, n, slot.addr) && SweepsCell(c, slot) then 0
            else l.Get(slot)
  {
    hide RoomEverywhere, Tame, SweepNamed, SweepNative, SweepsCell, MarkedIn;
    if n == 0 {
      NothingMarked(c, slot.addr);
    } else {
      SweepMeans(l, c, n - 1, maturity, slot);
      SweepStrandsNothing(l, c, n - 1, maturity);
      MarkedStep(c, n - 1, slot.addr);
      var s := SweepBurned(l, c, n - 1);
      var w := c.writes[n - 1];
      if w.op.OpMarkSpent? {
        var a := w.slot.addr;
        assert w in c.writes;
        TameRefunds(c);
        MarkedStep(c, n - 1, a);
        SweepMeans(l, c, n - 1, maturity, Slot(a, slot.word));
        SweepOneMeans(s, c, a, maturity, slot);
      }
    }
  }

  lemma NothingMarked(c: Certificate, a: Address)
    ensures !MarkedIn(c, 0, a)
  {
  }

  /** The reported sweep is the native coin the burned addresses held. */
  lemma {:induction false} SweptIs(l: Ledger, c: Certificate, n: nat, maturity: nat)
    requires n <= |c.writes| && Tame(c)
    requires forall w :: w in c.writes && w.op.OpMarkSpent? ==> w.slot.addr in l.spent
    requires c.deposit.refundTo.addr !in l.spent && RoomEverywhere(l, maturity)
    ensures SweepBurned(l, c, n).swept == Incoming(l, c, n, Balance(NATIVE_ASSET))
  {
    hide RoomEverywhere, Tame, SweepNamed, SweepNative, MarkedIn;
    if n > 0 {
      SweptIs(l, c, n - 1, maturity);
      var s := SweepBurned(l, c, n - 1);
      var w := c.writes[n - 1];
      SweepMeans(l, c, n, maturity, NativeSlot(c.deposit.refundTo.addr));
      if w.op.OpMarkSpent? {
        var a := w.slot.addr;
        assert w in c.writes;
        TameRefunds(c);
        SweepStrandsNothing(l, c, n - 1, maturity);
        MarkedStep(c, n - 1, a);
        SweepMeans(l, c, n - 1, maturity, NativeSlot(a));
        SweepOneMeans(s, c, a, maturity, NativeSlot(a));
      }
    }
  }

  /** With a dead refund address nothing moves. */
  lemma {:induction false} NamedStays(s: Sweep, c: Certificate, a: Address, n: nat)
    requires n <= |c.writes| && c.deposit.refundTo.addr in s.ledger.spent
    ensures
      var r := SweepNamed(s, c, a, n);
      r.ledger == s.ledger && r.swept == s.swept && r.stranded == s.stranded
  {
    if n > 0 {
      NamedStays(s, c, a, n - 1);
    }
  }

  /** A sum kept within 256 bits by saturating. */
  function Saturated(v: int): int {
    if v > MAX then MAX else v
  }

  /** With a dead refund address nothing is swept, and what is reported stranded is
      the native coin the burned addresses hold. */
  lemma {:induction false} NothingSwept(l: Ledger, c: Certificate, n: nat)
    requires n <= |c.writes| && c.deposit.refundTo.addr in l.spent
    ensures SweepBurned(l, c, n).ledger == l && SweepBurned(l, c, n).swept == 0
    ensures SweepBurned(l, c, n).stranded == Saturated(Incoming(l, c, n, Balance(NATIVE_ASSET)))
  {
    hide SweepNamed;
    if n > 0 {
      NothingSwept(l, c, n - 1);
      var w := c.writes[n - 1];
      if w.op.OpMarkSpent? {
        NamedStays(SweepNative(SweepBurned(l, c, n - 1), c, w.slot.addr), c, w.slot.addr, |c.writes|);
      }
    }
  }

  // ------------------------------------------------------- cells left behind

  /** The named cells of one address that hold something. */
  ghost function NamedLeft(l: Ledger, c: Certificate, a: Address, n: nat): set<Slot>
    requires n <= |c.writes|
  {
    set x | x in c.writes[..n] && SweepsAlso(x, a) && l.Get(x.slot) != 0 :: x.slot
  }

  /** The swept cells that hold something, of the addresses the first n writes burn. */
  ghost function LeftBehind(l: Ledger, c: Certificate, n: nat): set<Slot>
    requires n <= |c.writes|
  {
    (set w | w in c.writes && MarkedIn(c, n, w.slot.addr) && l.Get(NativeSlot(w.slot.addr)) != 0
       :: NativeSlot(w.slot.addr))
    + set x | x in c.writes && MarkedIn(c, n, x.slot.addr) && SweepsAlso(x, x.slot.addr) && l.Get(x.slot) != 0 :: x.slot
  }

  lemma NamedLeftStep(l: Ledger, c: Certificate, a: Address, n: nat)
    requires n < |c.writes| && DistinctSlots(c.writes)
    ensures
      var x := c.writes[n];
      if SweepsAlso(x, a) && l.Get(x.slot) != 0 then
        NamedLeft(l, c, a, n + 1) == NamedLeft(l, c, a, n) + {x.slot} && x.slot !in NamedLeft(l, c, a, n)
      else NamedLeft(l, c, a, n + 1) == NamedLeft(l, c, a, n)
  {
    assert c.writes[..n + 1] == c.writes[..n] + [c.writes[n]];
  }

  lemma {:induction false} NamedCells(s: Sweep, c: Certificate, a: Address, n: nat)
    requires n <= |c.writes| && c.deposit.refundTo.addr in s.ledger.spent && DistinctSlots(c.writes)
    ensures SweepNamed(s, c, a, n).cells == s.cells + |NamedLeft(s.ledger, c, a, n)|
  {
    hide NamedLeft;
    if n == 0 {
      NothingLeft(s.ledger, c, a);
    } else {
      NamedCells(s, c, a, n - 1);
      NamedStays(s, c, a, n - 1);
      NamedLeftStep(s.ledger, c, a, n - 1);
    }
  }

  lemma NothingLeft(l: Ledger, c: Certificate, a: Address)
    ensures NamedLeft(l, c, a, 0) == {}
  {
  }

  lemma LeftStep(l: Ledger, c: Certificate, n: nat)
    requires n < |c.writes| && Tame(c)
    ensures
      var w := c.writes[n];
      var native := if l.Get(NativeSlot(w.slot.addr)) != 0 then {NativeSlot(w.slot.addr)} else {};
      var named := NamedLeft(l, c, w.slot.addr, |c.writes|);
      if w.op.OpMarkSpent? then
        && LeftBehind(l, c, n + 1) == LeftBehind(l, c, n) + (native + named)
        && LeftBehind(l, c, n) !! native + named && native !! named
      else LeftBehind(l, c, n + 1) == LeftBehind(l, c, n)
  {
    hide Tame, MarkedIn;
    forall a: Address {
      MarkedStep(c, n, a);
    }
    assert c.writes[..|c.writes|] == c.writes;
    assert c.writes[n] in c.writes;
  }

  /** With a dead refund address the count of cells left behind is the number of
      swept cells that hold something. */
  lemma {:induction false} CellsLeft(l: Ledger, c: Certificate, n: nat)
    requires n <= |c.writes| && Tame(c) && c.deposit.refundTo.addr in l.spent
    ensures SweepBurned(l, c, n).cells == |LeftBehind(l, c, n)|
  {
    hide Tame, SweepNamed, LeftBehind, NamedLeft;
    if n == 0 {
      NoneLeft(l, c);
    } else {
      CellsLeft(l, c, n - 1);
      NothingSwept(l, c, n - 1);
      LeftStep(l, c, n - 1);
      var w := c.writes[n - 1];
      if w.op.OpMarkSpent? {
        TameDistinct(c);
        NamedCells(SweepNative(SweepBurned(l, c, n - 1), c, w.slot.addr), c, w.slot.addr, |c.writes|);
      }
    }
  }

  lemma NoneLeft(l: Ledger, c: Certificate)
    ensures LeftBehind(l, c, 0) == {}
  {
  }
}
