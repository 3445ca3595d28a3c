/** Windowed scalar multiplication (core/crypto/edwards.go scalarMul): four
    doublings and one table lookup per nibble compute the k-fold sum, in any group
    the addition law represents. */
module Scalars {
  import opened U256
  import opened Primes
  import opened Fields
  import opened Curve
  import opened Doubling
  import opened Completeness

  // --------------------------------------------------------- the schedule

  function Multiple(i: nat, q: Point): Point {
    if i == 0 then IDENTITY else AddLaw(Multiple(i - 1, q), q)
  }

  function FourDoublings(p: Point): Point {
    DoubleLaw(DoubleLaw(DoubleLaw(DoubleLaw(p))))
  }

  /** Most significant nibble first; a zero nibble adds nothing. */
  function Windowed(k: nat, q: Point): Point {
    if k == 0 then IDENTITY
    else
      var acc := FourDoublings(Windowed(k / 16, q));
      if k % 16 == 0 then acc else AddLaw(acc, Multiple(k % 16, q))
  }

  // ------------------------------------------------------------- the group

  ghost predicate Monoid<G(!new)>(op: (G, G) -> G, e: G) {
    && (forall a, b, c :: op(op(a, b), c) == op(a, op(b, c)))
    && (forall a :: op(e, a) == a && op(a, e) == a)
  }

  /** A group the finite points represent: addition maps to the operation, and
      scaling the coordinates names the same element. */
  ghost predicate Represents<G(!new)>(phi: Point -> G, op: (G, G) -> G, e: G) {
    && Monoid(op, e)
    && phi(IDENTITY) == e
    && (forall p, q :: Finite(p) && Finite(q) ==> phi(AddLaw(p, q)) == op(phi(p), phi(q)))
    && (forall p :: Finite(p) ==> phi(Scaled(-4, p)) == phi(p))
  }

  /** g added to itself k times. */
  ghost function Times<G>(op: (G, G) -> G, e: G, k: nat, g: G): G {
    if k == 0 then e else op(Times(op, e, k - 1, g), g)
  }

  lemma {:induction false} TimesAdds<G(!new)>(op: (G, G) -> G, e: G, m: nat, n: nat, g: G)
    requires Monoid(op, e)
    ensures op(Times(op, e, m, g), Times(op, e, n, g)) == Times(op, e, m + n, g)
  {
    if n > 0 {
      TimesAdds(op, e, m, n - 1, g);
    }
  }

  /** The doubling formula doubles: no separate hypothesis about it is needed. */
  lemma DoublesInGroup<G(!new)>(phi: Point -> G, op: (G, G) -> G, e: G, p: Point)
    requires IsPrime(P) && Represents(phi, op, e) && Finite(p)
    ensures Finite(DoubleLaw(p)) && phi(DoubleLaw(p)) == op(phi(p), phi(p))
  {
    DoubleIsFinite(p);
    DoubleIsAddition(p);
    hide AddLaw, DoubleLaw, Finite, Scaled, Monoid, IsPrime;
    assert phi(Scaled(-4, DoubleLaw(p))) == phi(DoubleLaw(p));
  }

  lemma DoublingTimes<G(!new)>(phi: Point -> G, op: (G, G) -> G, e: G, p: Point, m: nat, g: G)
    requires IsPrime(P) && Represents(phi, op, e) && Finite(p) && phi(p) == Times(op, e, m, g)
    ensures Finite(DoubleLaw(p)) && phi(DoubleLaw(p)) == Times(op, e, 2 * m, g)
  {
    hide DoubleLaw, AddLaw, Finite, Scaled, IsPrime, Monoid;
    DoublesInGroup(phi, op, e, p);
    TimesAdds(op, e, m, m, g);
  }

  lemma FourDoublingsTimes<G(!new)>(phi: Point -> G, op: (G, G) -> G, e: G, p: Point, m: nat, g: G)
    requires IsPrime(P) && Represents(phi, op, e) && Finite(p) && phi(p) == Times(op, e, m, g)
    ensures Finite(FourDoublings(p)) && phi(FourDoublings(p)) == Times(op, e, 16 * m, g)
  {
    hide Represents, DoubleLaw, Finite, IsPrime;
    var p1 := DoubleLaw(p);
    var p2 := DoubleLaw(p1);
    var p3 := DoubleLaw(p2);
    DoublingTimes(phi, op, e, p, m, g);
    DoublingTimes(phi, op, e, p1, 2 * m, g);
    DoublingTimes(phi, op, e, p2, 4 * m, g);
    DoublingTimes(phi, op, e, p3, 8 * m, g);
  }

  lemma SumTimes<G(!new)>(phi: Point -> G, op: (G, G) -> G, e: G, p: Point, m: nat, q: Point, n: nat, g: G)
    requires IsPrime(P) && Represents(phi, op, e) && Finite(p) && Finite(q)
    requires phi(p) == Times(op, e, m, g) && phi(q) == Times(op, e, n, g)
    ensures Finite(AddLaw(p, q)) && phi(AddLaw(p, q)) == Times(op, e, m + n, g)
  {
    hide AddLaw, Finite, Scaled, IsPrime, Monoid;
    SumIsFinite(p, q);
    TimesAdds(op, e, m, n, g);
  }

  lemma TimesOne<G(!new)>(op: (G, G) -> G, e: G, g: G)
    requires Monoid(op, e)
    ensures Times(op, e, 1, g) == g
  {
    assert Times(op, e, 0, g) == e;
  }

  lemma IdentityTimes<G(!new)>(phi: Point -> G, op: (G, G) -> G, e: G, g: G)
    requires Represents(phi, op, e)
    ensures Finite(IDENTITY) && phi(IDENTITY) == Times(op, e, 0, g) && Times(op, e, 1, g) == g
  {
    hide AddLaw, Finite, Scaled;
    IdentityIsFinite();
    TimesOne(op, e, g);
  }

  lemma {:induction false} MultipleTimes<G(!new)>(phi: Point -> G, op: (G, G) -> G, e: G, i: nat, q: Point)
    requires IsPrime(P) && Represents(phi, op, e) && Finite(q)
    ensures Finite(Multiple(i, q)) && phi(Multiple(i, q)) == Times(op, e, i, phi(q))
  {
    hide Represents, AddLaw, Finite, Times, IsPrime;
    IdentityTimes(phi, op, e, phi(q));
    if i > 0 {
      MultipleTimes(phi, op, e, i - 1, q);
      SumTimes(phi, op, e, Multiple(i - 1, q), i - 1, q, 1, phi(q));
    }
  }

  /** The window schedule is k-fold addition, over any group law. */
  lemma {:induction false} WindowedIsRepeatedAddition<G(!new)>(phi: Point -> G, op: (G, G) -> G, e: G, k: nat, q: Point)
    requires IsPrime(P) && Represents(phi, op, e) && Finite(q)
    ensures Finite(Windowed(k, q)) && phi(Windowed(k, q)) == Times(op, e, k, phi(q))
    decreases k
  {
    hide Represents, Times, AddLaw, FourDoublings, Multiple, Finite, IsPrime;
    if k == 0 {
      IdentityTimes(phi, op, e, phi(q));
    } else {
      var m, n := k / 16, k % 16;
      WindowedIsRepeatedAddition(phi, op, e, m, q);
      FourDoublingsTimes(phi, op, e, Windowed(m, q), m, phi(q));
      assert 16 * m + n == k;
      if n != 0 {
        MultipleTimes(phi, op, e, n, q);
        SumTimes(phi, op, e, FourDoublings(Windowed(m, q)), 16 * m, Multiple(n, q), n, phi(q));
      }
    }
  }

  // --------------------------------------------------------- bits and nibbles

  function BitLen(k: nat): nat {
    if k == 0 then 0 else 1 + BitLen(k / 2)
  }

  function Shift(k: nat, j: nat): nat {
    if j == 0 then k else Shift(k / 2, j - 1)
  }

  function Bit(k: nat, j: nat): nat {
    Shift(k, j) % 2
  }

  lemma {:induction false} ShiftOnce(k: nat, j: nat)
    ensures Shift(k, j + 1) == Shift(k, j) / 2
  {
    if j > 0 {
      ShiftOnce(k / 2, j - 1);
    }
  }

  lemma ShiftFour(k: nat, j: nat)
    ensures Shift(k, j + 4) == Shift(k, j) / 16
  {
    hide Shift;
    ShiftOnce(k, j);
    ShiftOnce(k, j + 1);
    ShiftOnce(k, j + 2);
    ShiftOnce(k, j + 3);
  }

  /** The top nibble the loop starts from is not zero, and nothing lies above it. */
  lemma {:induction false} TopBits(k: nat, j: nat)
    ensures Shift(k, j) == 0 <==> j >= BitLen(k)
  {
    if j > 0 {
      TopBits(k / 2, j - 1);
    }
  }

  lemma {:induction false} ShiftShift(k: nat, i: nat, b: nat)
    ensures Shift(k, i + b) == Shift(Shift(k, i), b)
  {
    if i > 0 {
      ShiftShift(k / 2, i - 1, b);
    }
  }

  /** The low bits of a number are those of its residue. */
  lemma LowBit(m: nat, b: nat)
    requires b < 4
    ensures Shift(m, b) % 2 == Shift(m % 16, b) % 2
  {
    var q, r := m / 16, m % 16;
    assert m / 2 == 8 * q + r / 2;
    assert m / 2 / 2 == 4 * q + r / 2 / 2;
    assert m / 2 / 2 / 2 == 2 * q + r / 2 / 2 / 2;
    ShiftIs(m, b);
    ShiftIs(r, b);
  }

  lemma ShiftIs(m: nat, b: nat)
    requires b < 4
    ensures Shift(m, b) == if b == 0 then m else if b == 1 then m / 2 else if b == 2 then m / 2 / 2 else m / 2 / 2 / 2
  {
    assert Shift(m / 2 / 2 / 2, 0) == m / 2 / 2 / 2;
    assert Shift(m / 2 / 2, 1) == m / 2 / 2 / 2;
    assert Shift(m / 2, 2) == m / 2 / 2 / 2;
  }

  /** Four bits, most significant first, are the nibble. */
  method Nibble(k: nat, i: nat) returns (n: nat)
    ensures n == Shift(k, 4 * i) % 16
  {
    n := 0;
    var b := 4;
    ghost var m := Shift(k, 4 * i) % 16;
    NoNibble(m);
    hide Shift;
    while b > 0
      invariant 0 <= b <= 4
      invariant n == Shift(m, b)
    {
      b := b - 1;
      ShiftOnce(m, b);
      ShiftShift(k, 4 * i, b);
      LowBit(Shift(k, 4 * i), b);
      n := 2 * n + Bit(k, i * 4 + b);
    }
    ShiftNothing(m);
  }

  lemma NoNibble(m: nat)
    requires m < 16
    ensures Shift(m, 4) == 0
  {
    ShiftOnce(m, 3);
    ShiftIs(m, 3);
  }

  lemma ShiftNothing(m: nat)
    ensures Shift(m, 0) == m
  {
  }

  // ------------------------------------------------------------- in place

  /** Entry j is the j-fold multiple, all of them inside one set of variables. */
  ghost predicate IsTable(table: seq<EdPoint>, q: Point, cells: set<Int>)
    reads cells
  {
    forall j :: 0 <= j < |table| ==>
      table[j].Cells() <= cells && table[j].Valid() && table[j].group == j && table[j].View() == Multiple(j, q)
  }

  /** The variables of the first n table entries, by label. */
  ghost predicate Labelled(cells: set<Int>, n: nat) {
    forall c :: c in cells ==> 100 <= c.id < 100 + 4 * n
  }

  lemma TableGrows(table: seq<EdPoint>, q: Point, cells: set<Int>, p: EdPoint)
    requires IsTable(table, q, cells) && Labelled(cells, |table|)
    requires p.Valid() && p.group == |table| && p.View() == Multiple(|table|, q)
    ensures IsTable(table + [p], q, cells + p.Cells()) && Labelled(cells + p.Cells(), |table| + 1)
  {
    hide Multiple;
  }

  /** The sixteen small multiples. */
  method BuildTable(s: Scratch, q: EdPoint) returns (table: seq<EdPoint>, ghost cells: set<Int>)
    requires s.Valid() && q.Valid()
    modifies s.Cells()
    ensures |table| == 16 && IsTable(table, old(q.View()), cells) && Labelled(cells, 16) && fresh(cells)
  {
    hide AddLaw, IsTable;
    ghost var qv := q.View();
    var first := new EdPoint(0);
    table, cells := [first], first.Cells();
    FirstEntry(first, qv);
    ScratchApart(s, q);
    for i := 1 to 16
      invariant |table| == i && IsTable(table, qv, cells) && Labelled(cells, i) && fresh(cells)
      invariant q.Valid() && q.View() == qv
    {
      var p := new EdPoint(i);
      LastEntry(table, qv, cells);
      AddPoints(s, p, table[i - 1], q);
      TableGrows(table, qv, cells, p);
      table, cells := table + [p], cells + p.Cells();
    }
  }

  lemma FirstEntry(p: EdPoint, q: Point)
    requires p.Valid() && p.group == 0 && p.View() == IDENTITY
    ensures IsTable([p], q, p.Cells()) && Labelled(p.Cells(), 1)
  {
  }

  lemma LastEntry(table: seq<EdPoint>, q: Point, cells: set<Int>)
    requires table != [] && IsTable(table, q, cells)
    ensures table[|table| - 1].Valid() && table[|table| - 1].View() == Multiple(|table| - 1, q)
  {
  }

  lemma EntryAt(table: seq<EdPoint>, q: Point, cells: set<Int>, n: nat)
    requires n < |table| && IsTable(table, q, cells)
    ensures table[n].Valid() && table[n].View() == Multiple(n, q)
  {
  }

  /** The accumulator is none of the table's variables, nor a temporary. */
  lemma AccumulatorApart(acc: EdPoint, cells: set<Int>, s: Scratch)
    requires acc.Valid() && acc.group == 16 && Labelled(cells, 16) && s.Valid()
    ensures acc.Cells() !! cells && s.Cells() !! cells
  {
  }

  method DoubleFour(s: Scratch, acc: EdPoint)
    requires s.Valid() && acc.Valid()
    modifies acc.Cells(), s.Cells()
    ensures acc.Valid() && acc.View() == FourDoublings(old(acc.View()))
  {
    hide DoubleLaw;
    Double(s, acc, acc);
    Double(s, acc, acc);
    Double(s, acc, acc);
    Double(s, acc, acc);
  }

  /** One nibble: four doublings, and a table entry unless it is zero. */
  method Advance(s: Scratch, acc: EdPoint, table: seq<EdPoint>, n: nat, ghost q: Point, ghost cells: set<Int>)
    requires s.Valid() && acc.Valid() && acc.group == 16
    requires n < |table| == 16 && IsTable(table, q, cells) && Labelled(cells, 16)
    modifies acc.Cells(), s.Cells()
    ensures acc.Valid() && IsTable(table, q, cells)
    ensures
      var doubled := FourDoublings(old(acc.View()));
      acc.View() == if n == 0 then doubled else AddLaw(doubled, Multiple(n, q))
  {
    hide FourDoublings, AddLaw, Multiple, IsTable, Labelled;
    AccumulatorApart(acc, cells, s);
    DoubleFour(s, acc);
    if n != 0 {
      EntryAt(table, q, cells, n);
      AddPoints(s, acc, acc, table[n]);
    }
  }

  lemma TopNibble(k: nat, i: nat)
    requires 4 * i < BitLen(k)
    ensures Shift(k, 4 * i) > 0 && Shift(k, 4 * i) / 16 == Shift(k, 4 * (i + 1))
  {
    hide Shift;
    TopBits(k, 4 * i);
    ShiftFour(k, 4 * i);
  }

  /** One turn of the loop takes in one more nibble of k. */
  method TakeNibble(s: Scratch, acc: EdPoint, table: seq<EdPoint>, k: nat, i: nat, ghost q: Point, ghost cells: set<Int>)
    requires s.Valid() && acc.Valid() && acc.group == 16 && 4 * i < BitLen(k)
    requires |table| == 16 && IsTable(table, q, cells) && Labelled(cells, 16)
    requires acc.View() == Windowed(Shift(k, 4 * (i + 1)), q)
    modifies acc.Cells(), s.Cells()
    ensures acc.Valid() && IsTable(table, q, cells)
    ensures acc.View() == Windowed(Shift(k, 4 * i), q)
  {
    hide Shift, FourDoublings, AddLaw, Multiple, IsTable, Labelled, BitLen, Windowed;
    TopNibble(k, i);
    WindowedStep(Shift(k, 4 * i), q);
    var n := Nibble(k, i);
    Advance(s, acc, table, n, q, cells);
  }

  lemma FirstNibble(k: nat)
    ensures Shift(k, 4 * ((BitLen(k) + 3) / 4)) == 0
  {
    TopBits(k, 4 * ((BitLen(k) + 3) / 4));
  }

  /** The nibbles from the top down. */
  method RunNibbles(s: Scratch, acc: EdPoint, table: seq<EdPoint>, k: nat, ghost q: Point, ghost cells: set<Int>)
    requires s.Valid() && acc.Valid() && acc.group == 16 && acc.View() == IDENTITY
    requires |table| == 16 && IsTable(table, q, cells) && Labelled(cells, 16)
    modifies acc.Cells(), s.Cells()
    ensures acc.Valid() && acc.View() == Windowed(k, q)
  {
    hide Shift, IsTable, Labelled, BitLen, Windowed;
    var i := (BitLen(k) + 3) / 4;
    FirstNibble(k);
    WindowedNothing(q);
    while i > 0
      invariant 0 <= i && 4 * i < BitLen(k) + 4
      invariant acc.Valid() && IsTable(table, q, cells)
      invariant acc.View() == Windowed(Shift(k, 4 * i), q)
    {
      i := i - 1;
      TakeNibble(s, acc, table, k, i, q, cells);
    }
    ShiftNothing(k);
  }

  /** r = [k]q; the result may be stored over q itself. */
  method ScalarMul(s: Scratch, r: EdPoint, k: nat, q: EdPoint)
    requires s.Valid() && r.Valid() && q.Valid()
    modifies r.Cells(), s.Cells()
    ensures r.Valid() && r.View() == Windowed(k, old(q.View()))
  {
    hide IsTable, Labelled, Windowed;
    ghost var qv := q.View();
    ScratchApart(s, r);
    var table;
    ghost var cells;
    table, cells := BuildTable(s, q);
    var acc := new EdPoint(16);
    RunNibbles(s, acc, table, k, qv, cells);
    r.Set(acc);
  }

  lemma WindowedNothing(q: Point)
    ensures Windowed(0, q) == IDENTITY
  {
  }

  lemma WindowedStep(m: nat, q: Point)
    requires m > 0
    ensures Windowed(m, q) ==
              if m % 16 == 0 then FourDoublings(Windowed(m / 16, q))
              else AddLaw(FourDoublings(Windowed(m / 16, q)), Multiple(m % 16, q))
  {
    hide FourDoublings, AddLaw, Multiple;
  }
}
