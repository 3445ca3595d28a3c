/** Release ordering (update/version.go): a deviation from section 11 of SemVer
    2.0.0 in which alphanumeric identifiers compare run by run, digit runs by
    value. */
module Versions {
  import opened U256
  import opened Types
  import opened Orders

  predicate IsDigit(c: char) {
    '0' <= c <= '9'
  }

  predicate AllDigits(s: string) {
    forall i :: 0 <= i < |s| ==> IsDigit(s[i])
  }

  function CmpChar(a: char, b: char): int {
    CmpInt(a as int, b as int)
  }

  /** Byte-wise string comparison. */
  function CmpString(a: string, b: string): int {
    Lex(CmpChar, a, b)
  }

  // ------------------------------------------------------------ digit runs

  function Value(s: string): nat
    requires AllDigits(s)
  {
    if s == [] then 0 else 10 * Value(s[..|s| - 1]) + (s[|s| - 1] as int - '0' as int)
  }

  function Ten(n: nat): nat {
    if n == 0 then 1 else 10 * Ten(n - 1)
  }

  function Trimmed(s: string): string {
    if |s| > 1 && s[0] == '0' then Trimmed(s[1..]) else s
  }

  /** Drops leading zeroes, but never the last digit. */
  method TrimZeroes(s: string) returns (r: string)
    ensures r == Trimmed(s)
  {
    var i := 0;
    while i < |s| - 1 && s[i] == '0'
      invariant 0 <= i <= |s| && (s == [] || i < |s|)
      invariant Trimmed(s[i..]) == Trimmed(s)
    {
      assert s[i..][1..] == s[i + 1..];
      i := i + 1;
    }
    return s[i..];
  }

  lemma {:induction false} ValueBelow(s: string)
    requires AllDigits(s)
    ensures Value(s) < Ten(|s|)
  {
    if s != [] {
      ValueBelow(s[..|s| - 1]);
    }
  }

  lemma {:induction false} ValueConcat(a: string, b: string)
    requires AllDigits(a) && AllDigits(b)
    ensures AllDigits(a + b) && Value(a + b) == Product(Value(a), Ten(|b|)) + Value(b)
  {
    if b == [] {
      assert a + b == a;
    } else {
      hide Product;
      var n := |b| - 1;
      assert (a + b)[..|a + b| - 1] == a + b[..n];
      ValueConcat(a, b[..n]);
      TenStep(Value(a), n);
    }
  }

  lemma TenStep(v: nat, n: nat)
    ensures 10 * Product(v, Ten(n)) == Product(v, Ten(n + 1))
  {
    assert v * (10 * Ten(n)) == 10 * (v * Ten(n));
  }

  lemma ValueSingle(c: char)
    requires IsDigit(c)
    ensures Value([c]) == c as int - '0' as int
  {
    assert [c][..0] == [];
  }

  lemma ValueHead(s: string)
    requires AllDigits(s) && s != []
    ensures Value(s) == Product(s[0] as int - '0' as int, Ten(|s| - 1)) + Value(s[1..])
  {
    hide Product, Value, Ten;
    assert s == [s[0]] + s[1..];
    ValueConcat([s[0]], s[1..]);
    ValueSingle(s[0]);
  }

  lemma {:induction false} TrimKeepsValue(s: string)
    requires AllDigits(s)
    ensures AllDigits(Trimmed(s)) && Value(Trimmed(s)) == Value(s)
    ensures |Trimmed(s)| > 1 ==> Trimmed(s)[0] != '0'
    ensures s != [] ==> Trimmed(s) != []
  {
    if |s| > 1 && s[0] == '0' {
      TrimKeepsValue(s[1..]);
      ValueHead(s);
    }
  }

  lemma {:induction false} SameLengthByValue(a: string, b: string)
    requires AllDigits(a) && AllDigits(b) && |a| == |b|
    ensures CmpString(a, b) == CmpInt(Value(a), Value(b))
  {
    hide Product;
    if a != [] {
      ValueHead(a);
      ValueHead(b);
      ValueBelow(a[1..]);
      ValueBelow(b[1..]);
      if a[0] == b[0] {
        SameLengthByValue(a[1..], b[1..]);
      } else {
        DigitDecides(a[0] as int - '0' as int, b[0] as int - '0' as int, Ten(|a| - 1), Value(a[1..]), Value(b[1..]));
      }
    }
  }

  lemma DigitDecides(x: nat, y: nat, t: nat, u: nat, v: nat)
    requires u < t && v < t && x != y
    ensures CmpInt(Product(x, t) + u, Product(y, t) + v) == CmpInt(x, y)
  {
    hide Product;
    if x < y {
      ProductGap(x, y, t);
    } else {
      ProductGap(y, x, t);
    }
  }

  lemma ProductGap(x: nat, y: nat, t: nat)
    requires x < y
    ensures Product(x, t) + t <= Product(y, t)
  {
    assert (y - x - 1) * t >= 0;
    assert y * t == x * t + t + (y - x - 1) * t;
  }

  lemma {:induction false} LongerIsLarger(a: string, b: string)
    requires AllDigits(a) && AllDigits(b) && |a| < |b| && b[0] != '0'
    ensures Value(a) < Value(b)
  {
    hide Product;
    ValueBelow(a);
    ValueHead(b);
    TenGrows(|a|, |b| - 1);
    ProductGap(0, b[0] as int - '0' as int, Ten(|b| - 1));
  }

  lemma {:induction false} TenGrows(m: nat, n: nat)
    requires m <= n
    ensures Ten(m) <= Ten(n)
  {
    if m < n {
      TenGrows(m, n - 1);
    }
  }

  /** Length first, then bytes: that is comparison by value, at any length. */
  lemma DigitRunsByValue(a: string, b: string)
    requires AllDigits(a) && AllDigits(b) && a != [] && b != []
    ensures
      (if |Trimmed(a)| != |Trimmed(b)| then CmpInt(|Trimmed(a)|, |Trimmed(b)|) else CmpString(Trimmed(a), Trimmed(b)))
      == CmpInt(Value(a), Value(b))
  {
    TrimKeepsValue(a);
    TrimKeepsValue(b);
    if |Trimmed(a)| < |Trimmed(b)| {
      LongerIsLarger(Trimmed(a), Trimmed(b));
    } else if |Trimmed(a)| > |Trimmed(b)| {
      LongerIsLarger(Trimmed(b), Trimmed(a));
    } else {
      SameLengthByValue(Trimmed(a), Trimmed(b));
    }
  }

  // ------------------------------------------------------------------- runs

  /** A maximal run, as what it is compared by. */
  datatype Run = Digits(value: nat) | Letters(text: string)

  predicate Uniform(s: string) {
    s != [] && forall i :: 0 <= i < |s| ==> IsDigit(s[i]) == IsDigit(s[0])
  }

  function RunOf(s: string): Run
    requires Uniform(s)
  {
    if IsDigit(s[0]) then Digits(Value(s)) else Letters(s)
  }

  function CmpRun(a: Run, b: Run): int {
    match (a, b)
    case (Digits(x), Digits(y)) => CmpInt(x, y)
    case (Digits(_), Letters(_)) => -1
    case (Letters(_), Digits(_)) => 1
    case (Letters(x), Letters(y)) => CmpString(x, y)
  }

  /** The order on runs, as the code spells it. */
  method CompareRun(a: string, b: string) returns (c: int)
    requires Uniform(a) && Uniform(b)
    ensures c == CmpRun(RunOf(a), RunOf(b))
  {
    if IsDigit(a[0]) && IsDigit(b[0]) {
      DigitRunsByValue(a, b);
      var ta := TrimZeroes(a);
      var tb := TrimZeroes(b);
      c := CmpInt(|ta|, |tb|);
      if c != 0 {
        return;
      }
      return CmpString(ta, tb);
    } else if IsDigit(a[0]) {
      return -1;
    } else if IsDigit(b[0]) {
      return 1;
    }
    return CmpString(a, b);
  }

  lemma CharsAreOrdered()
    ensures OrdersOn(CmpChar, (c: char) => true)
  {
  }

  lemma StringLaws(a: string, b: string, c: string)
    ensures CmpString(a, b) == -CmpString(b, a)
    ensures CmpString(a, b) == 0 <==> a == b
    ensures CmpString(a, b) < 0 && CmpString(b, c) < 0 ==> CmpString(a, c) < 0
  {
    CharsAreOrdered();
    var any := (c: char) => true;
    LexAntisymmetric(CmpChar, any, a, b);
    LexZero(CmpChar, any, a, b);
    if CmpString(a, b) < 0 && CmpString(b, c) < 0 {
      LexTransitive(CmpChar, any, a, b, c);
    }
  }

  lemma RunsAreOrdered()
    ensures OrdersOn(CmpRun, (r: Run) => true)
  {
    hide CmpString;
    forall x: Run, y: Run, z: Run
      ensures CmpRun(x, y) == -CmpRun(y, x)
      ensures CmpRun(x, y) == 0 <==> x == y
      ensures CmpRun(x, y) < 0 && CmpRun(y, z) < 0 ==> CmpRun(x, z) < 0
    {
      RunLaws(x, y, z);
    }
  }

  lemma RunLaws(x: Run, y: Run, z: Run)
    ensures CmpRun(x, y) == -CmpRun(y, x)
    ensures CmpRun(x, y) == 0 <==> x == y
    ensures CmpRun(x, y) < 0 && CmpRun(y, z) < 0 ==> CmpRun(x, z) < 0
  {
    hide CmpString;
    if x.Letters? && y.Letters? {
      StringLaws(x.text, y.text, if z.Letters? then z.text else []);
    }
  }

  // ------------------------------------------------------- identifiers as runs

  /** How many leading characters are of one kind. */
  function Lead(s: string, digit: bool): (n: nat)
    ensures n <= |s|
    ensures forall i :: 0 <= i < n ==> IsDigit(s[i]) == digit
    ensures n < |s| ==> IsDigit(s[n]) != digit
  {
    if s == [] || IsDigit(s[0]) != digit then 0 else 1 + Lead(s[1..], digit)
  }

  function RunsOf(s: string): (r: seq<string>)
    ensures forall i :: 0 <= i < |r| ==> Uniform(r[i])
  {
    if s == [] then []
    else
      var n := Lead(s, IsDigit(s[0]));
      assert n > 0;
      [s[..n]] + RunsOf(s[n..])
  }

  function Joined(r: seq<string>): string {
    if r == [] then [] else r[0] + Joined(r[1..])
  }

  /** The runs put together are the identifier, and no two neighbours are of the
      same kind: they are its maximal runs. */
  lemma {:induction false} RunsAreMaximal(s: string)
    ensures Joined(RunsOf(s)) == s
    ensures forall i :: 0 < i < |RunsOf(s)| ==> IsDigit(RunsOf(s)[i][0]) != IsDigit(RunsOf(s)[i - 1][0])
  {
    if s != [] {
      var n := Lead(s, IsDigit(s[0]));
      assert s == s[..n] + s[n..];
      RunsAreMaximal(s[n..]);
      var rest := RunsOf(s[n..]);
      assert RunsOf(s)[1..] == rest;
      if rest != [] {
        assert rest[0][0] == s[n..][0];
      }
    }
  }

  lemma LeadReached(s: string, i: nat, j: nat)
    requires i < j <= |s|
    requires forall k :: i <= k < j ==> IsDigit(s[k]) == IsDigit(s[i])
    requires j == |s| || IsDigit(s[j]) != IsDigit(s[i])
    ensures Lead(s[i..], IsDigit(s[i])) == j - i
  {
  }

  lemma RunsStep(s: string, i: nat, j: nat)
    requires i < j <= |s|
    requires forall k :: i <= k < j ==> IsDigit(s[k]) == IsDigit(s[i])
    requires j == |s| || IsDigit(s[j]) != IsDigit(s[i])
    ensures RunsOf(s[i..]) == [s[i..j]] + RunsOf(s[j..])
  {
    LeadReached(s, i, j);
    assert s[i..][..j - i] == s[i..j] && s[i..][j - i..] == s[j..];
  }

  lemma NoRuns()
    ensures RunsOf([]) == []
  {
  }

  method SplitRuns(s: string) returns (r: seq<string>)
    ensures r == RunsOf(s)
  {
    NoRuns();
    hide RunsOf;
    r := [];
    var i := 0;
    assert s[0..] == s;
    while i < |s|
      invariant 0 <= i <= |s|
      invariant r + RunsOf(s[i..]) == RunsOf(s)
    {
      var j := i;
      var digit := IsDigit(s[i]);
      while j < |s| && IsDigit(s[j]) == digit
        invariant i <= j <= |s|
        invariant forall k :: i <= k < j ==> IsDigit(s[k]) == digit
      {
        j := j + 1;
      }
      RunsStep(s, i, j);
      r := r + [s[i..j]];
      i := j;
    }
    assert s[|s|..] == [];
  }

  /** What an identifier is compared by. */
  function Keys(s: string): (k: seq<Run>)
    ensures |k| == |RunsOf(s)|
    ensures forall i :: 0 <= i < |k| ==> k[i] == RunOf(RunsOf(s)[i])
  {
    seq(|RunsOf(s)|, i requires 0 <= i < |RunsOf(s)| => RunOf(RunsOf(s)[i]))
  }

  function CmpAlnum(a: string, b: string): int {
    Lex(CmpRun, Keys(a), Keys(b))
  }

  method CompareAlnumIdentifier(a: string, b: string) returns (c: int)
    ensures c == CmpAlnum(a, b)
  {
    hide RunsOf;
    var ar := SplitRuns(a);
    var br := SplitRuns(b);
    var i := 0;
    while i < |ar| && i < |br|
      invariant 0 <= i <= |ar| && i <= |br|
      invariant Keys(a)[..i] == Keys(b)[..i]
    {
      c := CompareRun(ar[i], br[i]);
      LexSkip(CmpRun, Keys(a), Keys(b), i);
      RunLaws(Keys(a)[i], Keys(b)[i], Keys(a)[i]);
      if c != 0 {
        return;
      }
      assert Keys(a)[..i + 1] == Keys(a)[..i] + [Keys(a)[i]] && Keys(b)[..i + 1] == Keys(b)[..i] + [Keys(b)[i]];
      i := i + 1;
    }
    LexSkip(CmpRun, Keys(a), Keys(b), i);
    return CmpInt(|ar|, |br|);
  }

  /** The comparison of alphanumeric identifiers is a total preorder on all
      strings whatever: it says opposite things both ways, it is transitive, and
      it calls equal exactly the identifiers with the same runs by value. */
  lemma AlnumIsTotalPreorder(a: string, b: string, c: string)
    ensures CmpAlnum(a, b) == -CmpAlnum(b, a)
    ensures CmpAlnum(a, b) == 0 <==> Keys(a) == Keys(b)
    ensures CmpAlnum(a, b) <= 0 && CmpAlnum(b, c) <= 0 ==> CmpAlnum(a, c) <= 0
    ensures CmpAlnum(a, b) <= 0 && CmpAlnum(b, c) <= 0 && CmpAlnum(a, c) == 0 ==> CmpAlnum(a, b) == 0 == CmpAlnum(b, c)
  {
    hide Keys;
    var any := (r: Run) => true;
    RunsAreOrdered();
    LexAntisymmetric(CmpRun, any, Keys(a), Keys(b));
    LexZero(CmpRun, any, Keys(a), Keys(b));
    if CmpAlnum(a, b) <= 0 && CmpAlnum(b, c) <= 0 {
      LexTransitive(CmpRun, any, Keys(a), Keys(b), Keys(c));
    }
  }

  // ------------------------------------------------------------ whole versions

  const MAX_INT: nat := 0x7FFF_FFFF_FFFF_FFFF

  /** `strconv.Atoi`: an optional sign, decimal digits, 64 bits. */
  function Atoi(s: string): Option<int> {
    var signed := s != [] && (s[0] == '+' || s[0] == '-');
    var digits := if signed then s[1..] else s;
    if digits == [] || !AllDigits(digits) then None
    else if s[0] == '-' then
      if Value(digits) <= MAX_INT + 1 then Some(-(Value(digits) as int)) else None
    else if Value(digits) <= MAX_INT then Some(Value(digits)) else None
  }

  /** What a dotted field is compared by. */
  datatype Field = Number(n: int) | Alnum(runs: seq<Run>)

  function FieldOf(s: string): Field {
    match Atoi(s)
    case Some(n) => Number(n)
    case None => Alnum(Keys(s))
  }

  function CmpField(x: string, y: string): int {
    match (FieldOf(x), FieldOf(y))
    case (Number(m), Number(n)) => CmpInt(m, n)
    case (Number(_), Alnum(_)) => -1
    case (Alnum(_), Number(_)) => 1
    case (Alnum(a), Alnum(b)) => Lex(CmpRun, a, b)
  }

  /** Any two fields compare; equal means the same number, or the same runs. */
  lemma FieldIsTotalPreorder(x: string, y: string, z: string)
    ensures CmpField(x, y) == -CmpField(y, x)
    ensures CmpField(x, y) == 0 <==> FieldOf(x) == FieldOf(y)
    ensures CmpField(x, y) < 0 && CmpField(y, z) < 0 ==> CmpField(x, z) < 0
  {
    hide Keys, Atoi;
    AlnumIsTotalPreorder(x, y, z);
  }

  function Fields(s: string): seq<string>
    decreases |s|
  {
    if '.' !in s then [s]
    else
      var n := Upto(s);
      [s[..n]] + Fields(s[n + 1..])
  }

  function Upto(s: string): (n: nat)
    requires '.' in s
    ensures n < |s| && s[n] == '.' && '.' !in s[..n]
  {
    if s[0] == '.' then 0
    else
      var n := Upto(s[1..]);
      assert s[..n + 1] == [s[0]] + s[1..][..n];
      1 + n
  }

  function Dotted(f: seq<string>): string {
    if f == [] then [] else if |f| == 1 then f[0] else f[0] + ['.'] + Dotted(f[1..])
  }

  /** Splitting loses nothing. */
  lemma {:induction false} FieldsRejoin(s: string)
    ensures Fields(s) != [] && Dotted(Fields(s)) == s
    decreases |s|
  {
    if '.' in s {
      var n := Upto(s);
      FieldsRejoin(s[n + 1..]);
      assert Fields(s)[1..] == Fields(s[n + 1..]);
      assert s == s[..n] + ['.'] + s[n + 1..];
    }
  }

  /** Splitting splits everywhere: with FieldsRejoin this fixes the fields. */
  lemma {:induction false} FieldsHaveNoDots(s: string)
    ensures forall i :: 0 <= i < |Fields(s)| ==> '.' !in Fields(s)[i]
    decreases |s|
  {
    if '.' in s {
      var n := Upto(s);
      FieldsHaveNoDots(s[n + 1..]);
      assert Fields(s)[1..] == Fields(s[n + 1..]);
      assert forall i :: 0 < i < |Fields(s)| ==> Fields(s)[i] == Fields(s)[1..][i - 1];
    }
  }

  datatype Version = Version(major: int, minor: int, patch: int, pre: string)

  function CmpPre(a: string, b: string): int {
    if a == "" && b == "" then 0
    else if a == "" then 1
    else if b == "" then -1
    else Lex(CmpField, Fields(a), Fields(b))
  }

  method CompareField(x: string, y: string) returns (c: int)
    ensures c == CmpField(x, y)
  {
    hide Keys, Atoi;
    var xn, yn := Atoi(x), Atoi(y);
    if xn.Some? && yn.Some? {
      return CmpInt(xn.value, yn.value);
    } else if xn.Some? {
      return -1;
    } else if yn.Some? {
      return 1;
    }
    c := CompareAlnumIdentifier(x, y);
  }

  /** The loop over fields, stopping at the first two spelled differently. */
  method ComparePre(a: string, b: string) returns (c: int)
    ensures c == CmpPre(a, b)
  {
    hide CmpField, Fields;
    if a == "" && b == "" {
      return 0;
    } else if a == "" {
      return 1;
    } else if b == "" {
      return -1;
    }
    var af, bf := Fields(a), Fields(b);
    var i := 0;
    while i < |af| && i < |bf|
      invariant 0 <= i <= |af| && i <= |bf| && af[..i] == bf[..i]
    {
      if af[i] != bf[i] {
        LexSkip(CmpField, af, bf, i);
        c := CompareField(af[i], bf[i]);
        return;
      }
      assert af[..i + 1] == af[..i] + [af[i]] && bf[..i + 1] == bf[..i] + [bf[i]];
      i := i + 1;
    }
    LexSkip(CmpField, af, bf, i);
    return CmpInt(|af|, |bf|);
  }

  function Cmp(v: Version, w: Version): int {
    if v.major != w.major then CmpInt(v.major, w.major)
    else if v.minor != w.minor then CmpInt(v.minor, w.minor)
    else if v.patch != w.patch then CmpInt(v.patch, w.patch)
    else CmpPre(v.pre, w.pre)
  }

  method Compare(v: Version, w: Version) returns (c: int)
    ensures c == Cmp(v, w)
  {
    c := CmpInt(v.major, w.major);
    if c != 0 {
      return;
    }
    c := CmpInt(v.minor, w.minor);
    if c != 0 {
      return;
    }
    c := CmpInt(v.patch, w.patch);
    if c != 0 {
      return;
    }
    c := ComparePre(v.pre, w.pre);
  }

  // ----------------------------------------------- when the order is an order

  /** No two spellings of one field among the identifiers of a class. */
  ghost predicate OneSpelling(ok: string -> bool) {
    forall x, y :: ok(x) && ok(y) && FieldOf(x) == FieldOf(y) ==> x == y
  }

  ghost predicate WrittenIn(pre: string, ok: string -> bool) {
    pre == "" || Over(Fields(pre), ok)
  }

  lemma SpelledFieldsAreOrdered(ok: string -> bool)
    requires OneSpelling(ok)
    ensures OrdersOn(CmpField, ok)
  {
    hide CmpField, FieldOf;
    forall x, y, z
      ensures CmpField(x, y) == -CmpField(y, x)
      ensures CmpField(x, y) == 0 <==> FieldOf(x) == FieldOf(y)
      ensures CmpField(x, y) < 0 && CmpField(y, z) < 0 ==> CmpField(x, z) < 0
    {
      FieldIsTotalPreorder(x, y, z);
    }
  }

  /** Where every field has one spelling, Compare is a total order: opposite both
      ways, transitive, and equal only on the same version. */
  lemma CompareIsTotalOrder(u: Version, v: Version, w: Version, ok: string -> bool)
    requires OneSpelling(ok) && WrittenIn(u.pre, ok) && WrittenIn(v.pre, ok) && WrittenIn(w.pre, ok)
    ensures Cmp(u, v) == -Cmp(v, u)
    ensures Cmp(u, v) == 0 <==> u == v
    ensures Cmp(u, v) <= 0 && Cmp(v, w) <= 0 ==> Cmp(u, w) <= 0
    ensures Cmp(u, v) <= 0 && Cmp(v, w) <= 0 && Cmp(u, w) == 0 ==> u == v == w
  {
    hide CmpPre;
    PreIsTotalOrder(u.pre, v.pre, w.pre, ok);
    PreIsTotalOrder(v.pre, w.pre, u.pre, ok);
    PreIsTotalOrder(u.pre, w.pre, v.pre, ok);
  }

  lemma PreIsTotalOrder(a: string, b: string, c: string, ok: string -> bool)
    requires OneSpelling(ok) && WrittenIn(a, ok) && WrittenIn(b, ok) && WrittenIn(c, ok)
    ensures CmpPre(a, b) == -CmpPre(b, a)
    ensures CmpPre(a, b) == 0 <==> a == b
    ensures CmpPre(a, b) <= 0 && CmpPre(b, c) <= 0 ==> CmpPre(a, c) <= 0
  {
    hide CmpField, Fields, Dotted, OneSpelling;
    SpelledFieldsAreOrdered(ok);
    FieldsRejoin(a);
    FieldsRejoin(b);
    if a != "" && b != "" {
      LexAntisymmetric(CmpField, ok, Fields(a), Fields(b));
      LexZero(CmpField, ok, Fields(a), Fields(b));
      if c != "" && CmpPre(a, b) <= 0 && CmpPre(b, c) <= 0 {
        LexTransitive(CmpField, ok, Fields(a), Fields(b), Fields(c));
      }
    }
  }

  lemma TwoFieldsCompare(x: string, y: string, p: string, q: string)
    requires '.' !in x && '.' !in y && '.' !in p && '.' !in q
    ensures
      Cmp(Version(1, 0, 0, x + "." + p), Version(1, 0, 0, y + "." + q))
      == if x != y then CmpField(x, y) else if p != q then CmpField(p, q) else 0
  {
    hide CmpField, Fields;
    TwoFields(x, p);
    TwoFields(y, q);
    LexPair(CmpField, x, p, y, q);
    assert x + "." + p != "" && y + "." + q != "";
  }

  lemma TwoFields(x: string, y: string)
    requires '.' !in x && '.' !in y
    ensures Fields(x + "." + y) == [x, y]
  {
    var s := x + "." + y;
    assert s[|x|] == '.';
    assert forall i :: 0 <= i < |x| ==> s[i] == x[i];
    assert s[..|x|] == x && s[|x| + 1..] == y;
    assert Upto(s) == |x|;
  }

  /** And only there: two spellings of one field break transitivity, in three
      versions built from them. */
  lemma TwoSpellingsBreakTheOrder(x: string, y: string)
    requires x != y && FieldOf(x) == FieldOf(y) && '.' !in x && '.' !in y
    ensures
      var u := Version(1, 0, 0, x + "." + "b");
      var v := Version(1, 0, 0, y + "." + "b");
      var w := Version(1, 0, 0, x + "." + "a");
      Cmp(u, v) == 0 && Cmp(v, w) == 0 && Cmp(u, w) > 0
  {
    hide CmpField, FieldOf, Cmp;
    TwoFieldsCompare(x, y, "b", "b");
    TwoFieldsCompare(y, x, "b", "a");
    TwoFieldsCompare(x, x, "b", "a");
    FieldIsTotalPreorder(x, y, x);
    FieldIsTotalPreorder(y, x, y);
    LettersCompare();
  }

  ghost predicate TransitiveOn(ok: string -> bool) {
    forall u: Version, v: Version, w: Version ::
      WrittenIn(u.pre, ok) && WrittenIn(v.pre, ok) && WrittenIn(w.pre, ok) && Cmp(u, v) <= 0 && Cmp(v, w) <= 0 ==> Cmp(u, w) <= 0
  }

  /** Over any class of identifiers that has the letters a and b, the order is
      transitive exactly when no two of them are spellings of one field. */
  lemma TransitiveIffOneSpelling(ok: string -> bool)
    requires ok("a") && ok("b") && forall x :: ok(x) ==> '.' !in x
    ensures TransitiveOn(ok) <==> OneSpelling(ok)
  {
    hide Cmp, FieldOf, WrittenIn;
    if OneSpelling(ok) {
      forall u: Version, v: Version, w: Version
        | WrittenIn(u.pre, ok) && WrittenIn(v.pre, ok) && WrittenIn(w.pre, ok) && Cmp(u, v) <= 0 && Cmp(v, w) <= 0
        ensures Cmp(u, w) <= 0
      {
        CompareIsTotalOrder(u, v, w, ok);
      }
    }
    if TransitiveOn(ok) {
      forall x, y | ok(x) && ok(y) && FieldOf(x) == FieldOf(y)
        ensures x == y
      {
        if x != y {
          BrokenTriple(ok, x, y);
          assert false;
        }
      }
    }
  }

  lemma BrokenTriple(ok: string -> bool, x: string, y: string)
    requires ok("a") && ok("b") && ok(x) && ok(y) && '.' !in x && '.' !in y
    requires x != y && FieldOf(x) == FieldOf(y)
    ensures !TransitiveOn(ok)
  {
    hide Cmp, FieldOf, Fields;
    var u, v, w := Version(1, 0, 0, x + "." + "b"), Version(1, 0, 0, y + "." + "b"), Version(1, 0, 0, x + "." + "a");
    TwoSpellingsBreakTheOrder(x, y);
    TwoFields(x, "b");
    TwoFields(y, "b");
    TwoFields(x, "a");
    assert WrittenIn(u.pre, ok) && WrittenIn(v.pre, ok) && WrittenIn(w.pre, ok);
  }

  lemma LettersCompare()
    ensures CmpField("b", "a") > 0
  {
    assert Atoi("a").None? && Atoi("b").None?;
    SingleLetter('a');
    SingleLetter('b');
  }

  lemma SingleLetter(c: char)
    requires !IsDigit(c)
    ensures Keys([c]) == [Letters([c])]
  {
    assert [c][1..] == [];
    assert [c][..1] == [c];
    NoRuns();
    assert RunsOf([c]) == [[c]];
  }

  // ------------------------------------------------------ canonical spellings

  predicate NoLeadingZeroes(s: string) {
    forall i :: 0 <= i < |RunsOf(s)| && IsDigit(RunsOf(s)[i][0]) ==> Trimmed(RunsOf(s)[i]) == RunsOf(s)[i]
  }

  /** No run of digits has a superfluous zero, and a number carries no needless
      sign.  Stricter than section 9 of SemVer 2.0.0, which allows zeroes inside
      an alphanumeric identifier. */
  predicate Canonical(s: string) {
    && NoLeadingZeroes(s)
    && (Atoi(s).Some? ==> s[0] != '+' && s != "-0")
  }

  lemma SameRunSameText(a: string, b: string)
    requires Uniform(a) && Uniform(b) && RunOf(a) == RunOf(b)
    requires IsDigit(a[0]) ==> Trimmed(a) == a && Trimmed(b) == b
    ensures a == b
  {
    if IsDigit(a[0]) {
      DigitRunsByValue(a, b);
      StringLaws(a, b, a);
    }
  }

  lemma SameKeysSameText(a: string, b: string)
    requires NoLeadingZeroes(a) && NoLeadingZeroes(b) && Keys(a) == Keys(b)
    ensures a == b
  {
    hide RunsOf, Trimmed, Value;
    forall i | 0 <= i < |RunsOf(a)|
      ensures RunsOf(a)[i] == RunsOf(b)[i]
    {
      assert RunOf(RunsOf(a)[i]) == Keys(a)[i] == Keys(b)[i] == RunOf(RunsOf(b)[i]);
      SameRunSameText(RunsOf(a)[i], RunsOf(b)[i]);
    }
    assert RunsOf(a) == RunsOf(b);
    RunsAreMaximal(a);
    RunsAreMaximal(b);
  }

  lemma DigitsAreOneRun(s: string)
    requires s != [] && AllDigits(s)
    ensures Keys(s) == [Digits(Value(s))]
  {
    LeadReached(s, 0, |s|);
    assert s[0..] == s && s[..|s|] == s && s[|s|..] == [];
    NoRuns();
    assert RunsOf(s) == [s];
  }

  lemma SignedRuns(s: string)
    requires |s| > 1 && s[0] == '-' && AllDigits(s[1..])
    ensures Keys(s) == [Letters("-"), Digits(Value(s[1..]))]
  {
    RunsStep(s, 0, 1);
    assert s[0..] == s && s[0..1] == "-";
    DigitsAreOneRun(s[1..]);
    assert RunsOf(s) == ["-"] + RunsOf(s[1..]);
    assert Keys(s[1..])[0] == RunOf(RunsOf(s[1..])[0]);
    assert Keys(s) == [RunOf("-")] + Keys(s[1..]);
  }

  lemma CanonicalNumber(s: string)
    requires Canonical(s) && Atoi(s).Some?
    ensures Keys(s) == if Atoi(s).value >= 0 then [Digits(Atoi(s).value)] else [Letters("-"), Digits(-Atoi(s).value)]
  {
    if s[0] == '-' {
      SignedRuns(s);
      NegativeIsNonzero(s);
    } else {
      DigitsAreOneRun(s);
    }
  }

  lemma NegativeIsNonzero(s: string)
    requires |s| > 1 && s[0] == '-' && AllDigits(s[1..]) && NoLeadingZeroes(s) && s != "-0"
    ensures Value(s[1..]) > 0
  {
    var d := s[1..];
    RunsStep(s, 0, 1);
    assert s[0..] == s;
    LeadReached(d, 0, |d|);
    assert d[0..] == d && d[..|d|] == d && d[|d|..] == [];
    NoRuns();
    assert RunsOf(d) == [d];
    assert RunsOf(s)[1] == d;
    TrimKeepsValue(d);
    if |d| > 1 {
      LongerIsLarger("0", d);
    } else {
      ValueSingle(d[0]);
      assert d == [d[0]];
      assert s == "-" + d;
    }
  }

  /** Canonical identifiers have one spelling each, so releases named with them
      are totally ordered. */
  lemma CanonicalIsOneSpelling()
    ensures OneSpelling(Canonical)
  {
    hide Canonical, FieldOf;
    forall x, y | Canonical(x) && Canonical(y) && FieldOf(x) == FieldOf(y)
      ensures x == y
    {
      CanonicalFieldsAgree(x, y);
    }
  }

  lemma CanonicalFieldsAgree(x: string, y: string)
    requires Canonical(x) && Canonical(y) && FieldOf(x) == FieldOf(y)
    ensures x == y
  {
    hide Keys, NoLeadingZeroes, Atoi;
    if Atoi(x).Some? {
      CanonicalNumber(x);
      CanonicalNumber(y);
    }
    SameKeysSameText(x, y);
  }

  lemma AfterLetters(s: string, n: nat)
    requires 0 < n < |s| && AllDigits(s[n..]) && forall i :: 0 <= i < n ==> !IsDigit(s[i])
    ensures Keys(s) == [Letters(s[..n]), Digits(Value(s[n..]))]
  {
    hide RunsOf, Value;
    assert IsDigit(s[n..][0]);
    RunsStep(s, 0, n);
    assert s[0..] == s && s[0..n] == s[..n];
    OneRunMore(s, s[..n], s[n..]);
    DigitsAreOneRun(s[n..]);
  }

  lemma ZeroAddsNothing(d: string)
    requires AllDigits(d)
    ensures AllDigits("0" + d) && Value("0" + d) == Value(d)
  {
    assert ("0" + d)[1..] == d;
    ValueHead("0" + d);
  }

  /** Digits, possibly after letters, as one or two runs. */
  lemma LettersThenDigits(text: string, d: string)
    requires d != [] && AllDigits(d) && forall i :: 0 <= i < |text| ==> !IsDigit(text[i])
    ensures Keys(text + d) == (if text == [] then [] else [Letters(text)]) + [Digits(Value(d))]
  {
    var s := text + d;
    assert s[|text|..] == d && s[..|text|] == text;
    if text == [] {
      assert s == d;
      DigitsAreOneRun(d);
    } else {
      AfterLetters(s, |text|);
    }
  }

  lemma AtoiOf(text: string, d: string)
    requires d != [] && AllDigits(d) && forall i :: 0 <= i < |text| ==> !IsDigit(text[i])
    ensures
      Atoi(text + d)
      == if text == [] || text == "+" then (if Value(d) <= MAX_INT then Some(Value(d)) else None)
         else if text == "-" then (if Value(d) <= MAX_INT + 1 then Some(-(Value(d) as int)) else None)
         else None
  {
    var s := text + d;
    if |text| > 1 {
      assert s[1..][0] == text[1];
      assert !IsDigit(s[1..][0]) && !IsDigit(s[0]);
    } else if |text| == 1 {
      assert s[1..] == d && text == [text[0]];
      assert !IsDigit(s[0]);
    } else {
      assert s == d;
    }
  }

  /** A zero in front of digits is always a second spelling: "5" and "05", and
      "rc1" and "rc01", which section 9 allows. */
  lemma ZeroIsASecondSpelling(text: string, d: string)
    requires d != [] && AllDigits(d) && forall i :: 0 <= i < |text| ==> !IsDigit(text[i])
    ensures text + d != text + ("0" + d) && FieldOf(text + d) == FieldOf(text + ("0" + d))
  {
    hide Keys, Atoi, Value;
    ZeroAddsNothing(d);
    LettersThenDigits(text, d);
    LettersThenDigits(text, "0" + d);
    AtoiOf(text, d);
    AtoiOf(text, "0" + d);
    assert |text + d| != |text + ("0" + d)|;
  }

  lemma OneRunMore(s: string, head: string, tail: string)
    requires Uniform(head) && RunsOf(s) == [head] + RunsOf(tail)
    ensures Keys(s) == [RunOf(head)] + Keys(tail)
  {
  }
}
