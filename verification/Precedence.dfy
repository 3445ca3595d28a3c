/** What Compare (update/version.go) orders by, as a relation of its own: which of
    two versions is the older, with no comparison function in sight. */
module Precedence {
  import opened U256
  import opened Types
  import opened Orders
  import opened Versions

  // ------------------------------------------------------------ the relation

  /** Byte order. */
  ghost predicate TextBefore(a: string, b: string) {
    a < b || exists i :: FirstDiffers(a, b, i) && a[i] as int < b[i] as int
  }

  /** Digit runs by value and below letter runs, letter runs by bytes. */
  ghost predicate RunBefore(a: Run, b: Run) {
    match (a, b)
    case (Digits(x), Digits(y)) => x < y
    case (Digits(_), Letters(_)) => true
    case (Letters(_), Digits(_)) => false
    case (Letters(x), Letters(y)) => TextBefore(x, y)
  }

  ghost predicate RunsBefore(a: seq<Run>, b: seq<Run>) {
    a < b || exists i :: FirstDiffers(a, b, i) && RunBefore(a[i], b[i])
  }

  /** Numbers by value and below everything else; the rest run by run. */
  ghost predicate FieldBefore(x: string, y: string) {
    match (Atoi(x), Atoi(y))
    case (Some(m), Some(n)) => m < n
    case (Some(_), None) => true
    case (None, Some(_)) => false
    case (None, None) => RunsBefore(Keys(x), Keys(y))
  }

  /** A pre-release comes before none at all; otherwise the first field spelled
      differently decides, and a proper prefix of the fields comes first. */
  ghost predicate PreBefore(a: string, b: string) {
    && a != ""
    && (|| b == ""
        || Fields(a) < Fields(b)
        || exists i :: FirstDiffers(Fields(a), Fields(b), i) && FieldBefore(Fields(a)[i], Fields(b)[i]))
  }

  /** The triple first, major before minor before patch; then the pre-release. */
  ghost predicate Older(v: Version, w: Version) {
    || v.major < w.major
    || (v.major == w.major && v.minor < w.minor)
    || (v.major == w.major && v.minor == w.minor && v.patch < w.patch)
    || (v.major == w.major && v.minor == w.minor && v.patch == w.patch && PreBefore(v.pre, w.pre))
  }

  // --------------------------------------------------- Compare decides it

  lemma TextMeans(a: string, b: string)
    ensures CmpString(a, b) < 0 <==> TextBefore(a, b)
    ensures CmpString(a, b) > 0 <==> TextBefore(b, a)
  {
    LexMeans(CmpChar, a, b);
    DiffersBothWays(a, b);
  }

  lemma DiffersBothWays<T(!new)>(a: seq<T>, b: seq<T>)
    ensures forall i :: FirstDiffers(a, b, i) <==> FirstDiffers(b, a, i)
  {
  }

  lemma RunMeans(a: Run, b: Run)
    ensures CmpRun(a, b) < 0 <==> RunBefore(a, b)
    ensures CmpRun(a, b) > 0 <==> RunBefore(b, a)
  {
    hide CmpString, TextBefore;
    if a.Letters? && b.Letters? {
      TextMeans(a.text, b.text);
    }
  }

  lemma RunsMean(a: seq<Run>, b: seq<Run>)
    ensures Lex(CmpRun, a, b) < 0 <==> RunsBefore(a, b)
    ensures Lex(CmpRun, a, b) > 0 <==> RunsBefore(b, a)
  {
    hide CmpRun, RunBefore;
    LexMeans(CmpRun, a, b);
    DiffersBothWays(a, b);
    forall i | FirstDiffers(a, b, i)
      ensures CmpRun(a[i], b[i]) < 0 <==> RunBefore(a[i], b[i])
      ensures CmpRun(a[i], b[i]) > 0 <==> RunBefore(b[i], a[i])
    {
      RunMeans(a[i], b[i]);
    }
  }

  lemma FieldMeans(x: string, y: string)
    ensures CmpField(x, y) < 0 <==> FieldBefore(x, y)
    ensures CmpField(x, y) > 0 <==> FieldBefore(y, x)
  {
    hide Keys, Atoi, RunsBefore;
    RunsMean(Keys(x), Keys(y));
  }

  lemma PreMeans(a: string, b: string)
    ensures CmpPre(a, b) < 0 <==> PreBefore(a, b)
    ensures CmpPre(a, b) > 0 <==> PreBefore(b, a)
  {
    hide CmpField, FieldBefore, Fields;
    if a != "" && b != "" {
      var f, g := Fields(a), Fields(b);
      LexMeans(CmpField, f, g);
      DiffersBothWays(f, g);
      forall i | FirstDiffers(f, g, i)
        ensures CmpField(f[i], g[i]) < 0 <==> FieldBefore(f[i], g[i])
        ensures CmpField(f[i], g[i]) > 0 <==> FieldBefore(g[i], f[i])
      {
        FieldMeans(f[i], g[i]);
      }
    }
  }

  /** Compare answers -1 for the older version, 1 for the newer, 0 for neither. */
  lemma CompareMeans(v: Version, w: Version)
    ensures Cmp(v, w) < 0 <==> Older(v, w)
    ensures Cmp(v, w) > 0 <==> Older(w, v)
  {
    hide CmpPre, PreBefore;
    PreMeans(v.pre, w.pre);
  }

  /** In particular a release is newer than every pre-release of it, and no
      pre-release is newer than its release. */
  lemma ReleaseIsNewer(v: Version, w: Version)
    requires v.major == w.major && v.minor == w.minor && v.patch == w.patch && v.pre == "" && w.pre != ""
    ensures Cmp(v, w) > 0 && Cmp(w, v) < 0
  {
    hide CmpPre;
    CompareMeans(v, w);
    CompareMeans(w, v);
  }

  // --------------------------------------------------------- numeric fields

  lemma DigitsRead(s: string)
    requires s != "" && AllDigits(s)
    ensures Atoi(s) == if Value(s) <= MAX_INT then Some(Value(s)) else None
    ensures Keys(s) == [Digits(Value(s))]
  {
    DigitsAreOneRun(s);
    assert IsDigit(s[0]);
  }

  /** A sign in front of digits is read as one. */
  lemma SignedRead(d: string)
    requires d != "" && AllDigits(d)
    ensures Atoi("+" + d) == if Value(d) <= MAX_INT then Some(Value(d)) else None
    ensures Atoi("-" + d) == if Value(d) <= MAX_INT + 1 then Some(-(Value(d) as int)) else None
  {
    hide Value;
    assert ("+" + d)[1..] == d && ("-" + d)[1..] == d;
  }

  /** Two all-digit fields go by value, however many digits they have. */
  lemma DigitFieldsByValue(x: string, y: string)
    requires x != "" && AllDigits(x) && y != "" && AllDigits(y)
    ensures CmpField(x, y) == CmpInt(Value(x), Value(y))
  {
    hide Atoi, Keys, Value;
    DigitsRead(x);
    DigitsRead(y);
    OneRunEach(Digits(Value(x)), Digits(Value(y)));
  }

  lemma OneRunEach(a: Run, b: Run)
    ensures Lex(CmpRun, [a], [b]) == if a == b then 0 else CmpRun(a, b)
  {
    assert [a][1..] == [] && [b][1..] == [];
  }

  /** Where the second run rule reaches: a field read as text that begins with a
      digit run no smaller, or with letters. */
  ghost predicate TextStaysAbove(n: nat, y: string) {
    y != "" && (IsDigit(y[0]) ==> Value(y[..Lead(y, true)]) >= n)
  }

  /** An all-digit field is below a field that is not a number if and only if it
      fits an int, or the other begins with letters or with as large a number. */
  lemma NumberBelowText(x: string, y: string)
    requires x != "" && AllDigits(x) && Atoi(y).None? && !(y != "" && AllDigits(y))
    ensures CmpField(x, y) < 0 <==> Value(x) <= MAX_INT || TextStaysAbove(Value(x), y)
  {
    hide Atoi, Keys, Value;
    DigitsRead(x);
    if Value(x) > MAX_INT {
      if y == "" {
        EmptyKeys();
      } else {
        FirstKey(y);
        LongText(Digits(Value(x)), Keys(y));
      }
    }
  }

  lemma EmptyKeys()
    ensures Keys("") == []
  {
  }

  lemma FirstKey(y: string)
    requires y != "" && !AllDigits(y)
    ensures Keys(y) != []
    ensures IsDigit(y[0]) ==> AllDigits(y[..Lead(y, true)]) && Keys(y)[0] == Digits(Value(y[..Lead(y, true)])) && |Keys(y)| > 1
    ensures !IsDigit(y[0]) ==> Keys(y)[0].Letters?
  {
    hide Value;
    var n := Lead(y, IsDigit(y[0]));
    assert RunsOf(y) == [y[..n]] + RunsOf(y[n..]);
    if IsDigit(y[0]) {
      assert n < |y|;
      assert RunsOf(y[n..]) != [];
    }
  }

  lemma LongText(a: Run, k: seq<Run>)
    requires a.Digits? && k != []
    requires k[0].Digits? ==> |k| > 1
    ensures Lex(CmpRun, [a], k) < 0 <==> (k[0].Digits? ==> k[0].value >= a.value)
  {
    assert [a][1..] == [];
  }

  lemma {:induction false} ZeroesAreZero(n: nat)
    ensures AllDigits(seq(n, _ => '0')) && Value(seq(n, _ => '0')) == 0
  {
    if n > 0 {
      ZeroesAreZero(n - 1);
      assert seq(n, _ => '0')[..n - 1] == seq(n - 1, _ => '0');
    }
  }

  /** A one and nineteen zeroes. */
  function Huge(): string {
    "1" + seq(19, _ => '0')
  }

  lemma HugeIs()
    ensures AllDigits(Huge()) && Huge() != "" && Value(Huge()) > MAX_INT
  {
    var z := seq(19, _ => '0');
    ZeroesAreZero(19);
    ValueSingle('1');
    ValueConcat("1", z);
    assert Ten(5) == 100000;
    assert Ten(10) == 10000000000;
    assert Ten(15) == 1000000000000000;
    assert Ten(19) == 10000000000000000000;
  }

  /** The failing side on one pair: a number that does not fit, against 5a. */
  lemma HugeNumberAboveText()
    ensures Atoi("5a").None? && CmpField(Huge(), "5a") > 0
  {
    var y := "5a";
    HugeIs();
    assert y[..1] == "5" && y[1..] == "a";
    assert Lead("a", true) == 0 && Lead(y, true) == 1;
    ValueSingle('5');
    assert !IsDigit(y[1]);
    hide Atoi, Keys, Value, Huge;
    TextIsNoNumber(y);
    NumberBelowText(Huge(), y);
    DigitsRead(Huge());
    FirstKey(y);
    FieldIsTotalPreorder(Huge(), y, y);
    assert FieldOf(Huge()) != FieldOf(y);
  }

  lemma TextIsNoNumber(y: string)
    requires y == "5a"
    ensures Atoi(y).None? && !AllDigits(y)
  {
    assert !IsDigit(y[1]);
  }
}
