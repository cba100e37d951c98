/** The budget suggestions of the advisor view (js/ui.js): the three months
    before the current one (`prevMonthKey`), each category's expense total in
    them (`sumCatMonth`), their average (`avg3`) and the five largest
    averages plus 10%. */
module Suggestions {
  import opened Wrappers
  import opened Digits
  import opened JsNumber
  import opened Seqs
  import opened Utils
  import opened Ledger
  import opened Analysis

  // ---------------------------------------------------------------------
  // Previous month
  // ---------------------------------------------------------------------

  predicate IsDash(c: char) {
    c == '-'
  }

  predicate NoDash(s: string) {
    forall k :: 0 <= k < |s| ==> s[k] != '-'
  }

  /** The parts joined back with dashes. */
  function Join(parts: seq<string>): string
    requires |parts| >= 1
  {
    if |parts| == 1 then parts[0] else parts[0] + "-" + Join(parts[1..])
  }

  /** `s.split("-")`: the pieces between dashes. */
  function Split(s: string): (parts: seq<string>)
    ensures |parts| >= 1
    decreases |s|
  {
    var i := FirstIndex(s, IsDash);
    if i == |s| then [s] else [s[..i]] + Split(s[i + 1..])
  }

  /** The pieces hold no dash, and joined with dashes they give back the
      string. */
  lemma {:induction false} SplitJoin(s: string)
    ensures Join(Split(s)) == s
    ensures forall i :: 0 <= i < |Split(s)| ==> NoDash(Split(s)[i])
    decreases |s|
  {
    var i := FirstIndex(s, IsDash);
    if i < |s| {
      SplitJoin(s[i + 1..]);
      FirstDash(s, i);
      SplitJoinCons(s, s[..i], s[i + 1..]);
    } else {
      SplitNoDash(s);
    }
  }

  /** Cut at its first dash, a string is a piece without dashes, the dash
      and the rest. */
  lemma FirstDash(s: string, i: nat)
    requires i == FirstIndex(s, IsDash) && i < |s|
    ensures NoDash(s[..i]) && s == s[..i] + "-" + s[i + 1..]
  {
    forall k | 0 <= k < i ensures s[..i][k] != '-' {
      assert !IsDash(s[k]);
    }
    CutAt(s, i, '-');
  }

  lemma CutAt(s: string, i: nat, c: char)
    requires i < |s| && s[i] == c
    ensures s == s[..i] + [c] + s[i + 1..]
  {
    assert s[i..] == [c] + s[i + 1..];
    assert s == s[..i] + s[i..];
  }

  lemma SplitJoinCons(s: string, a: string, t: string)
    requires s == a + "-" + t && NoDash(a)
    requires Join(Split(t)) == t && forall i :: 0 <= i < |Split(t)| ==> NoDash(Split(t)[i])
    ensures Join(Split(s)) == s
    ensures forall i :: 0 <= i < |Split(s)| ==> NoDash(Split(s)[i])
  {
    SplitAt(a, t);
    var parts := [a] + Split(t);
    assert parts[1..] == Split(t);
    forall i | 0 <= i < |parts| ensures NoDash(parts[i]) {
      if i > 0 {
        assert parts[i] == Split(t)[i - 1];
      }
    }
  }

  lemma SplitNoDash(s: string)
    requires NoDash(s)
    ensures Split(s) == [s]
  {
    FirstIndexAt(s, IsDash, |s|);
  }

  lemma SplitAt(a: string, b: string)
    requires NoDash(a)
    ensures Split(a + "-" + b) == [a] + Split(b)
  {
    var s := a + "-" + b;
    FirstIndexAt(s, IsDash, |a|);
    assert s[..|a|] == a && s[|a| + 1..] == b;
  }

  lemma DigitsNoDash(s: string)
    requires AllDigits(s)
    ensures NoDash(s)
  {
  }

  /** ToIntegerOrInfinity on a finite value: truncation toward zero. */
  function Trunc(x: real): (n: int)
    ensures x >= 0.0 ==> n >= 0 && n as real <= x < n as real + 1.0
    ensures x < 0.0 ==> n <= 0 && n as real - 1.0 < x <= n as real
  {
    if x >= 0.0 then x.Floor else -((-x).Floor)
  }

  /** The month `new Date(y, m - 1, 1)` falls in, counted as year * 12 +
      month index; None when the date is invalid because a part is not a
      finite number. Years 0 to 99 mean 1900 to 1999. */
  function DateIndex(y: Num, m: Num): (r: Option<int>)
    ensures r.Some? <==> y.Finite? && m.Finite?
  {
    if y.Finite? && m.Finite? then Some(FullYear(Trunc(y.value)) * 12 + Trunc(m.value - 1.0))
    else None
  }

  /** The year the Date constructor uses: 0 to 99 mean 1900 to 1999. */
  function FullYear(y: int): (r: int)
    ensures 0 <= y <= 99 ==> r == 1900 + y
    ensures !(0 <= y <= 99) ==> r == y
  {
    if 0 <= y <= 99 then 1900 + y else y
  }

  /** The month of `new Date(y, m - 1, 1)` for `[y, m] =
      mk.split("-").map(Number)`; a missing month part is undefined, which
      makes the date invalid. */
  function MonthIndex(mk: string): Option<int> {
    var parts := Split(mk);
    DateIndex(ToNumber(parts[0]), if |parts| >= 2 then ToNumber(parts[1]) else NaN)
  }

  /** A whole year and a whole month give year * 12 + month - 1. */
  lemma DateIndexOfWholeNumbers(y: nat, m: nat)
    ensures DateIndex(Finite(y as real), Finite(m as real)) == Some(FullYear(y) * 12 + m - 1)
  {
    TruncInt(y);
    TruncInt(m - 1);
  }

  /** `${getFullYear()}-${String(getMonth() + 1).padStart(2, "0")}` for the
      month with the given index. */
  function KeyOf(index: int): (r: string)
    ensures |r| >= 4
    ensures r[0] == '-' || IsDigit(r[0])
    ensures r[|r| - 3] == '-'
    ensures AllDigits(r[|r| - 2..]) && DigitsValue(r[|r| - 2..]) == index % 12 + 1
    ensures index >= 0 ==> AllDigits(r[..|r| - 3]) && DigitsValue(r[..|r| - 3]) == index / 12
  {
    var year := IntToString(index / 12);
    var month := Pad2(NatToString(index % 12 + 1));
    Pad2Number(index % 12 + 1);
    KeyShape(year, month);
    year + "-" + month
  }

  /** Where the year, the dash and the month sit in a key. */
  lemma KeyShape(year: string, month: string)
    requires |year| >= 1 && |month| == 2
    ensures var r := year + "-" + month;
      r[0] == year[0] && r[|r| - 3] == '-' && r[..|r| - 3] == year && r[|r| - 2..] == month
  {
    var r := year + "-" + month;
    assert r[..|r| - 3] == year;
    assert r[|r| - 2..] == month;
  }

  const InvalidKey: string := "NaN-NaN"

  /** `prevMonthKey(mk)`: the key of the month before, or "NaN-NaN" when
      the key does not make a valid date. */
  function PrevMonthKey(mk: string): (r: string)
    ensures r == InvalidKey <==> MonthIndex(mk).None?
    ensures MonthIndex(mk).Some? ==> r == KeyOf(MonthIndex(mk).value - 1)
  {
    KeyBefore(MonthIndex(mk))
  }

  /** The key of the month before the given month, if there is one. */
  function KeyBefore(index: Option<int>): (r: string)
    ensures r == InvalidKey <==> index.None?
    ensures index.Some? ==> r == KeyOf(index.value - 1)
  {
    if index.None? then InvalidKey
    else
      KeyOfValid(index.value - 1);
      KeyOf(index.value - 1)
  }

  lemma KeyOfValid(i: int)
    ensures KeyOf(i) != InvalidKey
  {
    assert KeyOf(i)[0] != InvalidKey[0];
  }

  lemma TruncInt(k: int)
    ensures Trunc(k as real) == k
  {
  }

  /** Two digit strings joined by a dash split back into them. */
  lemma SplitDigitPair(ys: string, ms: string)
    requires AllDigits(ys) && AllDigits(ms)
    ensures Split(ys + "-" + ms) == [ys, ms]
  {
    DigitsNoDash(ys);
    DigitsNoDash(ms);
    SplitAt(ys, ms);
    SplitNoDash(ms);
  }

  lemma MonthIndexOfParts(mk: string, ys: string, ms: string)
    requires Split(mk) == [ys, ms]
    ensures MonthIndex(mk) == DateIndex(ToNumber(ys), ToNumber(ms))
  {
  }

  lemma DateIndexOfDigits(ys: string, ms: string, y: Num, m: Num)
    requires AllDigits(ys) && AllDigits(ms)
    requires y == Finite(DigitsValue(ys) as real) && m == Finite(DigitsValue(ms) as real)
    ensures DateIndex(y, m) == Some(FullYear(DigitsValue(ys)) * 12 + DigitsValue(ms) - 1)
  {
    DateIndexOfWholeNumbers(DigitsValue(ys), DigitsValue(ms));
  }

  /** A key made of a year and a month in digits reads as that month of
      that year, with years 0 to 99 in the 1900s. */
  lemma MonthIndexOfDigits(ys: string, ms: string)
    requires AllDigits(ys) && AllDigits(ms) && 1 <= |ys| <= 15 && 1 <= |ms| <= 15
    ensures MonthIndex(ys + "-" + ms) == Some(FullYear(DigitsValue(ys)) * 12 + DigitsValue(ms) - 1)
  {
    SplitDigitPair(ys, ms);
    MonthIndexOfParts(ys + "-" + ms, ys, ms);
    IntegerLiteral(ys);
    IntegerLiteral(ms);
    DateIndexOfDigits(ys, ms, ToNumber(ys), ToNumber(ms));
  }

  /** A four-digit year and a month read back from their key. */
  lemma KeyOfIndex(j: int)
    requires 12000 <= j < 120000
    ensures MonthIndex(KeyOf(j)) == Some(j)
  {
    var ys, ms := KeyOfParts(j);
    KeyRoundTrip(ys, ms, j);
  }

  /** The year and month digits a key of a four-digit year is made of. */
  lemma KeyOfParts(j: int) returns (ys: string, ms: string)
    requires 12000 <= j < 120000
    ensures KeyOf(j) == ys + "-" + ms
    ensures AllDigits(ys) && AllDigits(ms) && |ys| == 4 && |ms| == 2
    ensures DigitsValue(ys) == j / 12 && DigitsValue(ms) == j % 12 + 1
  {
    var y := j / 12;
    var mm := j % 12 + 1;
    ys := NatToString(y);
    ms := Pad2(NatToString(mm));
    FourDigitYear(y);
    Pad2Number(mm);
  }

  /** A year from 1000 to 9999 is written with four digits. */
  lemma FourDigitYear(y: nat)
    requires 1000 <= y < 10000
    ensures |NatToString(y)| == 4
  {
    assert Pow10(3) == 1000 && Pow10(4) == 10000 by {
      assert Pow10(1) == 10 && Pow10(2) == 100;
    }
    NatToStringLength(y, 4);
  }

  lemma KeyRoundTrip(ys: string, ms: string, j: int)
    requires AllDigits(ys) && AllDigits(ms) && |ys| == 4 && |ms| == 2
    requires 1000 <= DigitsValue(ys) == j / 12 && DigitsValue(ms) == j % 12 + 1
    ensures MonthIndex(ys + "-" + ms).Some? && MonthIndex(ys + "-" + ms).value == j
  {
    MonthIndexOfDigits(ys, ms);
    WholeMonthIndex(DigitsValue(ys), DigitsValue(ms), j);
  }

  lemma WholeMonthIndex(y: int, m: int, j: int)
    requires 1000 <= y == j / 12 && m == j % 12 + 1
    ensures FullYear(y) * 12 + m - 1 == j
  {
  }

  /** Going back a month from a valid month of a four-digit year lands one
      month earlier. */
  lemma PrevMonthStepsBack(mk: string, i: int)
    requires MonthIndex(mk) == Some(i) && 12000 < i <= 120000
    ensures MonthIndex(PrevMonthKey(mk)) == Some(i - 1)
  {
    PrevOfIndex(mk, i);
    KeyOfIndex(i - 1);
  }

  /** The key `YYYY-MM` of a year and a month (1 to 12). */
  function Key(year: nat, month: nat): string {
    NatToString(year) + "-" + Pad2(NatToString(month))
  }

  lemma KeyOfYearMonth(year: nat, month: nat, j: int)
    requires 1 <= month <= 12 && j == year * 12 + month - 1
    ensures KeyOf(j) == Key(year, month)
  {
    YearMonthIndex(year, month, j);
    KeyOfYearMonthParts(j, year, month);
  }

  lemma YearMonthIndex(year: nat, month: nat, j: int)
    requires 1 <= month <= 12 && j == year * 12 + month - 1
    ensures j / 12 == year && j % 12 + 1 == month
  {
  }

  lemma KeyOfYearMonthParts(j: int, year: nat, month: nat)
    requires j / 12 == year && j % 12 + 1 == month
    ensures KeyOf(j) == Key(year, month)
  {
  }

  lemma PrevOfIndex(mk: string, i: int)
    requires MonthIndex(mk) == Some(i)
    ensures PrevMonthKey(mk) == KeyOf(i - 1)
  {
    PrevAt(mk, i - 1);
  }

  lemma PrevAt(mk: string, p: int)
    requires MonthIndex(mk).Some? && MonthIndex(mk).value - 1 == p
    ensures PrevMonthKey(mk) == KeyOf(p)
  {
  }

  /** Going back from the key of a month of a four-digit year gives the
      key of the month before. */
  lemma PrevMonthOfIndex(j: int, i: int)
    requires 12000 <= j < 120000 && i == j - 1
    ensures PrevMonthKey(KeyOf(j)) == KeyOf(i)
  {
    KeyOfIndex(j);
    PrevAt(KeyOf(j), i);
  }

  /** The calendar predecessor of a well-formed key within a year: the
      month before. */
  lemma PrevMonthWithinYear(year: nat, month: nat)
    requires 1000 <= year <= 9999 && 2 <= month <= 12
    ensures PrevMonthKey(Key(year, month)) == Key(year, month - 1)
  {
    var j := year * 12 + month - 1;
    var i := j - 1;
    KeyOfYearMonth(year, month, j);
    KeyOfYearMonth(year, month - 1, i);
    PrevKeyVia(Key(year, month), j, i, Key(year, month - 1));
  }

  lemma PrevKeyVia(k: string, j: int, i: int, before: string)
    requires 12000 <= j < 120000 && i == j - 1 && k == KeyOf(j) && before == KeyOf(i)
    ensures PrevMonthKey(k) == before
  {
    PrevMonthOfIndex(j, i);
  }

  /** The month before January is December of the year before. */
  lemma PrevMonthOfJanuary(year: nat)
    requires 1000 <= year <= 9999
    ensures PrevMonthKey(Key(year, 1)) == Key(year - 1, 12)
  {
    FirstMonthStepsBack(year, 1);
  }

  lemma FirstMonthStepsBack(year: nat, month: nat)
    requires 1000 <= year <= 9999 && month == 1
    ensures PrevMonthKey(Key(year, month)) == Key(year - 1, 12)
  {
    var j := year * 12;
    var i := j - 1;
    KeyOfYearMonth(year, month, j);
    KeyOfYearMonth(year - 1, 12, i);
    PrevKeyVia(Key(year, month), j, i, Key(year - 1, 12));
  }

  /** A key without a month part gives no valid date. */
  lemma PrevMonthWithoutMonth(mk: string)
    requires NoDash(mk)
    ensures PrevMonthKey(mk) == InvalidKey
  {
    SplitNoDash(mk);
  }

  lemma NaNLiteral()
    ensures ToNumber("NaN") == NaN
  {
    NaNWord("NaN");
  }

  lemma NaNWord(n: string)
    requires |n| == 3 && n[0] == 'N' && n[1] == 'a' && n[2] == 'N'
    ensures ToNumber(n) == NaN
  {
    NotANumber(n);
  }

  lemma SplitInvalidKey()
    ensures Split(InvalidKey) == ["NaN", "NaN"]
  {
    var n := "NaN";
    assert InvalidKey == n + "-" + n;
    assert NoDash(n);
    SplitAt(n, n);
    SplitNoDash(n);
  }

  /** An invalid key stays invalid: the three months before it are all
      "NaN-NaN". */
  lemma PrevMonthOfInvalid()
    ensures PrevMonthKey(InvalidKey) == InvalidKey
  {
    SplitInvalidKey();
    MonthIndexOfParts(InvalidKey, "NaN", "NaN");
    NaNLiteral();
  }

  /** A key `ys-ms` whose year is written with one to four digits and is
      below 100, and whose month is two digits from 01 to 12. */
  predicate ShortYearKey(ys: string, ms: string) {
    AllDigits(ys) && 1 <= |ys| <= 4 && DigitsValue(ys) <= 99
    && AllDigits(ms) && |ms| == 2 && 1 <= DigitsValue(ms) <= 12
  }

  /** A year written with up to two digits is read as a year of the 1900s:
      the month before `0050-03` is the month with index `p = 1950 * 12 + 1`,
      February 1950 (see `KeyOfYearMonth`). */
  lemma PrevMonthTwoDigitYear(ys: string, ms: string, p: int)
    requires ShortYearKey(ys, ms)
    requires p == (1900 + DigitsValue(ys)) * 12 + DigitsValue(ms) - 2
    ensures PrevMonthKey(ys + "-" + ms) == KeyOf(p)
  {
    var mk := ys + "-" + ms;
    ShortYearIndex(ys, ms, p + 1);
    PrevAt(mk, p);
  }

  lemma ShortYearIndex(ys: string, ms: string, j: int)
    requires ShortYearKey(ys, ms)
    requires j == (1900 + DigitsValue(ys)) * 12 + DigitsValue(ms) - 1
    ensures MonthIndex(ys + "-" + ms).Some? && MonthIndex(ys + "-" + ms).value == j
  {
    MonthIndexOfDigits(ys, ms);
  }

  /** The three months before the month with index `j` (of a four-digit
      year) are the three calendar months before it, most recent first. */
  lemma PreviousMonthsOfKey(j: int)
    requires 12002 <= j < 120000
    ensures PreviousMonths(KeyOf(j)) == [KeyOf(j - 1), KeyOf(j - 2), KeyOf(j - 3)]
  {
    PrevMonthOfIndex(j, j - 1);
    PrevMonthOfIndex(j - 1, j - 2);
    PrevMonthOfIndex(j - 2, j - 3);
    PreviousMonthsAre(KeyOf(j), KeyOf(j - 1), KeyOf(j - 2), KeyOf(j - 3));
  }

  lemma PreviousMonthsAre(mk: string, m1: string, m2: string, m3: string)
    requires m1 == PrevMonthKey(mk) && m2 == PrevMonthKey(m1) && m3 == PrevMonthKey(m2)
    ensures PreviousMonths(mk) == [m1, m2, m3]
  {
  }

  // ---------------------------------------------------------------------
  // Suggestions
  // ---------------------------------------------------------------------

  /** `{ catId, avg, suggested }`. */
  datatype Suggestion = Suggestion(categoryId: string, avg: real, suggested: real)

  function SuggestedOf(s: Suggestion): real {
    s.suggested
  }

  function SuggestionIds(s: seq<Suggestion>): (r: seq<string>)
    ensures |r| == |s|
    ensures forall i :: 0 <= i < |s| ==> r[i] == s[i].categoryId
  {
    if |s| == 0 then [] else SuggestionIds(s[..|s| - 1]) + [s[|s| - 1].categoryId]
  }

  /** The ids of the registered categories, in order. */
  function CategoryListIds(cats: seq<Category>): (r: seq<string>)
    ensures |r| == |cats|
    ensures forall i :: 0 <= i < |cats| ==> r[i] == cats[i].id
  {
    if |cats| == 0 then [] else CategoryListIds(cats[..|cats| - 1]) + [cats[|cats| - 1].id]
  }

  /** `sumCatMonth(mk)`: the expense totals per category of the month. */
  function SumCatMonth(txs: seq<Transaction>, mk: string): seq<CatTotal> {
    CategoryTotals(MonthExpenses(txs, mk))
  }

  /** `map.get(catId) || 0`. */
  function TotalFor(m: seq<CatTotal>, c: string): real {
    var i := FirstKeyIndex(m, c);
    if i < |m| then m[i].total else 0.0
  }

  /** What the category spent in the month, counted directly. */
  function Spent(txs: seq<Transaction>, mk: string, c: string): real {
    Sum(InCategory(MonthExpenses(txs, mk), c))
  }

  /** Reading a category off the month's totals map gives what it spent,
      0 for a category without expenses. */
  lemma TotalForIsSpent(txs: seq<Transaction>, mk: string, c: string)
    ensures TotalFor(SumCatMonth(txs, mk), c) == Spent(txs, mk, c)
  {
    var e := MonthExpenses(txs, mk);
    var m := CategoryTotals(e);
    if c !in Keys(m) {
      assert c !in CategoryIds(e);
      NoneInCategory(e, c);
    }
  }

  /** `m1`, `m2`, `m3`: the three months before `mk`, most recent first. */
  function PreviousMonths(mk: string): seq<string> {
    var m1 := PrevMonthKey(mk);
    var m2 := PrevMonthKey(m1);
    [m1, m2, PrevMonthKey(m2)]
  }

  /** The reference average: what the category spent over three months,
      divided by three. */
  function ThreeMonthAverage(txs: seq<Transaction>, months: seq<string>, c: string): real
    requires |months| == 3
  {
    (Spent(txs, months[0], c) + Spent(txs, months[1], c) + Spent(txs, months[2], c)) / 3.0
  }

  /** `avg` of one category from the three monthly maps. */
  function MapAverage(a1: seq<CatTotal>, a2: seq<CatTotal>, a3: seq<CatTotal>, c: string): real {
    (TotalFor(a1, c) + TotalFor(a2, c) + TotalFor(a3, c)) / 3.0
  }

  /** The entry `avg3` gets for category `c`: its average plus 10%, when
      the average is positive. */
  function CandidateFor(c: string, a1: seq<CatTotal>, a2: seq<CatTotal>, a3: seq<CatTotal>): (r: seq<Suggestion>)
    ensures |r| <= 1
    ensures |r| == 1 <==> MapAverage(a1, a2, a3, c) > 0.0
    ensures forall x {:trigger x in r} :: x in r ==>
      x.categoryId == c && x.avg == MapAverage(a1, a2, a3, c) && x.avg > 0.0 && x.suggested == x.avg * 1.1
  {
    var avg := MapAverage(a1, a2, a3, c);
    if avg > 0.0 then [Suggestion(c, avg, avg * 1.1)] else []
  }

  /** `avg3` as entries, before sorting: one per category with a positive
      average, in category order, with the average plus 10%. */
  function Candidates(ids: seq<string>, a1: seq<CatTotal>, a2: seq<CatTotal>, a3: seq<CatTotal>): (r: seq<Suggestion>)
    ensures |r| <= |ids|
  {
    if |ids| == 0 then []
    else Candidates(ids[..|ids| - 1], a1, a2, a3) + CandidateFor(ids[|ids| - 1], a1, a2, a3)
  }

  /** Every candidate is a category of the list with its positive average,
      and a suggested amount 10% above it. */
  lemma {:induction false} CandidateOf(ids: seq<string>, a1: seq<CatTotal>, a2: seq<CatTotal>, a3: seq<CatTotal>, x: Suggestion)
    requires x in Candidates(ids, a1, a2, a3)
    ensures x.categoryId in ids && x.avg == MapAverage(a1, a2, a3, x.categoryId)
    ensures x.avg > 0.0 && x.suggested == x.avg * 1.1
  {
    var init := ids[..|ids| - 1];
    var rest := Candidates(init, a1, a2, a3);
    if x in rest {
      CandidateOf(init, a1, a2, a3, x);
      var k :| 0 <= k < |init| && init[k] == x.categoryId;
      assert ids[k] == x.categoryId;
    } else {
      assert x in CandidateFor(ids[|ids| - 1], a1, a2, a3);
    }
  }

  lemma SuggestionIdsAppend(a: seq<Suggestion>, x: Suggestion)
    ensures SuggestionIds(a + [x]) == SuggestionIds(a) + [x.categoryId]
  {
    assert (a + [x])[..|a|] == a;
  }

  /** The ids of the candidates: those before the last category, then the
      last category when it has a positive average. */
  lemma CandidateIdsStep(ids: seq<string>, a1: seq<CatTotal>, a2: seq<CatTotal>, a3: seq<CatTotal>)
    requires |ids| > 0
    ensures SuggestionIds(Candidates(ids, a1, a2, a3))
      == SuggestionIds(Candidates(ids[..|ids| - 1], a1, a2, a3))
         + (if MapAverage(a1, a2, a3, ids[|ids| - 1]) > 0.0 then [ids[|ids| - 1]] else [])
  {
    var rest := Candidates(ids[..|ids| - 1], a1, a2, a3);
    var last := CandidateFor(ids[|ids| - 1], a1, a2, a3);
    if |last| == 1 {
      assert last == [last[0]];
      assert last[0] in last;
      SuggestionIdsAppend(rest, last[0]);
    } else {
      assert rest + last == rest;
    }
  }

  /** Every category of the list with a positive average is a candidate. */
  lemma {:induction false} CandidateComplete(ids: seq<string>, a1: seq<CatTotal>, a2: seq<CatTotal>, a3: seq<CatTotal>, c: string)
    requires c in ids && MapAverage(a1, a2, a3, c) > 0.0
    ensures c in SuggestionIds(Candidates(ids, a1, a2, a3))
  {
    var init := ids[..|ids| - 1];
    CandidateIdsStep(ids, a1, a2, a3);
    if c != ids[|ids| - 1] {
      InFront(ids, c);
      CandidateComplete(init, a1, a2, a3, c);
    }
  }

  /** One candidate per category: distinct categories give distinct
      suggestions. */
  lemma {:induction false} CandidatesNoDups(ids: seq<string>, a1: seq<CatTotal>, a2: seq<CatTotal>, a3: seq<CatTotal>)
    requires NoDups(ids)
    ensures NoDups(SuggestionIds(Candidates(ids, a1, a2, a3)))
  {
    if |ids| > 0 {
      var init := ids[..|ids| - 1];
      var c := ids[|ids| - 1];
      var rest := SuggestionIds(Candidates(init, a1, a2, a3));
      NoDupsInit(ids);
      CandidatesNoDups(init, a1, a2, a3);
      CandidateIdsStep(ids, a1, a2, a3);
      if MapAverage(a1, a2, a3, c) > 0.0 {
        if c in rest {
          CandidateIdIn(init, a1, a2, a3, c);
        }
        NoDupsAppend(rest, c);
      } else {
        assert rest + [] == rest;
      }
    }
  }

  /** Only categories of the list become candidates. */
  lemma CandidateIdIn(ids: seq<string>, a1: seq<CatTotal>, a2: seq<CatTotal>, a3: seq<CatTotal>, c: string)
    requires c in SuggestionIds(Candidates(ids, a1, a2, a3))
    ensures c in ids
  {
    var cands := Candidates(ids, a1, a2, a3);
    var k :| 0 <= k < |cands| && SuggestionIds(cands)[k] == c;
    CandidateOf(ids, a1, a2, a3, cands[k]);
  }

  /** `x` is the suggestion for a registered category whose average expense
      over the three months is positive: that average, plus 10%. */
  predicate Suggests(txs: seq<Transaction>, cats: seq<Category>, months: seq<string>, x: Suggestion)
    requires |months| == 3
  {
    x.categoryId in CategoryListIds(cats)
    && x.avg == ThreeMonthAverage(txs, months, x.categoryId)
    && x.avg > 0.0 && x.suggested == x.avg * 1.1
  }

  /** `suggestions` for the three given months: for the categories (in
      order of registration) whose average expense over the months is
      positive, that average plus 10%, largest first (ties in category
      order), at most five. */
  function SuggestionsFor(txs: seq<Transaction>, cats: seq<Category>, months: seq<string>): (r: seq<Suggestion>)
    requires |months| == 3
    ensures |r| <= 5
    ensures SortedDesc(r, SuggestedOf)
    ensures NoDups(SuggestionIds(r))
    ensures forall i :: 0 <= i < |r| ==> Suggests(txs, cats, months, r[i])
  {
    SuggestionsForFacts(txs, cats, months);
    Take(SortDesc(AllCandidates(txs, cats, months), SuggestedOf), 5)
  }

  /** The candidates for the registered categories over the three months. */
  function AllCandidates(txs: seq<Transaction>, cats: seq<Category>, months: seq<string>): seq<Suggestion>
    requires |months| == 3
  {
    Candidates(Dedup(CategoryListIds(cats)), SumCatMonth(txs, months[0]), SumCatMonth(txs, months[1]), SumCatMonth(txs, months[2]))
  }

  lemma SuggestionsForFacts(txs: seq<Transaction>, cats: seq<Category>, months: seq<string>)
    requires |months| == 3
    ensures var r := Take(SortDesc(AllCandidates(txs, cats, months), SuggestedOf), 5);
      NoDups(SuggestionIds(r))
      && forall i :: 0 <= i < |r| ==> Suggests(txs, cats, months, r[i])
  {
    var a1, a2, a3 := SumCatMonth(txs, months[0]), SumCatMonth(txs, months[1]), SumCatMonth(txs, months[2]);
    var ids := Dedup(CategoryListIds(cats));
    var cands := AllCandidates(txs, cats, months);
    var s := SortDesc(cands, SuggestedOf);
    var r := Take(s, 5);
    CandidatesNoDups(ids, a1, a2, a3);
    CandidatesDistinct(cands);
    PermutedSuggestionsDistinct(cands, s);
    PrefixSuggestionsDistinct(s, r);
    SuggestionsEntries(txs, cats, months, s, r);
  }

  /** Every kept suggestion is a candidate of the registered categories. */
  lemma SuggestionsEntries(txs: seq<Transaction>, cats: seq<Category>, months: seq<string>,
                           s: seq<Suggestion>, r: seq<Suggestion>)
    requires |months| == 3
    requires multiset(s) == multiset(AllCandidates(txs, cats, months)) && r <= s
    ensures forall i :: 0 <= i < |r| ==> Suggests(txs, cats, months, r[i])
  {
    var a1, a2, a3 := SumCatMonth(txs, months[0]), SumCatMonth(txs, months[1]), SumCatMonth(txs, months[2]);
    var ids := Dedup(CategoryListIds(cats));
    forall i | 0 <= i < |r|
      ensures Suggests(txs, cats, months, r[i])
    {
      assert r[i] == s[i] && s[i] in multiset(AllCandidates(txs, cats, months));
      CandidateOf(ids, a1, a2, a3, r[i]);
      AverageFromMaps(txs, months, r[i].categoryId);
    }
  }

  /** The suggestions of the view for month `mk`: those for the three
      months before it. */
  function MonthSuggestions(txs: seq<Transaction>, cats: seq<Category>, mk: string): (r: seq<Suggestion>)
    ensures |r| <= 5
    ensures SortedDesc(r, SuggestedOf)
    ensures NoDups(SuggestionIds(r))
    ensures forall i :: 0 <= i < |r| ==> Suggests(txs, cats, PreviousMonths(mk), r[i])
  {
    SuggestionsFor(txs, cats, PreviousMonths(mk))
  }

  /** The averages read off the monthly maps are the reference averages. */
  lemma AverageFromMaps(txs: seq<Transaction>, months: seq<string>, c: string)
    requires |months| == 3
    ensures MapAverage(SumCatMonth(txs, months[0]), SumCatMonth(txs, months[1]), SumCatMonth(txs, months[2]), c)
      == ThreeMonthAverage(txs, months, c)
  {
    TotalForIsSpent(txs, months[0], c);
    TotalForIsSpent(txs, months[1], c);
    TotalForIsSpent(txs, months[2], c);
  }

  lemma CandidatesDistinct(cands: seq<Suggestion>)
    requires NoDups(SuggestionIds(cands))
    ensures NoDups(cands)
  {
    forall i, j | 0 <= i < j < |cands| ensures cands[i] != cands[j] {
      assert SuggestionIds(cands)[i] != SuggestionIds(cands)[j];
    }
  }

  lemma PermutedSuggestionsDistinct(a: seq<Suggestion>, s: seq<Suggestion>)
    requires NoDups(SuggestionIds(a)) && NoDups(a) && multiset(s) == multiset(a)
    ensures NoDups(SuggestionIds(s))
  {
    NoDupsOfPermutation(a, s);
    forall i, j | 0 <= i < j < |s| ensures s[i].categoryId != s[j].categoryId {
      assert s[i] in multiset(a) && s[j] in multiset(a);
      var x :| 0 <= x < |a| && a[x] == s[i];
      var y :| 0 <= y < |a| && a[y] == s[j];
      if x != y {
        if x < y {
          assert SuggestionIds(a)[x] != SuggestionIds(a)[y];
        } else {
          assert SuggestionIds(a)[y] != SuggestionIds(a)[x];
        }
      }
    }
  }

  lemma PrefixSuggestionsDistinct(s: seq<Suggestion>, r: seq<Suggestion>)
    requires NoDups(SuggestionIds(s)) && r <= s
    ensures NoDups(SuggestionIds(r))
  {
    forall i, j | 0 <= i < j < |r| ensures r[i].categoryId != r[j].categoryId {
      assert SuggestionIds(s)[i] != SuggestionIds(s)[j];
    }
  }

  /** Completeness: a registered category with a positive average that is
      not suggested was cut off at five suggestions, none smaller than its
      own. */
  lemma SuggestionsKeepLargest(txs: seq<Transaction>, cats: seq<Category>, months: seq<string>, c: string)
    requires |months| == 3
    requires c in CategoryListIds(cats) && ThreeMonthAverage(txs, months, c) > 0.0
    requires c !in SuggestionIds(SuggestionsFor(txs, cats, months))
    ensures |SuggestionsFor(txs, cats, months)| == 5
    ensures forall i :: 0 <= i < 5 ==>
      ThreeMonthAverage(txs, months, c) * 1.1 <= SuggestionsFor(txs, cats, months)[i].suggested
  {
    var s := SortDesc(AllCandidates(txs, cats, months), SuggestedOf);
    var j := SuggestionPosition(txs, cats, months, c);
    if j < 5 {
      KeptSuggestionId(s, j);
      assert false;
    }
    FiveSuggestedAtLeast(s, j);
  }

  /** Where the candidate of a category with a positive average lands in
      the sort. */
  lemma SuggestionPosition(txs: seq<Transaction>, cats: seq<Category>, months: seq<string>, c: string) returns (j: nat)
    requires |months| == 3
    requires c in CategoryListIds(cats) && ThreeMonthAverage(txs, months, c) > 0.0
    ensures j < |SortDesc(AllCandidates(txs, cats, months), SuggestedOf)|
    ensures SortDesc(AllCandidates(txs, cats, months), SuggestedOf)[j].categoryId == c
    ensures SortDesc(AllCandidates(txs, cats, months), SuggestedOf)[j].suggested == ThreeMonthAverage(txs, months, c) * 1.1
  {
    var x := CandidateWith(txs, cats, months, c);
    j := PositionAfterSort(AllCandidates(txs, cats, months), SortDesc(AllCandidates(txs, cats, months), SuggestedOf), x);
  }

  lemma CandidateWith(txs: seq<Transaction>, cats: seq<Category>, months: seq<string>, c: string) returns (x: Suggestion)
    requires |months| == 3
    requires c in CategoryListIds(cats) && ThreeMonthAverage(txs, months, c) > 0.0
    ensures x in AllCandidates(txs, cats, months)
    ensures x.categoryId == c && x.suggested == ThreeMonthAverage(txs, months, c) * 1.1
  {
    var a1, a2, a3 := SumCatMonth(txs, months[0]), SumCatMonth(txs, months[1]), SumCatMonth(txs, months[2]);
    var ids := Dedup(CategoryListIds(cats));
    var cands := AllCandidates(txs, cats, months);
    AverageFromMaps(txs, months, c);
    CandidateComplete(ids, a1, a2, a3, c);
    var k :| 0 <= k < |cands| && SuggestionIds(cands)[k] == c;
    x := cands[k];
    CandidateOf(ids, a1, a2, a3, x);
  }

  lemma KeptSuggestionId(s: seq<Suggestion>, j: nat)
    requires j < 5 && j < |s|
    ensures s[j].categoryId in SuggestionIds(Take(s, 5))
  {
    assert SuggestionIds(Take(s, 5))[j] == s[j].categoryId;
  }

  lemma FiveSuggestedAtLeast(s: seq<Suggestion>, j: nat)
    requires SortedDesc(s, SuggestedOf) && 5 <= j < |s|
    ensures |Take(s, 5)| == 5
    ensures forall i :: 0 <= i < 5 ==> s[j].suggested <= Take(s, 5)[i].suggested
  {
    LeftOutOfFive(s, SuggestedOf, j);
  }

  /** Suggestions with equal amounts keep the order of their categories. */
  lemma SuggestionsTiesInCategoryOrder(txs: seq<Transaction>, cats: seq<Category>, months: seq<string>, v: real)
    requires |months| == 3
    ensures WithKey(SuggestionsFor(txs, cats, months), SuggestedOf, v)
      <= WithKey(AllCandidates(txs, cats, months), SuggestedOf, v)
  {
    var cands := AllCandidates(txs, cats, months);
    var s := SortDesc(cands, SuggestedOf);
    SortDescStable(cands, SuggestedOf, v);
    WithKeyOfPrefix(Take(s, 5), s, SuggestedOf, v);
  }
}
