/** The transaction cache of `State` (js/state.js): transactions and
    categories, the month and date-range listings, and the per-category
    totals that both the month analysis and the budget suggestions build
    with a `Map` keyed by category id. */
module Ledger {
  import opened Wrappers
  import opened Digits
  import opened Seqs
  import opened Utils

  /** `t.type`: only "income" and "expense" are ever compared against. */
  datatype Kind = Income | Expense | OtherKind

  /** A cached transaction; `date` is whatever the row holds (normally
      "YYYY-MM-DD"), `amount` the numeric amount. */
  datatype Transaction = Transaction(id: string, kind: Kind, date: Input, amount: real, categoryId: string)

  datatype Category = Category(id: string, name: string, icon: string)

  /** One entry of a `Map` from category id to accumulated amount. */
  datatype CatTotal = CatTotal(categoryId: string, total: real)

  // ---------------------------------------------------------------------
  // Listings
  // ---------------------------------------------------------------------

  predicate InMonth(t: Transaction, mk: string) {
    MonthKeyFromDate(t.date) == Some(mk)
  }

  /** `listTransactionsByMonth`: the transactions whose date starts with the
      month key, in cache order. */
  function ByMonth(txs: seq<Transaction>, mk: string): (r: seq<Transaction>)
    ensures forall t {:trigger t in r} :: t in r <==> t in txs && MonthKeyFromDate(t.date) == Some(mk)
  {
    Filter(txs, t => InMonth(t, mk))
  }

  /** The listing keeps cache order and multiplicity: one more cached
      transaction is appended to it exactly when it belongs to the month. */
  lemma ByMonthAppend(a: seq<Transaction>, t: Transaction, mk: string)
    ensures ByMonth(a + [t], mk) == if InMonth(t, mk) then ByMonth(a, mk) + [t] else ByMonth(a, mk)
  {
    FilterConcat(a, [t], (x: Transaction) => InMonth(x, mk));
    FilterSingleton(t, (x: Transaction) => InMonth(x, mk));
  }

  /** JavaScript's `<=` on two strings: lexicographic order of the characters. */
  predicate LexLe(a: string, b: string) {
    if |a| == 0 then true
    else if |b| == 0 then false
    else if a[0] != b[0] then a[0] < b[0]
    else LexLe(a[1..], b[1..])
  }

  predicate InRange(t: Transaction, start: string, end: string) {
    t.date.Text? && LexLe(start, t.date.s) && LexLe(t.date.s, end)
  }

  /** `listTransactionsInRange`: the transactions whose date lies between the
      two bounds, both inclusive; a missing date compares false. */
  function ByRange(txs: seq<Transaction>, start: string, end: string): (r: seq<Transaction>)
    ensures forall t {:trigger t in r} :: t in r <==> t in txs && t.date.Text? && LexLe(start, t.date.s) && LexLe(t.date.s, end)
  {
    Filter(txs, t => InRange(t, start, end))
  }

  /** The range listing keeps cache order and multiplicity: one more cached
      transaction is appended to it exactly when its date lies in the range. */
  lemma ByRangeAppend(a: seq<Transaction>, t: Transaction, start: string, end: string)
    ensures ByRange(a + [t], start, end) ==
      if InRange(t, start, end) then ByRange(a, start, end) + [t] else ByRange(a, start, end)
  {
    FilterConcat(a, [t], (x: Transaction) => InRange(x, start, end));
    FilterSingleton(t, (x: Transaction) => InRange(x, start, end));
  }

  function OfKind(txs: seq<Transaction>, k: Kind): (r: seq<Transaction>)
    ensures forall t {:trigger t in r} :: t in r <==> t in txs && t.kind == k
  {
    Filter(txs, (t: Transaction) => t.kind == k)
  }

  function InCategory(txs: seq<Transaction>, c: string): (r: seq<Transaction>)
    ensures forall t {:trigger t in r} :: t in r <==> t in txs && t.categoryId == c
  {
    Filter(txs, (t: Transaction) => t.categoryId == c)
  }

  /** `txs.reduce((a, b) => a + b.amount, 0)`. */
  function Sum(txs: seq<Transaction>): real {
    if |txs| == 0 then 0.0 else Sum(txs[..|txs| - 1]) + txs[|txs| - 1].amount
  }

  lemma {:induction false} SumConcat(a: seq<Transaction>, b: seq<Transaction>)
    ensures Sum(a + b) == Sum(a) + Sum(b)
  {
    if |b| == 0 {
      assert a + b == a;
    } else {
      assert (a + b)[..|a + b| - 1] == a + b[..|b| - 1];
      assert (a + b)[|a + b| - 1] == b[|b| - 1];
      SumConcat(a, b[..|b| - 1]);
    }
  }

  // ---------------------------------------------------------------------
  // Month key against date range
  // ---------------------------------------------------------------------

  lemma {:induction false} LexLeCommonPrefix(p: string, x: string, y: string)
    ensures LexLe(p + x, p + y) == LexLe(x, y)
  {
    if |p| == 0 {
      assert p + x == x && p + y == y;
    } else {
      assert (p + x)[0] == p[0] && (p + y)[0] == p[0];
      assert (p + x)[1..] == p[1..] + x;
      assert (p + y)[1..] == p[1..] + y;
      LexLeCommonPrefix(p[1..], x, y);
    }
  }

  /** Two strings that differ within their first `|p|` characters are
      ordered by those characters alone. */
  lemma {:induction false} LexLeFirstDifference(p: string, q: string, x: string, y: string)
    requires |p| == |q| && p != q
    ensures LexLe(p + x, q + y) == LexLe(p, q)
  {
    if p[0] == q[0] {
      assert p[1..] != q[1..] by {
        assert p == [p[0]] + p[1..] && q == [q[0]] + q[1..];
      }
      assert (p + x)[1..] == p[1..] + x;
      assert (q + y)[1..] == q[1..] + y;
      LexLeFirstDifference(p[1..], q[1..], x, y);
    }
  }

  /** Equal-length strings ordered both ways are equal. */
  lemma {:induction false} LexLeAntisymmetric(p: string, q: string)
    requires |p| == |q| && LexLe(p, q) && LexLe(q, p)
    ensures p == q
  {
    if |p| > 0 {
      LexLeAntisymmetric(p[1..], q[1..]);
      assert p == [p[0]] + p[1..] && q == [q[0]] + q[1..];
    }
  }

  /** A "YYYY-MM-DD" date whose day is 01..31. */
  predicate IsoDate(s: string) {
    |s| == 10 && s[7] == '-' && IsDigit(s[8]) && IsDigit(s[9])
    && 1 <= DigitValue(s[8]) * 10 + DigitValue(s[9]) <= 31
  }

  /** A valid two-digit day lies between "01" and "31" as strings. */
  lemma DayBetween(d: string)
    requires |d| == 2 && IsDigit(d[0]) && IsDigit(d[1])
    requires 1 <= DigitValue(d[0]) * 10 + DigitValue(d[1]) <= 31
    ensures LexLe("01", d) && LexLe(d, "31")
  {
    assert d[1..][1..] == [];
    assert "01"[1..] == "1" && "31"[1..] == "1";
    assert "1"[1..] == [];
  }

  /** A date inside the month lies in the range from its day 01 to its day 31. */
  lemma InMonthInRange(d: string, mk: string)
    requires IsoDate(d) && |mk| == 7 && d[..7] == mk
    ensures LexLe(mk + "-01", d) && LexLe(d, mk + "-31")
  {
    var tail := d[7..];
    assert d == mk + tail;
    assert tail == "-" + tail[1..];
    DayBetween(tail[1..]);
    LexLeCommonPrefix(mk, "-01", tail);
    LexLeCommonPrefix(mk, tail, "-31");
    LexLeCommonPrefix("-", "01", tail[1..]);
    LexLeCommonPrefix("-", tail[1..], "31");
    assert "-01" == "-" + "01" && "-31" == "-" + "31";
  }

  /** A date of another month lies outside that range. */
  lemma OtherMonthOutOfRange(d: string, mk: string)
    requires |d| == 10 && |mk| == 7 && d[..7] != mk
    ensures !(LexLe(mk + "-01", d) && LexLe(d, mk + "-31"))
  {
    var q := d[..7];
    assert d == q + d[7..];
    LexLeFirstDifference(mk, q, "-01", d[7..]);
    LexLeFirstDifference(q, mk, d[7..], "-31");
    if LexLe(mk, q) && LexLe(q, mk) {
      LexLeAntisymmetric(mk, q);
    }
  }

  /** For a well-formed date, belonging to month `mk` and lying between
      `mk-01` and `mk-31` (inclusive) are the same thing. */
  lemma InMonthIffInRange(t: Transaction, mk: string)
    requires t.date.Text? && IsoDate(t.date.s) && |mk| == 7
    ensures InMonth(t, mk) <==> InRange(t, mk + "-01", mk + "-31")
  {
    var d := t.date.s;
    assert MonthKeyFromDate(t.date) == Some(d[..7]);
    if d[..7] == mk {
      InMonthInRange(d, mk);
    } else {
      OtherMonthOutOfRange(d, mk);
    }
  }

  /** When every cached date is well formed, the month listing and the range
      listing from day 01 to day 31 of that month return the same
      transactions in the same order. */
  lemma MonthIsRange(txs: seq<Transaction>, mk: string)
    requires |mk| == 7
    requires forall i :: 0 <= i < |txs| ==> txs[i].date.Text? && IsoDate(txs[i].date.s)
    ensures ByMonth(txs, mk) == ByRange(txs, mk + "-01", mk + "-31")
  {
    forall i | 0 <= i < |txs|
      ensures InMonth(txs[i], mk) == InRange(txs[i], mk + "-01", mk + "-31")
    {
      InMonthIffInRange(txs[i], mk);
    }
    FilterAgree(txs, t => InMonth(t, mk), t => InRange(t, mk + "-01", mk + "-31"));
  }

  // ---------------------------------------------------------------------
  // Per-category totals
  // ---------------------------------------------------------------------

  /** The category ids of the transactions, in order. */
  function CategoryIds(txs: seq<Transaction>): (r: seq<string>)
    ensures |r| == |txs|
    ensures forall i :: 0 <= i < |txs| ==> r[i] == txs[i].categoryId
  {
    if |txs| == 0 then [] else CategoryIds(txs[..|txs| - 1]) + [txs[|txs| - 1].categoryId]
  }

  function Keys(m: seq<CatTotal>): (r: seq<string>)
    ensures |r| == |m|
    ensures forall i :: 0 <= i < |m| ==> r[i] == m[i].categoryId
  {
    if |m| == 0 then [] else Keys(m[..|m| - 1]) + [m[|m| - 1].categoryId]
  }

  /** The sum of the totals of a category map. */
  function SumTotals(m: seq<CatTotal>): real {
    if |m| == 0 then 0.0 else SumTotals(m[..|m| - 1]) + m[|m| - 1].total
  }

  /** `map.set(c, (map.get(c) || 0) + v)` on a map kept in insertion order. */
  function AddTo(m: seq<CatTotal>, c: string, v: real): (r: seq<CatTotal>)
    requires NoDups(Keys(m))
    ensures NoDups(Keys(r))
    ensures |r| == if c in Keys(m) then |m| else |m| + 1
    ensures Keys(r) == if c in Keys(m) then Keys(m) else Keys(m) + [c]
    ensures forall i :: 0 <= i < |m| ==> r[i].total == m[i].total + (if m[i].categoryId == c then v else 0.0)
    ensures c !in Keys(m) ==> r[|m|].total == v
  {
    var i := FirstKeyIndex(m, c);
    if i == |m| then
      KeysAppend(m, CatTotal(c, v));
      NoDupsAppend(Keys(m), c);
      m + [CatTotal(c, v)]
    else
      KeysAddAt(m, i, v);
      AddAtTotals(m, i, v);
      AddAt(m, i, v)
  }

  /** The map with `v` added to the total of its entry at `i`. */
  function AddAt(m: seq<CatTotal>, i: nat, v: real): seq<CatTotal>
    requires i < |m|
  {
    m[i := CatTotal(m[i].categoryId, m[i].total + v)]
  }

  lemma KeysAppend(m: seq<CatTotal>, e: CatTotal)
    ensures Keys(m + [e]) == Keys(m) + [e.categoryId]
  {
    assert (m + [e])[..|m|] == m;
  }

  lemma KeysAddAt(m: seq<CatTotal>, i: nat, v: real)
    requires i < |m|
    ensures Keys(AddAt(m, i, v)) == Keys(m)
  {
    KeysAgree(AddAt(m, i, v), m);
  }

  /** Maps with the same key at every position have the same keys. */
  lemma KeysAgree(a: seq<CatTotal>, b: seq<CatTotal>)
    requires |a| == |b| && forall k :: 0 <= k < |a| ==> a[k].categoryId == b[k].categoryId
    ensures Keys(a) == Keys(b)
  {
    assert forall k :: 0 <= k < |a| ==> Keys(a)[k] == Keys(b)[k];
  }

  lemma AddAtTotals(m: seq<CatTotal>, i: nat, v: real)
    requires i < |m| && NoDups(Keys(m))
    ensures forall j :: 0 <= j < |m| ==>
      AddAt(m, i, v)[j].total == m[j].total + (if m[j].categoryId == m[i].categoryId then v else 0.0)
  {
    forall j | 0 <= j < |m| {
      AddAtTotal(m, i, v, j);
    }
  }

  /** Keys being distinct, only the entry at `i` carries its key. */
  lemma AddAtTotal(m: seq<CatTotal>, i: nat, v: real, j: nat)
    requires i < |m| && j < |m| && NoDups(Keys(m))
    ensures AddAt(m, i, v)[j].total == m[j].total + (if m[j].categoryId == m[i].categoryId then v else 0.0)
  {
    if j != i {
      var k := Keys(m);
      assert k[j] == m[j].categoryId && k[i] == m[i].categoryId;
      assert k[j] != k[i];
    }
  }

  /** Adding to a map without duplicate keys adds to the sum of its totals. */
  lemma AddToSum(m: seq<CatTotal>, c: string, v: real)
    requires NoDups(Keys(m))
    ensures SumTotals(AddTo(m, c, v)) == SumTotals(m) + v
  {
    var i := FirstKeyIndex(m, c);
    if i < |m| {
      SumTotalsAddAt(m, i, v);
    } else {
      SumTotalsAppend(m, CatTotal(c, v));
    }
  }

  function FirstKeyIndex(m: seq<CatTotal>, c: string): (i: nat)
    ensures i <= |m|
    ensures i == |m| <==> c !in Keys(m)
    ensures i < |m| ==> m[i].categoryId == c
    ensures forall j :: 0 <= j < i ==> m[j].categoryId != c
  {
    if |m| == 0 then 0
    else if m[0].categoryId == c then 0
    else
      var i := 1 + FirstKeyIndex(m[1..], c);
      FirstKeyAfterHead(m, c, i);
      i
  }

  lemma FirstKeyAfterHead(m: seq<CatTotal>, c: string, i: nat)
    requires 0 < i <= |m| && m[0].categoryId != c
    requires i < |m| ==> m[i].categoryId == c
    requires forall j :: 0 <= j < i - 1 ==> m[1..][j].categoryId != c
    ensures i == |m| <==> c !in Keys(m)
    ensures forall j :: 0 <= j < i ==> m[j].categoryId != c
  {
    forall j | 0 < j < i ensures m[j].categoryId != c {
      assert m[j] == m[1..][j - 1];
    }
    if i < |m| {
      assert Keys(m)[i] == c;
    } else {
      forall j | 0 <= j < |m| ensures Keys(m)[j] != c {}
    }
  }

  lemma SumTotalsAppend(m: seq<CatTotal>, e: CatTotal)
    ensures SumTotals(m + [e]) == SumTotals(m) + e.total
  {
    assert (m + [e])[..|m|] == m;
  }

  /** Adding to one total adds as much to the sum of totals. */
  lemma {:induction false} SumTotalsAddAt(m: seq<CatTotal>, i: nat, v: real)
    requires i < |m|
    ensures SumTotals(AddAt(m, i, v)) == SumTotals(m) + v
  {
    var r := AddAt(m, i, v);
    if i < |m| - 1 {
      assert r[..|r| - 1] == AddAt(m[..|m| - 1], i, v);
      SumTotalsAddAt(m[..|m| - 1], i, v);
    } else {
      assert r[..|r| - 1] == m[..|m| - 1];
    }
  }

  /** The `byCat` map of `analyzeMonth` and `sumCatMonth`: one entry per
      category id, in order of first occurrence, holding the sum of the
      amounts of that category's transactions. */
  function CategoryTotals(txs: seq<Transaction>): (r: seq<CatTotal>)
    ensures Keys(r) == Dedup(CategoryIds(txs))
    ensures forall i :: 0 <= i < |r| ==> r[i].total == Sum(InCategory(txs, r[i].categoryId))
    ensures SumTotals(r) == Sum(txs)
  {
    if |txs| == 0 then []
    else
      var init := txs[..|txs| - 1];
      var t := txs[|txs| - 1];
      var m := CategoryTotals(init);
      TotalsKeys(txs, m);
      AddToSum(m, t.categoryId, t.amount);
      TotalsStep(txs, m);
      AddTo(m, t.categoryId, t.amount)
  }

  /** The keys after one more transaction: its category joins at the end
      when it is new. */
  lemma TotalsKeys(txs: seq<Transaction>, m: seq<CatTotal>)
    requires |txs| > 0 && Keys(m) == Dedup(CategoryIds(txs[..|txs| - 1]))
    ensures NoDups(Keys(m))
    ensures Keys(AddTo(m, txs[|txs| - 1].categoryId, txs[|txs| - 1].amount)) == Dedup(CategoryIds(txs))
  {
    assert CategoryIds(txs)[..|txs| - 1] == CategoryIds(txs[..|txs| - 1]);
  }

  /** Each total after one more transaction is its category's sum. */
  lemma TotalsStep(txs: seq<Transaction>, m: seq<CatTotal>)
    requires |txs| > 0 && Keys(m) == Dedup(CategoryIds(txs[..|txs| - 1]))
    requires forall i :: 0 <= i < |m| ==> m[i].total == Sum(InCategory(txs[..|txs| - 1], m[i].categoryId))
    ensures NoDups(Keys(m))
    ensures var r := AddTo(m, txs[|txs| - 1].categoryId, txs[|txs| - 1].amount);
      forall i :: 0 <= i < |r| ==> r[i].total == Sum(InCategory(txs, r[i].categoryId))
  {
    var init := txs[..|txs| - 1];
    var t := txs[|txs| - 1];
    var r := AddTo(m, t.categoryId, t.amount);
    TotalsKeys(txs, m);
    forall i | 0 <= i < |r|
      ensures r[i].total == Sum(InCategory(txs, r[i].categoryId))
    {
      InCategoryLast(txs, r[i].categoryId);
      if i == |m| {
        assert Keys(r)[i] == t.categoryId;
        NoneInCategory(init, t.categoryId);
      } else {
        assert Keys(r)[i] == Keys(m)[i];
      }
    }
  }

  /** Adding one transaction extends its own category's listing only. */
  lemma InCategoryLast(txs: seq<Transaction>, c: string)
    requires |txs| > 0
    ensures Sum(InCategory(txs, c)) ==
      Sum(InCategory(txs[..|txs| - 1], c)) + (if txs[|txs| - 1].categoryId == c then txs[|txs| - 1].amount else 0.0)
  {
  }

  /** A category that no transaction carries has total zero. */
  lemma NoneInCategory(txs: seq<Transaction>, c: string)
    requires c !in CategoryIds(txs)
    ensures Sum(InCategory(txs, c)) == 0.0
  {
    forall i | 0 <= i < |txs| ensures txs[i].categoryId != c {
      assert CategoryIds(txs)[i] == txs[i].categoryId;
    }
    FilterNone(txs, (t: Transaction) => t.categoryId == c);
  }

  /** `new Map(categories.map((c) => [c.id, c])).get(id)`: the last category
      with that id, since a later entry overwrites an earlier one. */
  function LookupCategory(cats: seq<Category>, id: string): (r: Option<Category>)
    ensures r.None? <==> forall i :: 0 <= i < |cats| ==> cats[i].id != id
    ensures r.Some? ==> r.value in cats && r.value.id == id
  {
    if |cats| == 0 then None
    else if cats[|cats| - 1].id == id then Some(cats[|cats| - 1])
    else
      var r := LookupCategory(cats[..|cats| - 1], id);
      assert r.Some? ==> r.value in cats by {
        if r.Some? { assert r.value in cats[..|cats| - 1]; }
      }
      r
  }

  /** The lookup returns the last category carrying the id. */
  lemma {:induction false} LookupCategoryLast(cats: seq<Category>, id: string, i: nat)
    requires i < |cats| && cats[i].id == id
    requires forall j :: i < j < |cats| ==> cats[j].id != id
    ensures LookupCategory(cats, id) == Some(cats[i])
  {
    if i < |cats| - 1 {
      LookupCategoryLast(cats[..|cats| - 1], id, i);
    }
  }
}
