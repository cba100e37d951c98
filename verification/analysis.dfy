/** `State.analyzeMonth` (js/state.js): the income, expense, balance and
    saving rate of a month, its five largest expense categories and the
    three simple alerts. */
module Analysis {
  import opened Wrappers
  import opened Seqs
  import opened Ledger

  /** One entry of `topCats`: the category id, its expense total and the
      category record the id resolves to, if any. */
  datatype TopCat = TopCat(categoryId: string, total: real, category: Option<Category>)

  /** The three alert messages, in the order `analyzeMonth` pushes them. */
  datatype Alert = Overspent | LowSaving | HighExpenseRatio

  datatype MonthAnalysis = MonthAnalysis(
    monthKey: string,
    income: real,
    expense: real,
    balance: real,
    savingRate: real,
    topCats: seq<TopCat>,
    alerts: seq<Alert>)

  function TotalOf(c: TopCat): real {
    c.total
  }

  function TopIds(r: seq<TopCat>): (ids: seq<string>)
    ensures |ids| == |r|
    ensures forall i :: 0 <= i < |r| ==> ids[i] == r[i].categoryId
  {
    seq(|r|, i requires 0 <= i < |r| => r[i].categoryId)
  }

  // ---------------------------------------------------------------------
  // Totals
  // ---------------------------------------------------------------------

  /** The expense transactions of the month, in cache order. */
  function MonthExpenses(txs: seq<Transaction>, mk: string): seq<Transaction> {
    OfKind(ByMonth(txs, mk), Expense)
  }

  /** Reference total: one pass over the whole cache adding the amounts of
      the transactions of kind `k` dated in month `mk`. */
  function KindTotal(txs: seq<Transaction>, mk: string, k: Kind): real {
    if |txs| == 0 then 0.0
    else
      var t := txs[|txs| - 1];
      KindTotal(txs[..|txs| - 1], mk, k) + (if InMonth(t, mk) && t.kind == k then t.amount else 0.0)
  }

  lemma SumAppend(a: seq<Transaction>, t: Transaction)
    ensures Sum(a + [t]) == Sum(a) + t.amount
  {
    assert (a + [t])[..|a|] == a;
  }

  lemma OfKindAppend(a: seq<Transaction>, t: Transaction, k: Kind)
    ensures OfKind(a + [t], k) == if t.kind == k then OfKind(a, k) + [t] else OfKind(a, k)
  {
    FilterConcat(a, [t], (x: Transaction) => x.kind == k);
    FilterSingleton(t, (x: Transaction) => x.kind == k);
  }

  /** One more transaction adds its amount to the listed total of its own
      month and kind only. */
  lemma ListedTotalAppend(a: seq<Transaction>, t: Transaction, mk: string, k: Kind)
    ensures Sum(OfKind(ByMonth(a + [t], mk), k)) ==
      Sum(OfKind(ByMonth(a, mk), k)) + (if InMonth(t, mk) && t.kind == k then t.amount else 0.0)
  {
    ByMonthAppend(a, t, mk);
    if InMonth(t, mk) {
      OfKindAppend(ByMonth(a, mk), t, k);
      if t.kind == k {
        SumAppend(OfKind(ByMonth(a, mk), k), t);
      }
    }
  }

  /** Listing the month, keeping one kind and adding up (as `analyzeMonth`
      does) gives the one-pass total. */
  lemma {:induction false} ListedTotal(txs: seq<Transaction>, mk: string, k: Kind)
    ensures Sum(OfKind(ByMonth(txs, mk), k)) == KindTotal(txs, mk, k)
  {
    if |txs| > 0 {
      var init := txs[..|txs| - 1];
      var t := txs[|txs| - 1];
      assert txs == init + [t];
      ListedTotal(init, mk, k);
      ListedTotalAppend(init, t, mk, k);
    }
  }

  /** `savingRate`: the balance as a fraction of a positive income, else 0. */
  function SavingRate(income: real, balance: real): (r: real)
    ensures income > 0.0 ==> r * income == balance
    ensures income <= 0.0 ==> r == 0.0
  {
    if income > 0.0 then balance / income else 0.0
  }

  // ---------------------------------------------------------------------
  // Alerts
  // ---------------------------------------------------------------------

  function Rank(a: Alert): nat {
    match a
    case Overspent => 0
    case LowSaving => 1
    case HighExpenseRatio => 2
  }

  /** For a positive divisor, comparing a quotient with 0.8 is comparing the
      dividend with 80% of the divisor. */
  lemma RatioAbove(expense: real, income: real)
    requires income > 0.0
    ensures expense / income > 0.8 <==> expense > 0.8 * income
  {
    var q := expense / income;
    assert q * income == expense;
    if q > 0.8 {
      assert q * income > 0.8 * income;
    } else {
      assert q * income <= 0.8 * income;
    }
  }

  /** The alert list, each alert present exactly when its condition holds,
      in push order. */
  function Alerts(income: real, expense: real, savingRate: real): (r: seq<Alert>)
    ensures Overspent in r <==> income > 0.0 && expense > income
    ensures LowSaving in r <==> income > 0.0 && savingRate < 0.1
    ensures HighExpenseRatio in r <==> income > 0.0 && expense > 0.8 * income
    ensures forall i, j :: 0 <= i < j < |r| ==> Rank(r[i]) < Rank(r[j])
  {
    assert income > 0.0 ==> (expense / income > 0.8 <==> expense > 0.8 * income) by {
      if income > 0.0 {
        RatioAbove(expense, income);
      }
    }
    (if income > 0.0 && expense > income then [Overspent] else [])
    + (if income > 0.0 && savingRate < 0.1 then [LowSaving] else [])
    + (if income > 0.0 && expense / income > 0.8 then [HighExpenseRatio] else [])
  }

  // ---------------------------------------------------------------------
  // Top categories
  // ---------------------------------------------------------------------

  /** `[...byCat.entries()].map(([catId, total]) => ({ catId, total, cat }))`. */
  function ToTopCats(m: seq<CatTotal>, cats: seq<Category>): (r: seq<TopCat>)
    ensures |r| == |m|
    ensures forall i :: 0 <= i < |m| ==> r[i] == TopCat(m[i].categoryId, m[i].total, LookupCategory(cats, m[i].categoryId))
  {
    seq(|m|, i requires 0 <= i < |m| => TopCat(m[i].categoryId, m[i].total, LookupCategory(cats, m[i].categoryId)))
  }

  /** Distinct category ids make distinct entries. */
  lemma ToTopCatsNoDups(m: seq<CatTotal>, cats: seq<Category>)
    requires NoDups(Keys(m))
    ensures NoDups(ToTopCats(m, cats))
    ensures NoDups(TopIds(ToTopCats(m, cats)))
  {
    var tc := ToTopCats(m, cats);
    forall i, j | 0 <= i < j < |tc| ensures tc[i] != tc[j] && tc[i].categoryId != tc[j].categoryId {
      assert Keys(m)[i] != Keys(m)[j];
    }
  }

  /** Entries of a permutation of `tc`, whose ids are distinct, have distinct ids. */
  lemma PermutedIdsDistinct(tc: seq<TopCat>, s: seq<TopCat>)
    requires NoDups(TopIds(tc)) && NoDups(tc) && multiset(s) == multiset(tc)
    ensures NoDups(TopIds(s))
  {
    NoDupsOfPermutation(tc, s);
    forall i, j | 0 <= i < j < |s| ensures s[i].categoryId != s[j].categoryId {
      assert s[i] in multiset(tc) && s[j] in multiset(tc);
      var a :| 0 <= a < |tc| && tc[a] == s[i];
      var b :| 0 <= b < |tc| && tc[b] == s[j];
      if a != b {
        if a < b { assert TopIds(tc)[a] != TopIds(tc)[b]; } else { assert TopIds(tc)[b] != TopIds(tc)[a]; }
      }
    }
  }

  /** A prefix of a sequence with distinct ids has distinct ids. */
  lemma PrefixIdsDistinct(s: seq<TopCat>, r: seq<TopCat>)
    requires NoDups(TopIds(s)) && r <= s
    ensures NoDups(TopIds(r))
  {
    forall i, j | 0 <= i < j < |r| ensures r[i].categoryId != r[j].categoryId {
      assert TopIds(s)[i] != TopIds(s)[j];
    }
  }

  /** Every entry built from the category totals carries a category of the
      expenses, that category's total and the category it resolves to. */
  lemma EntryOfTotals(expenses: seq<Transaction>, cats: seq<Category>, x: TopCat)
    requires x in ToTopCats(CategoryTotals(expenses), cats)
    ensures x.categoryId in CategoryIds(expenses)
    ensures x.total == Sum(InCategory(expenses, x.categoryId))
    ensures x.category == LookupCategory(cats, x.categoryId)
  {
    var m := CategoryTotals(expenses);
    var tc := ToTopCats(m, cats);
    var k :| 0 <= k < |tc| && tc[k] == x;
    assert Keys(m)[k] in Dedup(CategoryIds(expenses));
  }

  /** `topCats`: the per-category totals, sorted by decreasing total (ties
      in order of first occurrence) and cut to five. */
  function TopCats(expenses: seq<Transaction>, cats: seq<Category>): (r: seq<TopCat>)
    ensures |r| <= 5
    ensures SortedDesc(r, TotalOf)
    ensures NoDups(TopIds(r))
    ensures forall i :: 0 <= i < |r| ==> TopEntry(expenses, cats, r[i])
  {
    TopCatsFacts(expenses, cats);
    Take(SortDesc(AllTopCats(expenses, cats), TotalOf), 5)
  }

  /** `x` is the entry of a category with expenses: its total and its
      registered category. */
  predicate TopEntry(expenses: seq<Transaction>, cats: seq<Category>, x: TopCat) {
    x.categoryId in CategoryIds(expenses)
    && x.total == Sum(InCategory(expenses, x.categoryId))
    && x.category == LookupCategory(cats, x.categoryId)
  }

  /** One entry per category with expenses, in order of first expense. */
  function AllTopCats(expenses: seq<Transaction>, cats: seq<Category>): seq<TopCat> {
    ToTopCats(CategoryTotals(expenses), cats)
  }

  lemma TopCatsFacts(expenses: seq<Transaction>, cats: seq<Category>)
    ensures var r := Take(SortDesc(AllTopCats(expenses, cats), TotalOf), 5);
      NoDups(TopIds(r)) && forall i :: 0 <= i < |r| ==> TopEntry(expenses, cats, r[i])
  {
    var tc := AllTopCats(expenses, cats);
    var s := SortDesc(tc, TotalOf);
    var r := Take(s, 5);
    ToTopCatsNoDups(CategoryTotals(expenses), cats);
    PermutedIdsDistinct(tc, s);
    PrefixIdsDistinct(s, r);
    TopCatsEntries(expenses, cats, s, r);
  }

  /** Every kept entry is one built from the category totals. */
  lemma TopCatsEntries(expenses: seq<Transaction>, cats: seq<Category>, s: seq<TopCat>, r: seq<TopCat>)
    requires multiset(s) == multiset(AllTopCats(expenses, cats)) && r <= s
    ensures forall i :: 0 <= i < |r| ==> TopEntry(expenses, cats, r[i])
  {
    forall i | 0 <= i < |r|
      ensures TopEntry(expenses, cats, r[i])
    {
      assert r[i] == s[i] && s[i] in multiset(AllTopCats(expenses, cats));
      EntryOfTotals(expenses, cats, r[i]);
    }
  }

  /** Completeness of `topCats`: a category with expenses that is missing
      from the list was cut off at five entries, and spent no more than any
      category that was kept. */
  lemma TopCatsKeepLargest(expenses: seq<Transaction>, cats: seq<Category>, c: string)
    requires c in CategoryIds(expenses) && c !in TopIds(TopCats(expenses, cats))
    ensures |TopCats(expenses, cats)| == 5
    ensures forall i :: 0 <= i < 5 ==> Sum(InCategory(expenses, c)) <= TopCats(expenses, cats)[i].total
  {
    var s := SortDesc(AllTopCats(expenses, cats), TotalOf);
    var j := TopCatPosition(expenses, cats, c);
    if j < 5 {
      KeptTopId(s, j);
      assert false;
    }
    FiveTotalsAtLeast(s, j);
  }

  /** Where the entry of a category with expenses lands in the sort. */
  lemma TopCatPosition(expenses: seq<Transaction>, cats: seq<Category>, c: string) returns (j: nat)
    requires c in CategoryIds(expenses)
    ensures j < |SortDesc(AllTopCats(expenses, cats), TotalOf)|
    ensures SortDesc(AllTopCats(expenses, cats), TotalOf)[j].categoryId == c
    ensures SortDesc(AllTopCats(expenses, cats), TotalOf)[j].total == Sum(InCategory(expenses, c))
  {
    var m := CategoryTotals(expenses);
    var tc := AllTopCats(expenses, cats);
    var s := SortDesc(tc, TotalOf);
    assert c in Keys(m);
    var k :| 0 <= k < |m| && Keys(m)[k] == c;
    assert tc[k] in multiset(s);
    EntryOfTotals(expenses, cats, tc[k]);
    j :| 0 <= j < |s| && s[j] == tc[k];
  }

  lemma KeptTopId(s: seq<TopCat>, j: nat)
    requires j < 5 && j < |s|
    ensures s[j].categoryId in TopIds(Take(s, 5))
  {
    assert TopIds(Take(s, 5))[j] == s[j].categoryId;
  }

  lemma FiveTotalsAtLeast(s: seq<TopCat>, j: nat)
    requires SortedDesc(s, TotalOf) && 5 <= j < |s|
    ensures |Take(s, 5)| == 5
    ensures forall i :: 0 <= i < 5 ==> s[j].total <= Take(s, 5)[i].total
  {
    LeftOutOfFive(s, TotalOf, j);
  }

  /** Entries with equal totals keep the order of the categories' first
      expense: the sort is stable. */
  lemma TopCatsTiesInFirstOccurrenceOrder(expenses: seq<Transaction>, cats: seq<Category>, v: real)
    ensures WithKey(TopCats(expenses, cats), TotalOf, v)
      <= WithKey(AllTopCats(expenses, cats), TotalOf, v)
  {
    var tc := AllTopCats(expenses, cats);
    var s := SortDesc(tc, TotalOf);
    SortDescStable(tc, TotalOf, v);
    WithKeyOfPrefix(Take(s, 5), s, TotalOf, v);
  }

  /** The alerts of a month with the given income and expense, stated
      without division. */
  function MonthAlerts(income: real, expense: real): (r: seq<Alert>)
    ensures Overspent in r <==> income > 0.0 && expense > income
    ensures LowSaving in r <==> income > 0.0 && income - expense < 0.1 * income
    ensures HighExpenseRatio in r <==> income > 0.0 && expense > 0.8 * income
    ensures forall i, j :: 0 <= i < j < |r| ==> Rank(r[i]) < Rank(r[j])
  {
    var rate := SavingRate(income, income - expense);
    assert income > 0.0 ==> (rate < 0.1 <==> income - expense < 0.1 * income) by {
      if income > 0.0 {
        LowRate(rate, income, income - expense);
      }
    }
    Alerts(income, expense, rate)
  }

  lemma LowRate(rate: real, income: real, balance: real)
    requires income > 0.0 && rate * income == balance
    ensures rate < 0.1 <==> balance < 0.1 * income
  {
    if rate < 0.1 {
      assert rate * income < 0.1 * income;
    } else {
      assert rate * income >= 0.1 * income;
    }
  }

  /** The four alert lists the nesting allows. */
  predicate Nested(r: seq<Alert>) {
    r == [] || r == [HighExpenseRatio] || r == [LowSaving, HighExpenseRatio]
    || r == [Overspent, LowSaving, HighExpenseRatio]
  }

  /** The alerts are nested: overspending implies a low saving rate, which
      implies a high expense ratio, so the list is one of four. */
  lemma MonthAlertsNested(income: real, expense: real)
    ensures Nested(MonthAlerts(income, expense))
  {
    var rate := SavingRate(income, income - expense);
    if income > 0.0 {
      LowRate(rate, income, income - expense);
      RatioAbove(expense, income);
    }
    AlertsOfFlags(income, expense, rate);
  }

  /** The alert list when each condition implies the next. */
  lemma AlertsOfFlags(income: real, expense: real, rate: real)
    requires income > 0.0 ==> (expense > income ==> rate < 0.1)
    requires income > 0.0 && rate < 0.1 ==> expense / income > 0.8
    ensures Nested(Alerts(income, expense, rate))
  {
    if income <= 0.0 {
      assert Alerts(income, expense, rate) == [];
    } else if expense > income {
      assert Alerts(income, expense, rate) == [Overspent, LowSaving, HighExpenseRatio];
    } else if rate < 0.1 {
      assert Alerts(income, expense, rate) == [LowSaving, HighExpenseRatio];
    } else if expense / income > 0.8 {
      assert Alerts(income, expense, rate) == [HighExpenseRatio];
    } else {
      assert Alerts(income, expense, rate) == [];
    }
  }

  // ---------------------------------------------------------------------
  // The analysis
  // ---------------------------------------------------------------------

  /** `analyzeMonth(monthKey)`. */
  function AnalyzeMonth(txs: seq<Transaction>, cats: seq<Category>, mk: string): (a: MonthAnalysis)
    ensures a.monthKey == mk
    ensures a.income == KindTotal(txs, mk, Income)
    ensures a.expense == KindTotal(txs, mk, Expense)
    ensures a.balance == a.income - a.expense
    ensures a.savingRate == SavingRate(a.income, a.balance)
    ensures a.topCats == TopCats(MonthExpenses(txs, mk), cats)
    ensures a.alerts == MonthAlerts(a.income, a.expense)
  {
    var tx := ByMonth(txs, mk);
    var income := Sum(OfKind(tx, Income));
    var expense := Sum(OfKind(tx, Expense));
    ListedTotal(txs, mk, Income);
    ListedTotal(txs, mk, Expense);
    var balance := income - expense;
    MonthAnalysis(mk, income, expense, balance, SavingRate(income, balance),
      TopCats(MonthExpenses(txs, mk), cats), MonthAlerts(income, expense))
  }

  /** The alert list of any month is one of four. */
  lemma AlertsNested(txs: seq<Transaction>, cats: seq<Category>, mk: string)
    ensures Nested(AnalyzeMonth(txs, cats, mk).alerts)
  {
    var a := AnalyzeMonth(txs, cats, mk);
    MonthAlertsNested(a.income, a.expense);
  }

  /** The per-category totals of the month's expenses add up to its expense. */
  lemma CategoryTotalsAddUp(txs: seq<Transaction>, cats: seq<Category>, mk: string)
    ensures SumTotals(CategoryTotals(MonthExpenses(txs, mk))) == AnalyzeMonth(txs, cats, mk).expense
  {
  }
}
