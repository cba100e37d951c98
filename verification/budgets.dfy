/** Monthly budgets (js/state.js): the cached budget rows, the per-month
    category map, the cache update after an upsert or a delete, the locally
    stored hidden rows, and the usage figures the budget table shows
    (js/ui.js). */
module Budgets {
  import opened Wrappers
  import opened Seqs
  import opened JsNumber

  /** A budget row as the backend returns it. */
  datatype Budget = Budget(id: string, monthKey: string, categoryId: string, amount: real)

  const InvalidBudget: string := "Orçamento inválido."
  const InvalidParameters: string := "Parâmetros inválidos."

  predicate SameKey(b: Budget, mk: string, c: string) {
    b.monthKey == mk && b.categoryId == c
  }

  /** At most one cached row per month and category, as the backend's
      unique key guarantees. */
  predicate Unique(bs: seq<Budget>) {
    forall i, j :: 0 <= i < j < |bs| ==> !SameKey(bs[j], bs[i].monthKey, bs[i].categoryId)
  }

  // ---------------------------------------------------------------------
  // budgetsForMonth
  // ---------------------------------------------------------------------

  /** Some row of the cache belongs to month `mk` and category `c`. */
  predicate HasRow(bs: seq<Budget>, mk: string, c: string) {
    exists i :: 0 <= i < |bs| && SameKey(bs[i], mk, c)
  }

  lemma HasRowLast(bs: seq<Budget>, mk: string, c: string)
    requires |bs| > 0
    ensures HasRow(bs, mk, c) <==> HasRow(bs[..|bs| - 1], mk, c) || SameKey(bs[|bs| - 1], mk, c)
  {
    var init := bs[..|bs| - 1];
    if HasRow(bs, mk, c) {
      var i :| 0 <= i < |bs| && SameKey(bs[i], mk, c);
      if i < |init| {
        assert init[i] == bs[i];
      }
    }
    if HasRow(init, mk, c) {
      var i :| 0 <= i < |init| && SameKey(init[i], mk, c);
      assert bs[i] == init[i];
    }
  }

  /** `budgetsForMonth(monthKey)`: category id to amount for the rows of the
      month; when two rows share a category, the later one wins. */
  function BudgetsForMonth(bs: seq<Budget>, mk: string): (r: map<string, real>)
    ensures forall c :: c in r <==> HasRow(bs, mk, c)
  {
    if |bs| == 0 then map[]
    else
      var init := bs[..|bs| - 1];
      var b := bs[|bs| - 1];
      var m := BudgetsForMonth(init, mk);
      assert forall c :: HasRow(bs, mk, c) <==> HasRow(init, mk, c) || SameKey(b, mk, c) by {
        forall c ensures HasRow(bs, mk, c) <==> HasRow(init, mk, c) || SameKey(b, mk, c) {
          HasRowLast(bs, mk, c);
        }
      }
      if b.monthKey == mk then m[b.categoryId := b.amount] else m
  }

  lemma BudgetsForMonthAppend(bs: seq<Budget>, b: Budget, mk: string)
    ensures BudgetsForMonth(bs + [b], mk) ==
      if b.monthKey == mk then BudgetsForMonth(bs, mk)[b.categoryId := b.amount] else BudgetsForMonth(bs, mk)
  {
    assert (bs + [b])[..|bs|] == bs;
  }

  /** The amount for a category is that of its last row in the month. */
  lemma {:induction false} BudgetsForMonthLastWins(bs: seq<Budget>, mk: string, i: nat)
    requires i < |bs| && bs[i].monthKey == mk
    requires forall j :: i < j < |bs| ==> !SameKey(bs[j], mk, bs[i].categoryId)
    ensures bs[i].categoryId in BudgetsForMonth(bs, mk)
    ensures BudgetsForMonth(bs, mk)[bs[i].categoryId] == bs[i].amount
  {
    if i < |bs| - 1 {
      BudgetsForMonthLastWins(bs[..|bs| - 1], mk, i);
    }
  }

  // ---------------------------------------------------------------------
  // upsertBudget
  // ---------------------------------------------------------------------

  /** `_budgets.findIndex(...)` for the month and category. */
  function FindBudget(bs: seq<Budget>, mk: string, c: string): (i: nat)
    ensures i <= |bs|
    ensures i < |bs| ==> SameKey(bs[i], mk, c)
    ensures forall j :: 0 <= j < i ==> !SameKey(bs[j], mk, c)
  {
    if |bs| == 0 then 0
    else if SameKey(bs[0], mk, c) then 0
    else 1 + FindBudget(bs[1..], mk, c)
  }

  /** The cache after `upsertBudget(monthKey, categoryId, amount)`, where
      `value` is `Number(amount)` and `rowId` the id of the row the backend
      returns: an error for a non-finite or negative value; otherwise the
      row replaces the first cached row of its month and category, or is
      appended when there is none. */
  function UpsertBudget(bs: seq<Budget>, mk: string, c: string, value: Num, rowId: string): (r: Result<seq<Budget>>)
    ensures r.Err? <==> !value.Finite? || value.value < 0.0
    ensures r.Err? ==> r.message == InvalidBudget
    ensures r.Ok? ==> Budget(rowId, mk, c, value.value) in r.value
    ensures r.Ok? && Unique(bs) ==> Unique(r.value)
    ensures r.Ok? ==> |r.value| == if HasRow(bs, mk, c) then |bs| else |bs| + 1
  {
    if !value.Finite? || value.value < 0.0 then Err(InvalidBudget)
    else
      var row := Budget(rowId, mk, c, value.value);
      var i := FindBudget(bs, mk, c);
      if i == |bs| then
        assert Unique(bs) ==> Unique(bs + [row]) by {
          if Unique(bs) {
            UniqueAppend(bs, row);
          }
        }
        Ok(bs + [row])
      else
        assert bs[i := row][i] == row;
        assert Unique(bs) ==> Unique(bs[i := row]) by {
          if Unique(bs) {
            UniqueReplace(bs, i, row);
          }
        }
        Ok(bs[i := row])
  }

  lemma UniqueAppend(bs: seq<Budget>, row: Budget)
    requires Unique(bs)
    requires forall j :: 0 <= j < |bs| ==> !SameKey(bs[j], row.monthKey, row.categoryId)
    ensures Unique(bs + [row])
  {
    var r := bs + [row];
    forall i, j | 0 <= i < j < |r| ensures !SameKey(r[j], r[i].monthKey, r[i].categoryId) {
      if j == |bs| {
        assert r[i] == bs[i];
      } else {
        assert r[i] == bs[i] && r[j] == bs[j];
      }
    }
  }

  lemma UniqueReplace(bs: seq<Budget>, k: nat, row: Budget)
    requires Unique(bs) && k < |bs| && SameKey(bs[k], row.monthKey, row.categoryId)
    ensures Unique(bs[k := row])
  {
    var r := bs[k := row];
    forall i, j | 0 <= i < j < |r| ensures !SameKey(r[j], r[i].monthKey, r[i].categoryId) {
      assert !SameKey(bs[j], bs[i].monthKey, bs[i].categoryId);
    }
  }

  /** Replacing a row of another month leaves a month's map unchanged. */
  lemma {:induction false} ReplaceOtherMonth(bs: seq<Budget>, k: nat, row: Budget, mk: string)
    requires k < |bs| && bs[k].monthKey != mk && row.monthKey != mk
    ensures BudgetsForMonth(bs[k := row], mk) == BudgetsForMonth(bs, mk)
  {
    var init := bs[..|bs| - 1];
    var b := bs[|bs| - 1];
    assert bs == init + [b];
    if k < |bs| - 1 {
      assert bs[k := row] == init[k := row] + [b];
      ReplaceOtherMonth(init, k, row, mk);
      BudgetsForMonthAppend(init[k := row], b, mk);
      BudgetsForMonthAppend(init, b, mk);
    } else {
      assert bs[k := row] == init + [row];
      BudgetsForMonthAppend(init, row, mk);
      BudgetsForMonthAppend(init, b, mk);
    }
  }

  /** Replacing the last row of a month and category sets that category's
      amount and leaves the others. */
  lemma {:induction false} ReplaceLastOfKey(bs: seq<Budget>, k: nat, row: Budget)
    requires k < |bs| && SameKey(bs[k], row.monthKey, row.categoryId)
    requires forall j :: k < j < |bs| ==> !SameKey(bs[j], row.monthKey, row.categoryId)
    ensures BudgetsForMonth(bs[k := row], row.monthKey) == BudgetsForMonth(bs, row.monthKey)[row.categoryId := row.amount]
  {
    var mk := row.monthKey;
    var init := bs[..|bs| - 1];
    var b := bs[|bs| - 1];
    if k < |bs| - 1 {
      assert bs[k := row] == init[k := row] + [b];
      assert bs == init + [b];
      ReplaceLastOfKey(init, k, row);
      BudgetsForMonthAppend(init[k := row], b, mk);
      BudgetsForMonthAppend(init, b, mk);
      if b.monthKey == mk {
        MapUpdatesCommute(BudgetsForMonth(init, mk), row.categoryId, row.amount, b.categoryId, b.amount);
      }
    } else {
      assert bs[k := row] == init + [row];
      assert bs == init + [b];
      BudgetsForMonthAppend(init, row, mk);
      BudgetsForMonthAppend(init, b, mk);
      MapUpdateTwice(BudgetsForMonth(init, mk), row.categoryId, b.amount, row.amount);
    }
  }

  lemma MapUpdatesCommute<K, V>(m: map<K, V>, a: K, x: V, b: K, y: V)
    requires a != b
    ensures m[a := x][b := y] == m[b := y][a := x]
  {
  }

  lemma MapUpdateTwice<K, V>(m: map<K, V>, a: K, x: V, y: V)
    ensures m[a := x][a := y] == m[a := y]
  {
  }

  /** A successful upsert on a cache with one row per key sets the amount
      of the category in its month, and changes no other month. */
  lemma UpsertSetsAmount(bs: seq<Budget>, mk: string, c: string, value: Num, rowId: string, other: string)
    requires Unique(bs) && UpsertBudget(bs, mk, c, value, rowId).Ok?
    ensures BudgetsForMonth(UpsertBudget(bs, mk, c, value, rowId).value, mk) == BudgetsForMonth(bs, mk)[c := value.value]
    ensures other != mk ==> BudgetsForMonth(UpsertBudget(bs, mk, c, value, rowId).value, other) == BudgetsForMonth(bs, other)
  {
    var row := Budget(rowId, mk, c, value.value);
    var i := FindBudget(bs, mk, c);
    if i == |bs| {
      BudgetsForMonthAppend(bs, row, mk);
      BudgetsForMonthAppend(bs, row, other);
    } else {
      forall j | i < j < |bs| ensures !SameKey(bs[j], mk, c) {
        assert !SameKey(bs[j], bs[i].monthKey, bs[i].categoryId);
      }
      ReplaceLastOfKey(bs, i, row);
      if other != mk {
        ReplaceOtherMonth(bs, i, row, other);
      }
    }
  }

  // ---------------------------------------------------------------------
  // deleteBudget
  // ---------------------------------------------------------------------

  /** The cache after `deleteBudget(monthKey, categoryId)`: an error when
      either argument is empty, otherwise every row of that month and
      category removed. */
  function DeleteBudget(bs: seq<Budget>, mk: string, c: string): (r: Result<seq<Budget>>)
    ensures r.Err? <==> mk == "" || c == ""
    ensures r.Err? ==> r.message == InvalidParameters
    ensures r.Ok? ==> forall b :: b in r.value <==> b in bs && !SameKey(b, mk, c)
    ensures r.Ok? ==> |r.value| <= |bs|
  {
    if mk == "" || c == "" then Err(InvalidParameters)
    else Ok(Others(bs, mk, c))
  }

  function Others(bs: seq<Budget>, mk: string, c: string): (r: seq<Budget>) {
    Filter(bs, b => !SameKey(b, mk, c))
  }

  lemma MapRemoveThenSet(m: map<string, real>, c: string, d: string, v: real)
    requires d != c
    ensures (m - {c})[d := v] == m[d := v] - {c}
  {
  }

  lemma MapSetThenRemove(m: map<string, real>, c: string, v: real)
    ensures m[c := v] - {c} == m - {c}
  {
  }

  /** Keeping the rows of other keys removes the category from its month's
      map and changes nothing else. */
  lemma {:induction false} OthersMap(bs: seq<Budget>, mk: string, c: string, m: string)
    ensures BudgetsForMonth(Others(bs, mk, c), m) ==
      if m == mk then BudgetsForMonth(bs, m) - {c} else BudgetsForMonth(bs, m)
  {
    if |bs| > 0 {
      var init := bs[..|bs| - 1];
      var b := bs[|bs| - 1];
      OthersMap(init, mk, c, m);
      var kept := Others(init, mk, c);
      var prev := BudgetsForMonth(init, m);
      if !SameKey(b, mk, c) {
        assert Others(bs, mk, c) == kept + [b];
        BudgetsForMonthAppend(kept, b, m);
        if m == mk && b.monthKey == mk {
          MapRemoveThenSet(prev, c, b.categoryId, b.amount);
        }
      } else {
        assert Others(bs, mk, c) == kept;
        if m == mk {
          MapSetThenRemove(prev, c, b.amount);
        }
      }
    }
  }

  /** Deleting removes the category from its month's map and changes nothing
      else, whether or not the cache has one row per key. */
  lemma DeleteRemovesCategory(bs: seq<Budget>, mk: string, c: string, m: string)
    requires mk != "" && c != ""
    ensures BudgetsForMonth(DeleteBudget(bs, mk, c).value, m) ==
      if m == mk then BudgetsForMonth(bs, m) - {c} else BudgetsForMonth(bs, m)
  {
    OthersMap(bs, mk, c, m);
  }

  /** Deleting twice is deleting once. */
  lemma DeleteIdempotent(bs: seq<Budget>, mk: string, c: string)
    requires mk != "" && c != ""
    ensures DeleteBudget(DeleteBudget(bs, mk, c).value, mk, c) == DeleteBudget(bs, mk, c)
  {
    var p := (b: Budget) => !SameKey(b, mk, c);
    FilterFilter(bs, p, p, p);
  }

  // ---------------------------------------------------------------------
  // Hidden rows (local UI preference)
  // ---------------------------------------------------------------------

  /** `uiPrefs.hiddenBudgetRows`: month key to the hidden category ids. */
  type HiddenRows = map<string, seq<string>>

  /** `hiddenBudgetRows[monthKey] || []`. */
  function HiddenIn(h: HiddenRows, mk: string): seq<string> {
    if mk in h then h[mk] else []
  }

  /** `isBudgetRowHidden(monthKey, categoryId)`. */
  predicate IsHidden(h: HiddenRows, mk: string, c: string) {
    c in HiddenIn(h, mk)
  }

  /** `hideBudgetRow(monthKey, categoryId)`: appends the id unless present. */
  function Hide(h: HiddenRows, mk: string, c: string): (r: HiddenRows)
    ensures forall m, x :: IsHidden(r, m, x) <==> IsHidden(h, m, x) || (m == mk && x == c)
    ensures forall m :: m != mk ==> HiddenIn(r, m) == HiddenIn(h, m)
    ensures NoDups(HiddenIn(h, mk)) ==> NoDups(HiddenIn(r, mk))
  {
    var arr := HiddenIn(h, mk);
    h[mk := if c in arr then arr else arr + [c]]
  }

  /** `unhideBudgetRow(monthKey, catId)`: the month's ids without duplicates
      and without `c`. */
  function Unhide(h: HiddenRows, mk: string, c: string): (r: HiddenRows)
    ensures forall m, x :: IsHidden(r, m, x) <==> IsHidden(h, m, x) && !(m == mk && x == c)
    ensures forall m :: m != mk ==> HiddenIn(r, m) == HiddenIn(h, m)
    ensures NoDups(HiddenIn(r, mk))
  {
    var kept := Filter(Dedup(HiddenIn(h, mk)), x => x != c);
    assert NoDups(kept) by {
      FilterKeepsNoDups(Dedup(HiddenIn(h, mk)), x => x != c);
    }
    h[mk := kept]
  }

  /** `unhideAllBudgetRows(monthKey)`, and equally `clearHiddenBudgetRows`. */
  function UnhideAll(h: HiddenRows, mk: string): (r: HiddenRows)
    ensures forall m, x :: IsHidden(r, m, x) <==> IsHidden(h, m, x) && m != mk
    ensures forall m :: m != mk ==> HiddenIn(r, m) == HiddenIn(h, m)
    ensures HiddenIn(r, mk) == []
  {
    h[mk := []]
  }

  /** A row is hidden exactly when its id is listed under its month; hiding
      it makes it hidden, and unhiding it or its whole month shows it again. */
  lemma HiddenQueries(h: HiddenRows, mk: string, c: string)
    ensures IsHidden(h, mk, c) <==> mk in h && c in h[mk]
    ensures IsHidden(Hide(h, mk, c), mk, c)
    ensures !IsHidden(Unhide(h, mk, c), mk, c)
    ensures !IsHidden(UnhideAll(h, mk), mk, c)
  {
  }

  /** Hiding a hidden row changes nothing. */
  lemma HideIdempotent(h: HiddenRows, mk: string, c: string)
    ensures Hide(Hide(h, mk, c), mk, c) == Hide(h, mk, c)
  {
    assert c in HiddenIn(Hide(h, mk, c), mk);
  }

  /** Unhiding a row just hidden restores the month's list. */
  lemma UnhideUndoesHide(h: HiddenRows, mk: string, c: string)
    requires NoDups(HiddenIn(h, mk)) && !IsHidden(h, mk, c)
    ensures HiddenIn(Unhide(Hide(h, mk, c), mk, c), mk) == HiddenIn(h, mk)
  {
    var arr := HiddenIn(h, mk);
    assert HiddenIn(Hide(h, mk, c), mk) == arr + [c];
    assert NoDups(arr + [c]);
    DedupOfNoDups(arr + [c]);
    var p := (x: string) => x != c;
    FilterConcat(arr, [c], p);
    FilterSingleton(c, p);
    forall i | 0 <= i < |arr| ensures p(arr[i]) {
      assert arr[i] in arr;
    }
    FilterAll(arr, p);
  }

  // ---------------------------------------------------------------------
  // Usage (js/ui.js budget table)
  // ---------------------------------------------------------------------

  /** The status icon and CSS class of a budget row; both use the same bands. */
  datatype Usage = NoBudget | Over | NearLimit | Within

  /** `budgetMap.get(id) || 0`. */
  function BudgetFor(m: map<string, real>, id: string): real {
    if id in m then m[id] else 0.0
  }

  /** `pct`: spending as a percentage of a positive budget, capped at 999. */
  function UsagePct(spent: real, budget: real): (pct: real)
    ensures budget <= 0.0 ==> pct == 0.0
    ensures budget > 0.0 ==> pct <= 999.0
    ensures budget > 0.0 ==> (pct >= 100.0 <==> spent >= budget)
    ensures budget > 0.0 ==> (pct >= 80.0 <==> spent >= 0.8 * budget)
    ensures budget > 0.0 && spent * 100.0 <= 999.0 * budget ==> pct * budget == spent * 100.0
    ensures budget > 0.0 && spent * 100.0 >= 999.0 * budget ==> pct == 999.0
  {
    if budget > 0.0 then
      var q := spent / budget * 100.0;
      PercentBands(spent, budget);
      if q < 999.0 then q else 999.0
    else 0.0
  }

  lemma PercentBands(spent: real, budget: real)
    requires budget > 0.0
    ensures spent / budget * 100.0 >= 100.0 <==> spent >= budget
    ensures spent / budget * 100.0 >= 80.0 <==> spent >= 0.8 * budget
    ensures spent / budget * 100.0 < 999.0 <==> spent * 100.0 < 999.0 * budget
    ensures (spent / budget * 100.0) * budget == spent * 100.0
  {
    QuotientAtLeast(spent, budget, 1.0);
    QuotientAtLeast(spent, budget, 0.8);
    QuotientAtLeast(spent, budget, 9.99);
    var q := spent / budget;
    assert (q * 100.0) * budget == (q * budget) * 100.0;
  }

  /** Dividing by a positive number preserves comparisons. */
  lemma QuotientAtLeast(s: real, b: real, k: real)
    requires b > 0.0
    ensures s / b >= k <==> s >= k * b
    ensures s / b * b == s
  {
    var q := s / b;
    assert q * b == s;
    if q >= k {
      assert q * b - k * b == (q - k) * b;
    } else {
      assert k * b - q * b == (k - q) * b;
    }
  }

  /** The row status: none for a zero budget; otherwise over at 100% or
      more, near the limit from 80%, within below that. A negative budget
      counts as within. */
  function RowUsage(spent: real, budget: real): (u: Usage)
    ensures u == NoBudget <==> budget == 0.0
    ensures u == Over <==> budget > 0.0 && spent >= budget
    ensures u == NearLimit <==> budget > 0.0 && 0.8 * budget <= spent < budget
    ensures u == Within <==> budget < 0.0 || (budget > 0.0 && spent < 0.8 * budget)
  {
    var pct := UsagePct(spent, budget);
    if budget == 0.0 then NoBudget
    else if pct >= 100.0 then Over
    else if pct >= 80.0 then NearLimit
    else Within
  }

  /** More spending never moves a row to a lower band. */
  lemma RowUsageMonotone(s1: real, s2: real, budget: real)
    requires s1 <= s2 && budget > 0.0
    ensures RowUsage(s1, budget) == Over ==> RowUsage(s2, budget) == Over
    ensures RowUsage(s2, budget) == Within ==> RowUsage(s1, budget) == Within
  {
  }
}
