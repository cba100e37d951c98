/** The diagnosis of the month shown by the advisor view (js/ui.js): the
    0..100 score, its label and the three-step action plan, all computed
    from a month analysis. */
module Advisor {
  import opened Wrappers
  import opened Seqs
  import opened Ledger
  import opened Analysis

  /** `Math.max(lo, Math.min(hi, x))`. */
  function Clamp(x: real, lo: real, hi: real): (r: real)
    requires lo <= hi
    ensures lo <= r <= hi
    ensures lo <= x <= hi ==> r == x
    ensures x <= lo ==> r == lo
    ensures x >= hi ==> r == hi
  {
    if x > hi then hi else if x < lo then lo else x
  }

  /** `Math.round`: the nearest integer, halves rounded up. */
  function Round(x: real): (n: int)
    ensures n as real - 0.5 <= x < n as real + 0.5
  {
    (x + 0.5).Floor
  }

  // ---------------------------------------------------------------------
  // Score
  // ---------------------------------------------------------------------

  /** The largest expense category eats more than half of the income. */
  predicate TopDominates(a: MonthAnalysis) {
    |a.topCats| > 0 && a.income > 0.0 && a.topCats[0].total / a.income > 0.5
  }

  /** The score before clamping: 60 plus 40 times the clamped saving rate,
      minus 30 for overspending, 40 for spending without income and 10 for
      a dominant category. */
  function RawScore(a: MonthAnalysis): real {
    var saving := Clamp(a.savingRate, -1.0, 1.0);
    var s0 := 60.0 + saving * 40.0;
    var s1 := if a.income > 0.0 && a.expense > a.income then s0 - 30.0 else s0;
    var s2 := if a.income == 0.0 && a.expense > 0.0 then s1 - 40.0 else s1;
    if TopDominates(a) then s2 - 10.0 else s2
  }

  /** `_calcScore(a)`: the raw score clamped to 0..100 and rounded. */
  function Score(a: MonthAnalysis): (s: int)
    ensures 0 <= s <= 100
    ensures s as real - 0.5 <= Clamp(RawScore(a), 0.0, 100.0) < s as real + 0.5
  {
    Round(Clamp(RawScore(a), 0.0, 100.0))
  }

  /** A better saving rate never lowers the score. */
  lemma ScoreMonotone(a: MonthAnalysis, rate: real)
    requires a.savingRate <= rate
    ensures Score(a) <= Score(a.(savingRate := rate))
  {
    var b := a.(savingRate := rate);
    assert Clamp(a.savingRate, -1.0, 1.0) <= Clamp(rate, -1.0, 1.0);
    assert RawScore(a) <= RawScore(b);
    assert Clamp(RawScore(a), 0.0, 100.0) <= Clamp(RawScore(b), 0.0, 100.0);
  }

  /** What `analyzeMonth` guarantees of its result (see
      `Analysis.AnalyzeMonth`): the balance is income minus expense and the
      saving rate is the balance over a positive income, else 0. */
  predicate Coherent(a: MonthAnalysis) {
    a.balance == a.income - a.expense && a.savingRate == SavingRate(a.income, a.balance)
  }

  /** A month with expenses and no income scores 20; a month with neither
      scores 60. */
  lemma ScoreWithoutIncome(a: MonthAnalysis)
    requires Coherent(a) && a.income == 0.0
    ensures a.expense > 0.0 ==> Score(a) == 20
    ensures a.expense == 0.0 ==> Score(a) == 60
  {
    assert a.savingRate == 0.0;
    assert !TopDominates(a);
  }

  /** Spending more than a positive income caps the score at 30. */
  lemma OverspendingScore(a: MonthAnalysis)
    requires Coherent(a) && a.income > 0.0 && a.expense > a.income
    ensures Score(a) <= 30
    ensures ScoreLabel(Score(a)) == Critical
  {
    NegativeRate(a.savingRate, a.income, a.balance);
    assert RawScore(a) < 30.0;
  }

  lemma NegativeRate(rate: real, income: real, balance: real)
    requires income > 0.0 && rate * income == balance && balance < 0.0
    ensures rate < 0.0
  {
  }

  /** Saving at least half the income, with no dominant category, scores
      80 or more. */
  lemma HighSavingScore(a: MonthAnalysis)
    requires Coherent(a) && a.income > 0.0 && a.balance >= 0.5 * a.income
    requires !TopDominates(a)
    ensures Score(a) >= 80
    ensures ScoreLabel(Score(a)) == Excellent
  {
    RateAtLeastHalf(a.savingRate, a.income, a.balance);
    assert RawScore(a) >= 80.0;
  }

  lemma RateAtLeastHalf(rate: real, income: real, balance: real)
    requires income > 0.0 && rate * income == balance && balance >= 0.5 * income
    ensures rate >= 0.5
  {
  }

  // ---------------------------------------------------------------------
  // Label
  // ---------------------------------------------------------------------

  /** "Excelente", "Bom", "Atenção", "Crítico". */
  datatype Label = Excellent | Good | Attention | Critical

  function LabelRank(l: Label): nat {
    match l
    case Critical => 0
    case Attention => 1
    case Good => 2
    case Excellent => 3
  }

  /** The label bands: 80 and up, 60 and up, 40 and up, below 40. */
  function ScoreLabel(score: int): (l: Label)
    ensures l == Excellent <==> score >= 80
    ensures l == Good <==> 60 <= score < 80
    ensures l == Attention <==> 40 <= score < 60
    ensures l == Critical <==> score < 40
  {
    if score >= 80 then Excellent
    else if score >= 60 then Good
    else if score >= 40 then Attention
    else Critical
  }

  /** A higher score never gets a worse label. */
  lemma ScoreLabelMonotone(s1: int, s2: int)
    requires s1 <= s2
    ensures LabelRank(ScoreLabel(s1)) <= LabelRank(ScoreLabel(s2))
  {
  }

  // ---------------------------------------------------------------------
  // Plan
  // ---------------------------------------------------------------------

  /** The plan's suggestions; amounts are those the message formats. */
  datatype Step =
    | RecordIncome
    | ListFixedExpenses
    | WeeklySpendingCap
    | ReachSavingTarget(target: real, gap: real)
    | KeepSaving(target: real)
    | CutTopCategory(name: string, cut: real)
    | CategorizeExpenses
    | CreateBudgets

  const FallbackTopName: string := "Top categoria"

  /** `top.cat?.name || "Top categoria"`. */
  function TopName(t: TopCat): (name: string)
    ensures name != ""
    ensures t.category.Some? && t.category.value.name != "" ==> name == t.category.value.name
  {
    match t.category
    case Some(c) => if c.name != "" then c.name else FallbackTopName
    case None => FallbackTopName
  }

  /** `targetSaving`: 15% of the income, never negative. */
  function TargetSaving(income: real): (t: real)
    ensures t >= 0.0
    ensures income >= 0.0 ==> t == 0.15 * income
  {
    if income * 0.15 > 0.0 then income * 0.15 else 0.0
  }

  /** `_buildPlan(a)`: always three steps. Without income, three fixed steps.
      Otherwise: reach (with the gap still missing) or keep the 15% saving
      target; cut 15% of the largest category or categorize expenses;
      create budgets. */
  function BuildPlan(a: MonthAnalysis): (plan: seq<Step>)
    ensures |plan| == 3
    ensures a.income == 0.0 ==> plan == [RecordIncome, ListFixedExpenses, WeeklySpendingCap]
    ensures a.income != 0.0 ==> plan[2] == CreateBudgets
    ensures a.income != 0.0 ==> (plan[0].ReachSavingTarget? <==> a.balance < TargetSaving(a.income))
    ensures a.income != 0.0 ==> (plan[0].ReachSavingTarget? || plan[0].KeepSaving?)
    ensures a.income != 0.0 ==> plan[0].target == TargetSaving(a.income)
    ensures a.income != 0.0 && plan[0].ReachSavingTarget? ==>
      0.0 <= plan[0].gap <= plan[0].target && (if a.balance > 0.0 then a.balance else 0.0) + plan[0].gap == plan[0].target
    ensures a.income != 0.0 ==> (plan[1].CutTopCategory? <==> |a.topCats| > 0)
    ensures a.income != 0.0 ==> (plan[1].CutTopCategory? || plan[1] == CategorizeExpenses)
    ensures a.income != 0.0 && |a.topCats| > 0 ==>
      plan[1] == CutTopCategory(TopName(a.topCats[0]), 0.15 * a.topCats[0].total)
  {
    if a.income == 0.0 then [RecordIncome, ListFixedExpenses, WeeklySpendingCap]
    else
      var target := TargetSaving(a.income);
      var first :=
        if a.balance < target then
          ReachSavingTarget(target, target - (if a.balance > 0.0 then a.balance else 0.0))
        else KeepSaving(target);
      var second :=
        if |a.topCats| > 0 then CutTopCategory(TopName(a.topCats[0]), a.topCats[0].total * 0.15)
        else CategorizeExpenses;
      Take([first, second, CreateBudgets], 3)
  }
}
