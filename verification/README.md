# planner-fin core, modelled in Dafny

planner-fin is a browser personal-finance planner. Its `State` object
(js/state.js) caches the user's transactions, categories, monthly budgets and
savings goals. It derives a month analysis from them: income, expense,
balance, saving rate, the five largest expense categories and alerts. The
advisor view (js/ui.js) turns that analysis into a 0..100 score, a label and
a three-step plan. It also suggests budgets from the three previous months'
average spending. Small helpers in js/utils.js pad month numbers, cut month
keys out of dates, parse Brazilian money text and mask typed amounts.

This project models that pure core as immutable data and pure functions:

- `Wrappers`: `Option` and `Result`.
- `Digits`: decimal digits and number-to-string.
- `Seqs`: filters, sums, `Dedup`, a stable descending sort and `Take`.
- `JsNumber`: the string-to-number conversion of `Number(s)`, with results `Finite`, `NaN` or an infinity.
- `Utils`: `pad2`, `monthKeyFromDate`, `parseBRLToNumber`, `moneyMaskBRL`.
- `Ledger`: transactions, the month and range listings, and the per-category `Map` totals in insertion order.
- `Analysis`: `analyzeMonth`.
- `Budgets`: `budgetsForMonth`, the upsert and delete cache updates, the hidden-row preferences and a row's usage status.
- `Goals`: `addContribution` and goal progress.
- `Advisor`: `_calcScore`, the label and `_buildPlan`.
- `Suggestions`: `prevMonthKey` and the suggested budgets.

Amounts are exact reals. Each backend call is modelled as succeeding, and it
returns the row that was written. The row id is a parameter.

## Model

| member | source | states |
|---|---|---|
| Utils.Pad2 | js/utils.js:2-4 | the result is at least two characters long, ends with the given text and is padded on the left with zeros only |
| Utils.Pad2Number | js/utils.js:2-4 | a number below 100 becomes exactly two digits that read back as that number |
| Utils.MonthKeyFromDate | js/utils.js:6-10 | a key exists exactly for a non-empty string, and it is the date's first seven characters (fewer for a shorter text) |
| Utils.ParseBRL | js/utils.js:25-35 | a non-string gives NaN, and the parser never returns an infinity |
| Utils.CleanBRLOnePass | js/utils.js:28-32 | trimming is redundant: cleaning equals removing every whitespace and point and then replacing the first comma |
| Utils.CleanBRLNoSpace | js/utils.js:28-32 | the cleaned text contains no whitespace at all |
| Utils.ParseBRLIgnoresPoints | js/utils.js:25-35 | removing every '.' from the input beforehand never changes the result |
| Utils.ParseBRLScattered | js/utils.js:25-35 | whitespace and points may sit anywhere: a text that, once they are removed, is digits, a comma and digits reads as that decimal |
| Utils.ParseBRLDecimalComma | js/utils.js:25-35 | digits, a comma and digits ("1234,56") read as the exact decimal with the comma as decimal mark |
| Utils.ParseBRLInteger | js/utils.js:25-35 | a plain digit string reads as its integer value |
| Utils.ParseBRLComma | js/utils.js:26 | "1234,56" reads as 1234.56 |
| Utils.ParseBRLThousands | js/utils.js:26 | "1.234,56" reads as 1234.56: the point is a thousands separator |
| Utils.ParseBRLPointAsWritten | js/utils.js:31 | a '.' between digits is dropped, so "whole.fraction" reads as the digits run together |
| Utils.ParseBRLPointCounterexample | js/utils.js:26-32 | "1234.56", which the comment lists as accepted, reads as 123456 |
| Utils.ParseBRLIntended | js/utils.js:26 | the corrected parser also gives NaN for a non-string and never an infinity |
| Utils.ParseBRLIntendedPoint | js/utils.js:26 | the corrected parser reads "whole.fraction" as the exact decimal value |
| Utils.ParseBRLIntendedAgrees | js/utils.js:25-35 | on any text that contains a comma, the corrected parser and the parser as written agree |
| Utils.MaskCents | js/utils.js:46-49 | there is no amount exactly when the text has no digit; otherwise the amount is never NaN, and it is the digits' value divided by 100 when there are at most 15 digits |
| JsNumber.Trim | js/utils.js:29 | trimming never lengthens a text, and what it keeps neither starts nor ends with whitespace |
| JsNumber.TrimParts | js/utils.js:29 | the trimmed text is one contiguous slice of the input, and everything cut off before or after it is whitespace |
| JsNumber.NotANumber | js/utils.js:33 | text that cannot begin a numeric literal reads as NaN |
| JsNumber.IntegerLiteral | js/utils.js:33 | a digit string of at most 15 digits reads as its exact integer value |
| JsNumber.DecimalLiteral | js/utils.js:33 | digits, a point and digits, at most 15 digits in all, read as the exact decimal value |
| Ledger.ByMonth | js/state.js:307-311 | a transaction is listed exactly when it is cached and its date's month key is the given key |
| Ledger.ByMonthAppend | js/state.js:307-311 | the listing keeps cache order and multiplicity: one more cached transaction is appended to it exactly when it belongs to the month |
| Ledger.ByRange | js/state.js:313-316 | a transaction is listed exactly when it is cached and its date string lies between the two bounds inclusive |
| Ledger.ByRangeAppend | js/state.js:313-316 | the range listing keeps cache order and multiplicity: one more cached transaction is appended exactly when its date lies in the range |
| Ledger.LexLeAntisymmetric | js/state.js:315 | two equal-length strings that each compare at most the other are equal |
| Ledger.InMonthIffInRange | js/state.js:307-316 | for a well-formed date, being in the month equals lying between day 01 and day 31 of that month |
| Ledger.MonthIsRange | js/state.js:307-316 | when all dates are well formed, the month listing and the day-01-to-day-31 range listing are the same sequence |
| Ledger.AddTo | js/state.js:823-826 | adding to the map keeps keys unique, adds only the amount to that key, and appends a new key at the end |
| Ledger.CategoryTotals | js/state.js:823-826 | the keys are the distinct category ids in order of first occurrence, each total is its category's sum, and the totals add up to the whole sum |
| Ledger.TotalsKeys | js/state.js:823-826 | one more transaction appends its category to the keys only when the category is new |
| Ledger.LookupCategory | js/state.js:822 | a category is found exactly when some category has that id, and the one found has that id |
| Ledger.LookupCategoryLast | js/state.js:822 | with duplicate ids the Map keeps the last category: the one found is the last category with that id |
| Analysis.ListedTotal | js/state.js:812-817 | listing the month, keeping one kind and summing gives the month's total of that kind |
| Analysis.SavingRate | js/state.js:820 | the rate times a positive income is the balance; without income the rate is 0 |
| Analysis.Alerts | js/state.js:834-840 | each alert is present exactly when its condition holds, and alerts keep their push order |
| Analysis.MonthAlerts | js/state.js:834-840 | the same alert conditions as Alerts, restated without dividing by income |
| Analysis.MonthAlertsNested | js/state.js:834-840 | overspending implies a low saving rate, which implies a high expense ratio, so only four alert lists are possible |
| Analysis.AlertsNested | js/state.js:811-851 | every month's alert list is one of those four |
| Analysis.TopCats | js/state.js:828-831 | at most five entries, sorted by descending total, one per category; each holds its category's expense sum and looked-up category |
| Analysis.TopCatsKeepLargest | js/state.js:828-831 | a category with expenses that is left out means five entries were kept, each with a total at least its own |
| Analysis.TopCatsTiesInFirstOccurrenceOrder | js/state.js:828-831 | entries with equal totals keep the order of their categories' first expense |
| Analysis.AnalyzeMonth | js/state.js:811-851 | the month's income and expense are the kind totals, the balance is their difference, and the rate, top categories and alerts follow from them |
| Analysis.CategoryTotalsAddUp | js/state.js:823-826 | the per-category expense totals add up to the month's expense |
| Budgets.BudgetsForMonth | js/state.js:560-567 | a category has an amount exactly when a row exists for it in that month |
| Budgets.BudgetsForMonthLastWins | js/state.js:560-567 | a category's amount comes from its last row in the month |
| Budgets.FindBudget | js/state.js:603-605 | the index is the first row of that month and category, or the end when there is none |
| Budgets.UpsertBudget | js/state.js:580-607 | it fails exactly on a non-finite or negative amount; on success the row is cached, keys stay unique, and only a new key adds a row |
| Budgets.ReplaceOtherMonth | js/state.js:603-607 | replacing a row that belongs to another month leaves this month's amounts unchanged |
| Budgets.UpsertSetsAmount | js/state.js:580-607 | a successful upsert sets the category's amount in its month and changes no other month |
| Budgets.DeleteBudget | js/state.js:611-626 | it fails exactly when the month or category is empty; otherwise it keeps exactly the rows of other keys |
| Budgets.OthersMap | js/state.js:623-625 | dropping the rows of one key removes that category from its month's amounts and changes nothing else |
| Budgets.DeleteRemovesCategory | js/state.js:611-626 | deleting removes the category from its month's amounts and leaves every other month as it was |
| Budgets.DeleteIdempotent | js/state.js:611-626 | deleting twice is the same as deleting once |
| Budgets.Hide | js/state.js:642-648 | afterwards the row is hidden, nothing else is newly hidden, other months are untouched and the month's list stays duplicate-free |
| Budgets.Unhide | js/state.js:546-552 | afterwards exactly that row is no longer hidden, other months are untouched and the month's list has no duplicates |
| Budgets.UnhideAll | js/state.js:554-558 | the month's list becomes empty and other months are untouched |
| Budgets.HiddenQueries | js/state.js:636-640 | a row is hidden exactly when its id is listed under its month; hiding makes it hidden, and unhiding it or its whole month shows it again |
| Budgets.HideIdempotent | js/state.js:642-648 | hiding a row a second time changes nothing |
| Budgets.UnhideUndoesHide | js/state.js:546-552 | unhiding a row that was just hidden restores the month's list |
| Budgets.UsagePct | js/ui.js:172 | the percentage is 0 without a positive budget; it reaches 100 exactly at the budget and 80 exactly at 80% of it; below the cap it is spent over budget times 100, and from the cap on it is exactly 999 |
| Budgets.PercentBands | js/ui.js:172-174 | spent/budget*100 reaches 100 and 80 exactly when the spending reaches the budget and 80% of it |
| Budgets.RowUsage | js/ui.js:172-179 | no status for a zero budget; over from 100%, near the limit from 80%, within below that; a negative budget counts as within |
| Budgets.RowUsageMonotone | js/ui.js:172-179 | spending more never moves a row to a lower band |
| Goals.FindGoal | js/state.js:781 | the index is the first goal with the id, or the end exactly when there is none |
| Goals.AddContribution | js/state.js:777-809 | it fails on a contribution that is not a positive finite number, then on an unknown goal; otherwise only the found goal's saved amount rises, and the total saved rises by the contribution |
| Goals.TotalSavedRaise | js/state.js:797-808 | raising one goal's saved amount raises the total saved by the same amount |
| Goals.Contributed | js/state.js:777-809 | a positive contribution to a known goal raises that goal's saved amount by the contribution |
| Goals.ContributionsAdd | js/state.js:777-809 | two contributions to one goal have the effect of one contribution of their sum |
| Goals.GoalPct | js/ui.js:481-484 | below the cap the percentage is the saved fraction of the target (it times the target is the saved amount times 100); it is capped at 100, reached exactly when the target is met; a zero target gives 100 when something is saved, NaN when nothing is and minus infinity when the saved amount is negative, as IEEE division does |
| Goals.PercentOfTarget | js/ui.js:483 | for a non-zero target, the percentage times the target is the saved amount times 100, and it reaches 100 exactly when a positive target is met or the saved amount stays at or below a negative one |
| Goals.GoalLeft | js/ui.js:485 | the amount left is never negative, is zero exactly when the target is met, and otherwise completes the saved amount to the target |
| Goals.ContributingLeftCompletes | js/ui.js:481-485 | contributing exactly what is left makes the card show 100% and nothing left |
| Advisor.Clamp | js/ui.js:955 | the result lies in the bounds, equals the input when the input does, and is the nearer bound otherwise |
| Advisor.Round | js/ui.js:965 | the result is within half a unit of the input, with halves rounded up |
| Advisor.Score | js/ui.js:952-967 | the score is an integer from 0 to 100, the rounded, clamped raw score |
| Advisor.ScoreMonotone | js/ui.js:952-967 | a better saving rate never lowers the score |
| Advisor.ScoreWithoutIncome | js/ui.js:952-967 | without income, a month with expenses scores 20 and a month without them scores 60 |
| Advisor.OverspendingScore | js/ui.js:952-967 | spending more than a positive income scores at most 30, which is labelled critical |
| Advisor.HighSavingScore | js/ui.js:952-967 | saving half the income without a dominant category scores at least 80, which is labelled excellent |
| Advisor.ScoreLabel | js/ui.js:668-675 | each label holds exactly on its band: 80 and up, 60 to 79, 40 to 59, below 40 |
| Advisor.ScoreLabelMonotone | js/ui.js:668-675 | a higher score never gets a worse label |
| Advisor.TopName | js/ui.js:1007 | the name is never empty, and it is the category's own name whenever that is non-empty |
| Advisor.TargetSaving | js/ui.js:993 | the saving target is never negative, and it is 15% of a non-negative income |
| Advisor.BuildPlan | js/ui.js:969-1023 | there are always three steps: fixed ones without income; otherwise reach (with a gap that closes the target) or keep the 15% target, cut the largest category or categorize, and create budgets |
| Suggestions.Split | js/ui.js:681 | splitting always gives at least one piece |
| Suggestions.SplitJoin | js/ui.js:681 | the pieces contain no dash, and joining them with dashes gives back the original text |
| Suggestions.KeyOf | js/ui.js:684-686 | a month key is the year, a dash and two digits giving the month from 01 to 12; for a non-negative index the year part is all digits and reads back as the year |
| Suggestions.PrevMonthKey | js/ui.js:680-687 | "NaN-NaN" exactly when the key makes no valid date; otherwise the key of the month before |
| Suggestions.KeyOfIndex | js/ui.js:680-687 | reading back the key of a month of a four-digit year gives that month |
| Suggestions.PrevMonthStepsBack | js/ui.js:680-687 | from a valid month of a four-digit year, the previous key reads as one month earlier |
| Suggestions.PrevMonthWithinYear | js/ui.js:680-687 | within a year, the key before YYYY-MM is the previous month of the same year |
| Suggestions.PrevMonthOfJanuary | js/ui.js:680-687 | the key before January is December of the previous year |
| Suggestions.PrevMonthWithoutMonth | js/ui.js:680-687 | a key without a month part gives "NaN-NaN" |
| Suggestions.PrevMonthOfInvalid | js/ui.js:680-687 | "NaN-NaN" stays "NaN-NaN" |
| Suggestions.PrevMonthTwoDigitYear | js/ui.js:680-687 | a year below 100 is read as 1900 plus that year |
| Suggestions.PreviousMonthsOfKey | js/ui.js:689-691 | the three months before are the three previous calendar months, most recent first |
| Suggestions.TotalForIsSpent | js/ui.js:693-701 | reading a category from the month's totals map gives what it spent, or 0 when it has no expenses |
| Suggestions.CandidateFor | js/ui.js:707-714 | a category has a candidate exactly when its average is positive, and the candidate is that average plus 10% |
| Suggestions.CandidateOf | js/ui.js:707-714 | every candidate is a listed category with its positive average and a suggestion 10% above it |
| Suggestions.CandidateComplete | js/ui.js:707-714 | every listed category with a positive average has a candidate |
| Suggestions.CandidatesNoDups | js/ui.js:707-714 | distinct categories give candidates for distinct categories |
| Suggestions.SuggestionsFor | js/ui.js:707-724 | at most five suggestions, sorted largest first, one per category, each a registered category with its positive three-month average and that average plus 10% |
| Suggestions.SuggestionsKeepLargest | js/ui.js:716-724 | a registered category with a positive average that is left out means five suggestions were kept, none smaller than its own |
| Suggestions.SuggestionsTiesInCategoryOrder | js/ui.js:716-724 | suggestions with equal amounts keep the order of their categories |
| Suggestions.MonthSuggestions | js/ui.js:689-724 | the suggestions of a month are those for the three months before it, with the same guarantees |

## Left out

- Persistence and Supabase: every backend call is modelled as succeeding, and the row it returns is the row that was written. Network errors, authentication and the `loadAll` refresh are not modelled.
- Floating point: amounts, averages and percentages are exact reals. Rounding in sums, the division by 100 in the money mask, `toFixed` and the 1.1 factor of the suggestions are not modelled.
- `Number(s)` is modelled for the literals it accepts. A digit string longer than 15 digits is not stated as exact, because the double nearest to it may differ.
- Intl and `toLocaleString` formatting (`formatCurrencyBRL` and the text output of `moneyMaskBRL`) and every message string of the plan and the alerts are not modelled. The plan's steps are a datatype carrying the amounts the messages format.
- The clock (`currentMonthKey`), `uuid` and all DOM rendering are not modelled.
- String comparison in `listTransactionsInRange` is by character code. It agrees with UTF-16 comparison for the characters of dates.
- Utils.MonthKeyFromDate and Utils.Pad2 count characters (Unicode scalar values), while `slice(0, 7)` and `padStart` count UTF-16 code units. The two differ only for characters outside the Basic Multilingual Plane, which dates and month numbers never contain.
- Suggestions.PrevMonthKey: the JavaScript `Date` range limit (about 275,000 years) is not modelled. A year too large to be a valid date is treated as valid. The lemmas about keys are stated for four-digit years, and for years below 100 through `PrevMonthTwoDigitYear`.
- `isBudgetRowHidden` at js/state.js:517 accepts its arguments in either order and is overridden by the later definition at 636. Only the later one is modelled, because it is the one that takes effect.
- Deadline, notes and timestamps of goals, and the categories' colours and icons, play no part in any modelled operation.
- A debt-payoff plan and a monthly/annual mode are described for the product but do not appear in the source, so they are not modelled.
- `moneyMaskBRL` on a non-string argument (`String(raw || "")`) is not modelled. `MaskCents` takes the text directly.

## Findings

| source | as written | input that shows it | evidently intended | confidence | as-written member | corrected member |
|---|---|---|---|---|---|---|
| js/utils.js:26-32 | every '.' is removed before the first ',' becomes the decimal point, so a '.' used as the decimal point is dropped | "1234.56" parses to 123456 | the comment lists "1234.56" as accepted, meaning 1234.56 | high, not executed | Utils.ParseBRLPointCounterexample | Utils.ParseBRLIntendedPoint |
