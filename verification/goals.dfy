/** Savings goals: `State.addContribution` (js/state.js) and the progress
    figures of a goal card (js/ui.js). */
module Goals {
  import opened Wrappers
  import opened JsNumber

  /** A cached goal; the deadline, notes and timestamps play no part here. */
  datatype Goal = Goal(id: string, name: string, targetAmount: real, currentAmount: real)

  const InvalidContribution: string := "Aporte inválido."
  const GoalNotFound: string := "Meta não encontrada."

  predicate HasGoal(goals: seq<Goal>, id: string) {
    exists i :: 0 <= i < |goals| && goals[i].id == id
  }

  /** `_goals.find(...)` / `_goals.findIndex(...)`: the first goal with the id. */
  function FindGoal(goals: seq<Goal>, id: string): (i: nat)
    ensures i <= |goals|
    ensures i == |goals| <==> !HasGoal(goals, id)
    ensures i < |goals| ==> goals[i].id == id
    ensures forall j :: 0 <= j < i ==> goals[j].id != id
  {
    if |goals| == 0 then 0
    else if goals[0].id == id then 0
    else
      var i := 1 + FindGoal(goals[1..], id);
      assert HasGoal(goals, id) <==> HasGoal(goals[1..], id) by {
        if HasGoal(goals, id) {
          var k :| 0 <= k < |goals| && goals[k].id == id;
          assert goals[1..][k - 1] == goals[k];
        }
        if HasGoal(goals[1..], id) {
          var k :| 0 <= k < |goals[1..]| && goals[1..][k].id == id;
          assert goals[k + 1] == goals[1..][k];
        }
      }
      i
  }

  /** The sum of the saved amounts of all goals. */
  function TotalSaved(goals: seq<Goal>): real {
    if |goals| == 0 then 0.0 else TotalSaved(goals[..|goals| - 1]) + goals[|goals| - 1].currentAmount
  }

  /** The goal cache after `addContribution(goalId, value)`, where `v` is
      `Number(value)`: an error for a contribution that is not a positive
      finite number, then for an unknown goal; otherwise the first goal
      with the id has its saved amount raised by the contribution. */
  function AddContribution(goals: seq<Goal>, goalId: string, v: Num): (r: Result<seq<Goal>>)
    ensures r.Err? <==> !v.Finite? || v.value <= 0.0 || !HasGoal(goals, goalId)
    ensures r.Err? ==> r.message == if !v.Finite? || v.value <= 0.0 then InvalidContribution else GoalNotFound
    ensures r.Ok? ==> |r.value| == |goals|
    ensures r.Ok? ==> forall j :: 0 <= j < |goals| ==>
      r.value[j].id == goals[j].id && r.value[j].name == goals[j].name
      && r.value[j].targetAmount == goals[j].targetAmount
    ensures r.Ok? ==> forall j :: 0 <= j < |goals| ==>
      r.value[j].currentAmount == goals[j].currentAmount + (if j == FindGoal(goals, goalId) then v.value else 0.0)
    ensures r.Ok? ==> TotalSaved(r.value) == TotalSaved(goals) + v.value
  {
    if !v.Finite? || v.value <= 0.0 then Err(InvalidContribution)
    else
      var i := FindGoal(goals, goalId);
      if i == |goals| then Err(GoalNotFound)
      else
        TotalSavedRaise(goals, i, v.value);
        Ok(Raise(goals, i, v.value))
  }

  /** The goals with `x` added to the saved amount of the one at `i`. */
  function Raise(goals: seq<Goal>, i: nat, x: real): seq<Goal>
    requires i < |goals|
  {
    goals[i := goals[i].(currentAmount := goals[i].currentAmount + x)]
  }

  /** Raising one saved amount raises the total by as much. */
  lemma {:induction false} TotalSavedRaise(goals: seq<Goal>, i: nat, x: real)
    requires i < |goals|
    ensures TotalSaved(Raise(goals, i, x)) == TotalSaved(goals) + x
  {
    var r := Raise(goals, i, x);
    if i < |goals| - 1 {
      assert r[..|r| - 1] == Raise(goals[..|goals| - 1], i, x);
      TotalSavedRaise(goals[..|goals| - 1], i, x);
    } else {
      assert r[..|r| - 1] == goals[..|goals| - 1];
    }
  }

  /** The first goal with the id is found wherever it is. */
  lemma {:induction false} FindGoalAt(goals: seq<Goal>, id: string, i: nat)
    requires i < |goals| && goals[i].id == id
    requires forall j :: 0 <= j < i ==> goals[j].id != id
    ensures FindGoal(goals, id) == i
  {
    if i > 0 {
      FindGoalAt(goals[1..], id, i - 1);
    }
  }

  /** A valid contribution to a known goal raises that goal's amount. */
  lemma Contributed(goals: seq<Goal>, goalId: string, a: real)
    requires a > 0.0 && HasGoal(goals, goalId)
    ensures FindGoal(goals, goalId) < |goals|
    ensures AddContribution(goals, goalId, Finite(a)) == Ok(Raise(goals, FindGoal(goals, goalId), a))
  {
    ContributedAt(goals, goalId, a, FindGoal(goals, goalId));
  }

  lemma ContributedAt(goals: seq<Goal>, goalId: string, a: real, i: nat)
    requires a > 0.0 && i < |goals| && i == FindGoal(goals, goalId)
    ensures AddContribution(goals, goalId, Finite(a)) == Ok(Raise(goals, i, a))
  {
  }

  /** Two contributions to one goal add up to a single one of their sum
      (which `Contributed` gives as the same raise). */
  lemma ContributionsAdd(goals: seq<Goal>, goalId: string, a: real, b: real)
    requires a > 0.0 && b > 0.0 && HasGoal(goals, goalId)
    ensures AddContribution(goals, goalId, Finite(a)).Ok?
    ensures AddContribution(AddContribution(goals, goalId, Finite(a)).value, goalId, Finite(b))
      == Ok(Raise(goals, FindGoal(goals, goalId), a + b))
  {
    ContributionsAddAt(goals, goalId, a, b, FindGoal(goals, goalId));
  }

  lemma ContributionsAddAt(goals: seq<Goal>, goalId: string, a: real, b: real, i: nat)
    requires a > 0.0 && b > 0.0 && i < |goals| && i == FindGoal(goals, goalId)
    ensures AddContribution(goals, goalId, Finite(a)).Ok?
    ensures AddContribution(AddContribution(goals, goalId, Finite(a)).value, goalId, Finite(b))
      == Ok(Raise(goals, i, a + b))
  {
    ContributedAt(goals, goalId, a, i);
    FindGoalAfterRaise(goals, goalId, i, a);
    ContributedAt(Raise(goals, i, a), goalId, b, i);
    RaiseTwice(goals, i, a, b);
  }

  /** Raising a saved amount leaves the goal where it is found. */
  lemma FindGoalAfterRaise(goals: seq<Goal>, goalId: string, i: nat, x: real)
    requires i < |goals| && i == FindGoal(goals, goalId)
    ensures FindGoal(Raise(goals, i, x), goalId) == i
  {
    FindGoalAt(Raise(goals, i, x), goalId, i);
  }

  lemma RaiseTwice(goals: seq<Goal>, i: nat, a: real, b: real)
    requires i < |goals|
    ensures Raise(Raise(goals, i, a), i, b) == Raise(goals, i, a + b)
  {
  }

  // ---------------------------------------------------------------------
  // Progress (goal card)
  // ---------------------------------------------------------------------

  /** `Math.min(100, (currentAmount / targetAmount) * 100)`, including the
      IEEE outcomes of a zero target: 100 when something is saved, NaN
      when nothing is, minus infinity when the saved amount is negative. */
  function GoalPct(target: real, current: real): (r: Num)
    ensures r.NaN? <==> target == 0.0 && current == 0.0
    ensures r.Infinity? <==> target == 0.0 && current < 0.0
    ensures r.Finite? ==> r.value <= 100.0
    ensures target > 0.0 ==> r.Finite? && (r.value == 100.0 <==> current >= target)
    ensures target > 0.0 && current >= 0.0 ==> r.value >= 0.0
    ensures target > 0.0 && current < target ==> r.Finite? && r.value * target == current * 100.0
    ensures target < 0.0 ==> r.Finite?
    ensures target < 0.0 && current > target ==> r.value * target == current * 100.0
    ensures target < 0.0 && current <= target ==> r.value == 100.0
    ensures target == 0.0 && current > 0.0 ==> r == Finite(100.0)
    ensures r.Infinity? ==> r.negative
  {
    if target == 0.0 then
      if current > 0.0 then Finite(100.0)
      else if current == 0.0 then NaN
      else Infinity(true)
    else
      var p := current / target * 100.0;
      PercentOfTarget(current, target);
      assert target > 0.0 && current >= 0.0 ==> p >= 0.0;
      Finite(if p < 100.0 then p else 100.0)
  }

  /** The saved fraction of a non-zero target, as a percentage: it times the
      target is the saved amount times 100, and it reaches 100 exactly when
      the saved amount reaches a positive target or stays at or below a
      negative one. */
  lemma PercentOfTarget(current: real, target: real)
    requires target != 0.0
    ensures (current / target * 100.0) * target == current * 100.0
    ensures target > 0.0 ==> (current / target * 100.0 >= 100.0 <==> current >= target)
    ensures target < 0.0 ==> (current / target * 100.0 >= 100.0 <==> current <= target)
  {
    var q := current / target;
    assert q * target == current;
    assert (q * 100.0) * target == (q * target) * 100.0;
    if target > 0.0 {
      QuotientAtLeastOne(current, target);
    } else {
      if q >= 1.0 {
        assert q * target - target == (q - 1.0) * target;
      } else {
        assert target - q * target == (1.0 - q) * target;
      }
    }
  }

  lemma QuotientAtLeastOne(s: real, b: real)
    requires b > 0.0
    ensures s / b * 100.0 >= 100.0 <==> s >= b
  {
    var q := s / b;
    assert q * b == s;
    if q >= 1.0 {
      assert q * b - b == (q - 1.0) * b;
    } else {
      assert b - q * b == (1.0 - q) * b;
    }
  }

  /** `Math.max(0, targetAmount - currentAmount)`: what is still missing. */
  function GoalLeft(target: real, current: real): (r: real)
    ensures r >= 0.0
    ensures r == 0.0 <==> current >= target
    ensures r > 0.0 ==> current + r == target
  {
    if target - current > 0.0 then target - current else 0.0
  }

  /** Contributing exactly what is left completes the goal: the card then
      shows 100% and nothing left. */
  lemma ContributingLeftCompletes(goals: seq<Goal>, goalId: string)
    requires HasGoal(goals, goalId)
    requires var g := goals[FindGoal(goals, goalId)]; g.targetAmount > 0.0 && GoalLeft(g.targetAmount, g.currentAmount) > 0.0
    ensures var g := goals[FindGoal(goals, goalId)];
      var r := AddContribution(goals, goalId, Finite(GoalLeft(g.targetAmount, g.currentAmount)));
      r.Ok? && GoalPct(r.value[FindGoal(goals, goalId)].targetAmount, r.value[FindGoal(goals, goalId)].currentAmount) == Finite(100.0)
      && GoalLeft(r.value[FindGoal(goals, goalId)].targetAmount, r.value[FindGoal(goals, goalId)].currentAmount) == 0.0
  {
  }
}
