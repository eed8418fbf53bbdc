/** The Progress tab's statistics: how many goals are completed, and the
    two-slice completion chart drawn only when there is at least one goal. */
module Progress {
  import opened Records

  /** The completed goals, in insertion order (the page's list comprehension
      keeping goals whose status is "Completed"). */
  function CompletedGoals(goals: seq<Goal>): (r: seq<Goal>)
    ensures |r| <= |goals|
    ensures forall g :: g in r <==> g in goals && g.status == Completed
  {
    if goals == [] then []
    else (if goals[0].status == Completed then [goals[0]] else []) + CompletedGoals(goals[1..])
  }

  /** Each completed goal is kept as many times as it occurs, and no other
      goal is kept, so the count of completed goals is exact even when two
      goals are identical. */
  lemma {:induction false} CompletedGoalsMultiplicity(goals: seq<Goal>, g: Goal)
    ensures multiset(CompletedGoals(goals))[g] == if g.status == Completed then multiset(goals)[g] else 0
  {
    if goals != [] {
      CompletedGoalsMultiplicity(goals[1..], g);
      assert goals == [goals[0]] + goals[1..];
    }
  }

  function CompletedCount(goals: seq<Goal>): nat
  {
    |CompletedGoals(goals)|
  }

  /** Every goal counts as completed exactly when all goals are completed. */
  lemma {:induction false} CompletedCountAll(goals: seq<Goal>)
    ensures CompletedCount(goals) == |goals| <==> forall i :: 0 <= i < |goals| ==> goals[i].status == Completed
  {
    if goals != [] {
      CompletedCountAll(goals[1..]);
      assert forall i :: 1 <= i < |goals| ==> goals[i] == goals[1..][i - 1];
    }
  }

  /** Marking goal idx completed raises the count by one if it was in
      progress and leaves it as it was if it was already completed. */
  lemma {:induction false} CompletedCountAfterComplete(goals: seq<Goal>, idx: nat)
    requires idx < |goals|
    ensures CompletedCount(goals[idx := goals[idx].(status := Completed)])
         == CompletedCount(goals) + (if goals[idx].status == Completed then 0 else 1)
  {
    var after := goals[idx := goals[idx].(status := Completed)];
    if idx > 0 {
      CompletedCountAfterComplete(goals[1..], idx - 1);
      assert after[1..] == goals[1..][idx - 1 := goals[idx].(status := Completed)];
    } else {
      assert after[1..] == goals[1..];
    }
  }

  /** Adding a goal in progress does not change the completed count. */
  lemma {:induction false} CompletedCountAppendInProgress(goals: seq<Goal>, g: Goal)
    requires g.status == InProgress
    ensures CompletedCount(goals + [g]) == CompletedCount(goals)
  {
    if goals == [] {
      assert CompletedGoals([g]) == [] + CompletedGoals([]);
    } else {
      CompletedCountAppendInProgress(goals[1..], g);
      assert (goals + [g])[1..] == goals[1..] + [g];
    }
  }

  /** The pie chart: slice values, slice names and title. */
  datatype Chart = Chart(values: seq<int>, names: seq<string>, title: string)

  const SliceNames: seq<string> := ["Completed", "In Progress"]

  /** The completion chart, drawn only when there is at least one goal. */
  function CompletionChart(goals: seq<Goal>): (c: Option<Chart>)
    ensures c.Some? <==> |goals| > 0
    ensures c.Some? ==> |c.value.values| == 2 && c.value.names == SliceNames
    ensures c.Some? ==> c.value.values[0] == CompletedCount(goals)
    ensures c.Some? ==> 0 <= c.value.values[0] && 0 <= c.value.values[1]
    ensures c.Some? ==> c.value.values[0] + c.value.values[1] == |goals|
    ensures c.Some? ==> c.value.title == "Goal Completion Rate"
  {
    var completed := CompletedCount(goals);
    var total := |goals|;
    if total > 0 then
      Some(Chart([completed, total - completed], SliceNames, "Goal Completion Rate"))
    else
      None
  }

  /** Three goals of which one is completed give slices 1 and 2. */
  lemma ChartOfOneInThree(a: string, b: string, c: string, d: string)
    ensures CompletionChart([Goal(a, d, InProgress), Goal(b, d, Completed), Goal(c, d, InProgress)]).value.values == [1, 2]
  {
    var goals := [Goal(a, d, InProgress), Goal(b, d, Completed), Goal(c, d, InProgress)];
    assert goals[1..][1..][1..] == [];
    assert CompletedGoals(goals[1..][1..]) == [];
    assert CompletedGoals(goals[1..]) == [goals[1]];
  }
}
