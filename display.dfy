/** The order in which the page lists records: goals in the order they
    were added, each with its own Complete button; reflections and
    achievements most recent first. */
module Display {
  import opened Records
  import opened WidgetKeys

  /** A list shown most recent first: the last entry added comes first. */
  function NewestFirst<T>(s: seq<T>): (r: seq<T>)
    ensures |r| == |s|
    ensures forall k :: 0 <= k < |s| ==> r[k] == s[|s| - 1 - k]
  {
    if s == [] then [] else [s[|s| - 1]] + NewestFirst(s[..|s| - 1])
  }

  /** Adding an entry puts it at the top and leaves the rest in place. */
  lemma NewestFirstAppend<T>(s: seq<T>, x: T)
    ensures NewestFirst(s + [x]) == [x] + NewestFirst(s)
  {
  }

  /** Showing a list newest first twice gives back insertion order, so
      nothing is dropped or duplicated. */
  lemma NewestFirstInvolutive<T>(s: seq<T>)
    ensures NewestFirst(NewestFirst(s)) == s
  {
  }

  /** What the Goals tab shows for one goal: its text, its start date and
      the key of its Complete button. */
  datatype GoalRow = GoalRow(goal: string, date: string, key: string)

  function RowOf(g: Goal, idx: nat): GoalRow
  {
    GoalRow(g.goal, g.date, CompleteKey(idx))
  }

  /** The rows of the Goals tab, in insertion order. */
  function GoalRows(goals: seq<Goal>): (rows: seq<GoalRow>)
    ensures |rows| == |goals|
    ensures forall i :: 0 <= i < |goals| ==> rows[i] == RowOf(goals[i], i)
  {
    seq(|goals|, i requires 0 <= i < |goals| => RowOf(goals[i], i))
  }

  /** No two rows of the Goals tab share a Complete key. */
  lemma GoalRowKeysDistinct(goals: seq<Goal>, i: nat, j: nat)
    requires i < |goals| && j < |goals| && i != j
    ensures GoalRows(goals)[i].key != GoalRows(goals)[j].key
  {
    CompleteKeyInjective(i, j);
  }

  /** The Goals tab depends only on each goal's text and date, not on its
      status: completing a goal does not change what the tab lists. */
  lemma GoalRowsIgnoreStatus(goals: seq<Goal>, idx: nat, st: Status)
    requires idx < |goals|
    ensures GoalRows(goals[idx := goals[idx].(status := st)]) == GoalRows(goals)
  {
  }
}
