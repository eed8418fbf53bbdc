/** The per-session record store the page keeps in its session state: three
    lists that the page's handlers append to in place, and the one in-place
    update, marking a goal completed from the Goals tab. */
module SessionState {
  import opened Records
  import opened WidgetKeys
  import opened Display
  import Session

  class RecordStore {
    var goals: seq<Goal>
    var reflections: seq<Reflection>
    var achievements: seq<Achievement>

    /** The three lists as one value. */
    function Snapshot(): Session.Store
      reads this
    {
      Session.Store(goals, reflections, achievements)
    }

    /** Every achievement names a completed goal, and completed goals are
        no more than achievements. */
    ghost predicate Valid()
      reads this
    {
      Session.Consistent(Snapshot())
    }

    /** A fresh session: all three lists empty. */
    constructor ()
      ensures Valid()
      ensures Snapshot() == Session.Empty
    {
      goals := [];
      reflections := [];
      achievements := [];
      new;
      Session.EmptyConsistent();
    }

    /** "Add Goal" (Dashboard) or "Add" (Goals tab) with the entered text. */
    method AddGoal(text: string, date: string) returns (added: bool)
      requires Valid()
      modifies this
      ensures Valid()
      ensures added <==> text != ""
      ensures Snapshot() == Session.AddGoal(old(Snapshot()), text, date)
    {
      Session.AddGoalConsistent(Snapshot(), text, date);
      added := text != "";
      if added {
        goals := goals + [Goal(text, date, InProgress)];
      }
    }

    /** The body of goal idx's Complete button. */
    method CompleteGoal(idx: nat, date: string)
      requires Valid()
      requires idx < |goals|
      modifies this
      ensures Valid()
      ensures Snapshot() == Session.CompleteGoal(old(Snapshot()), idx, date)
    {
      Session.CompleteGoalConsistent(Snapshot(), idx, date);
      var goal := goals[idx];
      goals := goals[idx := goal.(status := Completed)];
      achievements := achievements + [Achievement(AchievementText(goal.goal), date)];
    }

    /** The Goals tab's list: one row per goal in insertion order, each with
        a Complete button keyed by its position; if the button with key
        pressed was pressed, that goal's row completes it. */
    method ShowGoals(pressed: Option<string>, date: string) returns (rows: seq<GoalRow>)
      requires Valid()
      modifies this
      ensures Valid()
      ensures rows == GoalRows(old(goals))
      ensures Snapshot() == Session.PressComplete(old(Snapshot()), pressed, date)
    {
      ghost var s0 := Snapshot();
      ghost var target := PressedIndex(pressed, |goals|);
      rows := [];
      var idx := 0;
      while idx < |goals|
        invariant |goals| == |s0.goals|
        invariant 0 <= idx <= |goals|
        invariant Valid()
        invariant rows == GoalRows(s0.goals)[..idx]
        invariant Snapshot() == if target.Some? && target.value < idx
                                then Session.CompleteGoal(s0, target.value, date) else s0
      {
        var goal := goals[idx];
        rows := rows + [RowOf(goal, idx)];
        if pressed == Some(CompleteKey(idx)) {
          PressedIndexOfKey(idx, |goals|);
          CompleteGoal(idx, date);
        }
        idx := idx + 1;
      }
    }

    /** "Save Reflection" with the entered text and the slider's mood. */
    method AddReflection(text: string, mood: Mood, date: string) returns (saved: bool)
      requires Valid()
      modifies this
      ensures Valid()
      ensures saved <==> text != ""
      ensures Snapshot() == Session.AddReflection(old(Snapshot()), text, mood, date)
    {
      Session.AddReflectionConsistent(Snapshot(), text, mood, date);
      saved := text != "";
      if saved {
        reflections := reflections + [Reflection(text, mood, date)];
      }
    }
  }
}
