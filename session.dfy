/** The session's record store as a value, the rules by which each page
    interaction changes it, and what holds over a whole session: lists only
    grow, a completed goal stays completed, and every achievement names a
    completed goal. */
module Session {
  import opened Records
  import opened WidgetKeys
  import opened Progress
  import opened Display

  datatype Store = Store(goals: seq<Goal>, reflections: seq<Reflection>, achievements: seq<Achievement>)

  /** A new session starts with three empty lists. */
  const Empty: Store := Store([], [], [])

  /** Submitting goal text: an entry in progress is appended unless the text is empty. */
  function AddGoal(s: Store, text: string, date: string): Store
  {
    if text != "" then s.(goals := s.goals + [Goal(text, date, InProgress)]) else s
  }

  /** The Complete button of goal idx: mark it completed, whatever its
      status was, and log one more achievement naming it. */
  function CompleteGoal(s: Store, idx: nat, date: string): Store
    requires idx < |s.goals|
  {
    s.(goals := s.goals[idx := s.goals[idx].(status := Completed)],
       achievements := s.achievements + [Achievement(AchievementText(s.goals[idx].goal), date)])
  }

  /** A render of the Goals tab in which the button with key pressed (if
      any) was pressed: only the goal owning that key is completed. */
  ghost function PressComplete(s: Store, pressed: Option<string>, date: string): Store
  {
    match PressedIndex(pressed, |s.goals|)
    case None => s
    case Some(i) => CompleteGoal(s, i, date)
  }

  /** Saving a reflection: appended unless the text is empty. */
  function AddReflection(s: Store, text: string, mood: Mood, date: string): Store
  {
    if text != "" then s.(reflections := s.reflections + [Reflection(text, mood, date)]) else s
  }

  /** One interaction of the user with the page. */
  datatype Event =
    | GoalSubmitted(text: string, date: string)
    | GoalsShown(pressed: Option<string>, date: string)
    | ReflectionSaved(text: string, mood: Mood, date: string)

  ghost function Step(s: Store, e: Event): Store
  {
    match e
    case GoalSubmitted(text, date) => AddGoal(s, text, date)
    case GoalsShown(pressed, date) => PressComplete(s, pressed, date)
    case ReflectionSaved(text, mood, date) => AddReflection(s, text, mood, date)
  }

  /** The store after a sequence of interactions. */
  ghost function Run(s: Store, es: seq<Event>): Store
    decreases |es|
  {
    if es == [] then s else Run(Step(s, es[0]), es[1..])
  }

  // ---------------------------------------------------------------------
  // One interaction at a time

  lemma AddGoalEffect(s: Store, text: string, date: string)
    ensures text == "" ==> AddGoal(s, text, date) == s
    ensures text != "" ==> var t := AddGoal(s, text, date);
      |t.goals| == |s.goals| + 1 && t.goals[..|s.goals|] == s.goals
      && t.goals[|s.goals|] == Goal(text, date, InProgress)
      && t.reflections == s.reflections && t.achievements == s.achievements
  {
  }

  lemma CompleteGoalEffect(s: Store, idx: nat, date: string)
    requires idx < |s.goals|
    ensures var t := CompleteGoal(s, idx, date);
      |t.goals| == |s.goals|
      && t.goals[idx].status == Completed
      && t.goals[idx].goal == s.goals[idx].goal && t.goals[idx].date == s.goals[idx].date
      && (forall i :: 0 <= i < |s.goals| && i != idx ==> t.goals[i] == s.goals[i])
      && |t.achievements| == |s.achievements| + 1 && t.achievements[..|s.achievements|] == s.achievements
      && t.achievements[|s.achievements|].achievement == CompletedPrefix + s.goals[idx].goal
      && t.reflections == s.reflections
  {
  }

  /** There is no status guard: completing the same goal twice leaves it
      completed, with the same goals, but logs two achievements. */
  lemma CompleteGoalTwice(s: Store, idx: nat, d1: string, d2: string)
    requires idx < |s.goals|
    ensures var t := CompleteGoal(CompleteGoal(s, idx, d1), idx, d2);
      t.goals == CompleteGoal(s, idx, d1).goals
      && t.achievements == s.achievements + [Achievement(AchievementText(s.goals[idx].goal), d1),
                                             Achievement(AchievementText(s.goals[idx].goal), d2)]
  {
  }

  /** Pressing goal idx's own button completes goal idx; a key naming a
      position past the end changes nothing. */
  lemma PressCompleteEffect(s: Store, k: nat, date: string)
    ensures k < |s.goals| ==> PressComplete(s, Some(CompleteKey(k)), date) == CompleteGoal(s, k, date)
    ensures |s.goals| <= k ==> PressComplete(s, Some(CompleteKey(k)), date) == s
  {
    if k < |s.goals| {
      PressedIndexOfKey(k, |s.goals|);
    } else {
      PressedIndexOutOfRange(k, |s.goals|);
    }
  }

  lemma AddReflectionEffect(s: Store, text: string, mood: Mood, date: string)
    ensures text == "" ==> AddReflection(s, text, mood, date) == s
    ensures text != "" ==> var t := AddReflection(s, text, mood, date);
      |t.reflections| == |s.reflections| + 1 && t.reflections[..|s.reflections|] == s.reflections
      && t.reflections[|s.reflections|] == Reflection(text, mood, date)
      && t.goals == s.goals && t.achievements == s.achievements
  {
  }

  // ---------------------------------------------------------------------
  // What the tabs show after an interaction

  /** A saved reflection is shown first on the Reflections tab, above the
      earlier ones in their previous order. */
  lemma SavedReflectionShownFirst(s: Store, text: string, mood: Mood, date: string)
    requires text != ""
    ensures NewestFirst(AddReflection(s, text, mood, date).reflections)
         == [Reflection(text, mood, date)] + NewestFirst(s.reflections)
  {
    NewestFirstAppend(s.reflections, Reflection(text, mood, date));
  }

  /** A completion's achievement is shown first on the Progress tab. */
  lemma NewAchievementShownFirst(s: Store, idx: nat, date: string)
    requires idx < |s.goals|
    ensures NewestFirst(CompleteGoal(s, idx, date).achievements)
         == [Achievement(AchievementText(s.goals[idx].goal), date)] + NewestFirst(s.achievements)
  {
    NewestFirstAppend(s.achievements, Achievement(AchievementText(s.goals[idx].goal), date));
  }

  // ---------------------------------------------------------------------
  // Nothing is removed or reordered

  /** Goal g may have become h: same text and date, and completed stays completed. */
  predicate Persists(g: Goal, h: Goal)
  {
    h.goal == g.goal && h.date == g.date && (g.status == Completed ==> h.status == Completed)
  }

  /** t is s with entries possibly appended and goals possibly completed. */
  predicate Extends(s: Store, t: Store)
  {
    |s.goals| <= |t.goals|
    && (forall i :: 0 <= i < |s.goals| ==> Persists(s.goals[i], t.goals[i]))
    && s.reflections <= t.reflections
    && s.achievements <= t.achievements
  }

  lemma ExtendsTransitive(s: Store, t: Store, u: Store)
    requires Extends(s, t) && Extends(t, u)
    ensures Extends(s, u)
  {
  }

  lemma StepExtends(s: Store, e: Event)
    ensures Extends(s, Step(s, e))
  {
    match e
    case GoalSubmitted(text, date) =>
      AddGoalEffect(s, text, date);
    case GoalsShown(pressed, date) =>
      var i := PressedIndex(pressed, |s.goals|);
      if i.Some? {
        CompleteGoalEffect(s, i.value, date);
      }
    case ReflectionSaved(text, mood, date) =>
      AddReflectionEffect(s, text, mood, date);
  }

  /** Over any sequence of interactions every list only grows, earlier
      entries keep their place and content, and completed goals stay so. */
  lemma {:induction false} RunExtends(s: Store, es: seq<Event>)
    ensures Extends(s, Run(s, es))
    decreases |es|
  {
    if es == [] {
      assert Run(s, es) == s;
    } else {
      StepExtends(s, es[0]);
      RunExtends(Step(s, es[0]), es[1..]);
      ExtendsTransitive(s, Step(s, es[0]), Run(s, es));
    }
  }

  // ---------------------------------------------------------------------
  // Achievements come from completions

  /** Achievement k describes some completed goal. */
  predicate NamesCompletedGoal(s: Store, k: nat)
    requires k < |s.achievements|
  {
    exists j :: 0 <= j < |s.goals| && s.goals[j].status == Completed
      && s.achievements[k].achievement == AchievementText(s.goals[j].goal)
  }

  /** Every achievement names a completed goal, and there are at least as
      many achievements as completed goals. */
  predicate Consistent(s: Store)
  {
    CompletedCount(s.goals) <= |s.achievements|
    && forall k :: 0 <= k < |s.achievements| ==> NamesCompletedGoal(s, k)
  }

  lemma EmptyConsistent()
    ensures Consistent(Empty)
  {
  }

  lemma AddGoalConsistent(s: Store, text: string, date: string)
    requires Consistent(s)
    ensures Consistent(AddGoal(s, text, date))
  {
    var t := AddGoal(s, text, date);
    if text != "" {
      CompletedCountAppendInProgress(s.goals, Goal(text, date, InProgress));
      forall k | 0 <= k < |t.achievements|
        ensures NamesCompletedGoal(t, k)
      {
        assert NamesCompletedGoal(s, k);
        var j :| 0 <= j < |s.goals| && s.goals[j].status == Completed
          && s.achievements[k].achievement == AchievementText(s.goals[j].goal);
        assert t.goals[j] == s.goals[j];
      }
    }
  }

  lemma CompleteGoalConsistent(s: Store, idx: nat, date: string)
    requires Consistent(s) && idx < |s.goals|
    ensures Consistent(CompleteGoal(s, idx, date))
  {
    var t := CompleteGoal(s, idx, date);
    CompletedCountAfterComplete(s.goals, idx);
    forall k | 0 <= k < |t.achievements|
      ensures NamesCompletedGoal(t, k)
    {
      if k < |s.achievements| {
        assert NamesCompletedGoal(s, k);
        var j :| 0 <= j < |s.goals| && s.goals[j].status == Completed
          && s.achievements[k].achievement == AchievementText(s.goals[j].goal);
        assert t.goals[j].goal == s.goals[j].goal && t.goals[j].status == Completed;
        assert t.achievements[k] == s.achievements[k];
      } else {
        assert t.goals[idx].status == Completed;
        assert t.achievements[k].achievement == AchievementText(t.goals[idx].goal);
      }
    }
  }

  lemma AddReflectionConsistent(s: Store, text: string, mood: Mood, date: string)
    requires Consistent(s)
    ensures Consistent(AddReflection(s, text, mood, date))
  {
    var t := AddReflection(s, text, mood, date);
    forall k | 0 <= k < |t.achievements|
      ensures NamesCompletedGoal(t, k)
    {
      assert NamesCompletedGoal(s, k);
    }
  }

  lemma StepConsistent(s: Store, e: Event)
    requires Consistent(s)
    ensures Consistent(Step(s, e))
  {
    match e
    case GoalSubmitted(text, date) =>
      AddGoalConsistent(s, text, date);
    case GoalsShown(pressed, date) =>
      var i := PressedIndex(pressed, |s.goals|);
      if i.Some? {
        CompleteGoalConsistent(s, i.value, date);
      }
    case ReflectionSaved(text, mood, date) =>
      AddReflectionConsistent(s, text, mood, date);
  }

  /** In every session, each achievement names a completed goal and the
      completed slice of the chart never exceeds the achievements logged. */
  lemma {:induction false} RunConsistent(es: seq<Event>)
    ensures Consistent(Run(Empty, es))
  {
    EmptyConsistent();
    RunKeepsConsistent(Empty, es);
  }

  lemma {:induction false} RunKeepsConsistent(s: Store, es: seq<Event>)
    requires Consistent(s)
    ensures Consistent(Run(s, es))
    decreases |es|
  {
    if es != [] {
      StepConsistent(s, es[0]);
      RunKeepsConsistent(Step(s, es[0]), es[1..]);
    }
  }

  // ---------------------------------------------------------------------
  // A whole session

  /** Start empty, add "Learn Rust", press its Complete button: the goal is
      completed, one achievement names it, and the chart shows [1, 0]. */
  lemma LearnRustSession(d1: string, d2: string)
    ensures var t := Run(Empty, [GoalSubmitted("Learn Rust", d1), GoalsShown(Some(CompleteKey(0)), d2)]);
      t.goals == [Goal("Learn Rust", d1, Completed)]
      && t.achievements == [Achievement("Completed goal: Learn Rust", d2)]
      && t.reflections == []
      && CompletionChart(t.goals).value.values == [1, 0]
  {
    var es := [GoalSubmitted("Learn Rust", d1), GoalsShown(Some(CompleteKey(0)), d2)];
    var s1 := AddGoal(Empty, "Learn Rust", d1);
    assert Step(Empty, es[0]) == s1;
    PressCompleteEffect(s1, 0, d2);
    assert es[1..][1..] == [];
    assert Run(Empty, es) == Run(s1, es[1..]);
    var t := CompleteGoal(s1, 0, d2);
    assert Run(s1, es[1..]) == Run(t, []);
    assert CompletedGoals(t.goals) == [t.goals[0]] + CompletedGoals([]);
    assert AchievementText("Learn Rust") == "Completed goal: Learn Rust";
  }
}
