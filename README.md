# Growth Mindset Journey — the session record store

The Growth Mindset Journey page (`app.py`) keeps one record store per user
session: three lists in the session state, `goals`, `reflections` and
`achievements`. Its handlers change them in a few ways:

- "Add Goal" on the Dashboard and "Add" on the Goals tab append a goal
  `{goal, date, status: "In Progress"}` when the entered text is non-empty.
- Each goal on the Goals tab has a Complete button keyed `complete_<idx>`.
  Pressing it sets that goal's status to "Completed" and appends an
  achievement "Completed goal: <text>". The status is not checked first, so
  pressing it again logs another achievement.
- "Save Reflection" appends `{reflection, mood, date}` when the text is
  non-empty. The mood is one of five slider symbols.
- The Goals tab lists goals in insertion order. The Reflections and Progress
  tabs list reflections and achievements most recent first.
- The Progress tab counts completed goals. When there is at least one goal,
  it draws a pie chart with slices `[completed, total - completed]` named
  `['Completed', 'In Progress']`.

The project has these modules:

- `Records` (records.dfy): the record types, the status labels, the mood
  scale and the achievement text.
- `WidgetKeys` (widget_keys.dfy): the Complete button keys. Their decimal
  numerals read back to the index, so no two goals share a key.
- `Display` (display.dfy): the display orders.
- `Progress` (progress.dfy): the completed count and the chart.
- `Session` (session.dfy): the store as a value and one pure function per
  interaction. It also proves what holds over a whole session of
  interactions: lists only grow, completed goals stay completed, and every
  achievement names a completed goal.
- `SessionState` (session_state.dfy): the class `RecordStore`. It holds the
  three lists as `seq` fields, and its methods update them in place.
  `ShowGoals` is the page's `for idx, goal in enumerate(goals)` loop with
  its keyed Complete buttons.

Dates are inputs: the page reads the clock, and the model takes the date
string as a parameter. A button press is an input too: `ShowGoals` takes
the key of the pressed button, or `None` when nothing was pressed.

Two behaviours of `app.py` are worth stating outright:

- Every press of a goal's Complete button appends an achievement, even when
  the goal is already completed (`Session.CompleteGoalTwice`).
- Only listed goals get a Complete button, so a key for a position past the
  end completes nothing (`Session.PressCompleteEffect`).

A goal or reflection text counts as entered when it is a non-empty string,
which is what the page's `if goal:` and `if reflection:` test; text made of
spaces only is therefore added.

## Model

| member | source | states |
|---|---|---|
| `Records.Status.Label` | app.py:232 | The status strings are "In Progress" and "Completed", and "Completed" is exactly the completed status |
| `Records.Mood.Symbol` | app.py:277-280 | A mood's symbol is in the five-symbol slider scale, at the mood's position |
| `Records.SymbolDeterminesMood` | app.py:277-280 | Two moods store the same symbol if and only if they are the same slider position |
| `Records.AchievementText` | app.py:266 | An achievement description is "Completed goal: " followed by a copy of the goal's text |
| `Records.AchievementTextInjective` | app.py:266 | Two goal texts give the same achievement description if and only if they are equal |
| `WidgetKeys.ParseDecimalInverts` | app.py:263 | Reading back the decimal numeral of an index gives that index |
| `WidgetKeys.CompleteKey` | app.py:263 | A Complete key is "complete_" followed by the decimal numeral of the goal's position |
| `WidgetKeys.CompleteKeyInjective` | app.py:263 | Two Complete keys are equal if and only if their positions are equal |
| `WidgetKeys.PressedIndex` | app.py:259-263 | A press selects a listed goal exactly when the pressed key is the key of some position below the goal count, and it selects that position |
| `WidgetKeys.PressedIndexOfKey` | app.py:259-263 | Pressing goal i's button selects goal i and no other |
| `WidgetKeys.PressedIndexOutOfRange` | app.py:259-263 | A key for a position past the last goal selects nothing |
| `Display.NewestFirst` | app.py:292 | The display order has the same length as the list, and entry k is the list's entry counted k from the end |
| `Display.NewestFirstAppend` | app.py:304 | A newly appended entry is displayed first, and the earlier entries keep their display order after it |
| `Display.NewestFirstInvolutive` | app.py:292 | Reversing the display order gives back insertion order, so nothing is lost or repeated |
| `Display.GoalRows` | app.py:259-263 | The Goals tab has one row per goal in insertion order, with the goal's text, its date and its own Complete key |
| `Display.GoalRowKeysDistinct` | app.py:263 | No two goal rows share a Complete key |
| `Display.GoalRowsIgnoreStatus` | app.py:259-264 | Changing a goal's status does not change the Goals tab rows |
| `Progress.CompletedGoals` | app.py:315 | The filtered list is no longer than the goal list, and a goal is in it if and only if it is in the goal list with status Completed |
| `Progress.CompletedGoalsMultiplicity` | app.py:315 | Each completed goal occurs in the filtered list as often as in the goal list, and no other goal occurs, so identical goals are each counted |
| `Progress.CompletedCountAll` | app.py:315-316 | The completed count equals the total if and only if every goal is completed |
| `Progress.CompletedCountAfterComplete` | app.py:264 | Completing a goal raises the completed count by one if the goal was in progress, and leaves it unchanged otherwise |
| `Progress.CompletedCountAppendInProgress` | app.py:229-233 | Appending a goal that is in progress does not change the completed count |
| `Progress.CompletionChart` | app.py:315-323 | A chart is produced exactly when there is at least one goal; its slices are the completed count and the rest, both non-negative and summing to the total, named Completed and In Progress, with the title "Goal Completion Rate" |
| `Progress.ChartOfOneInThree` | app.py:317-321 | Three goals with one completed give slices [1, 2] |
| `Session.AddGoalEffect` | app.py:223-234 | Empty text changes nothing. Non-empty text appends exactly one goal with that text, the date and In Progress; earlier goals, reflections and achievements are unchanged |
| `Session.CompleteGoalEffect` | app.py:263-268 | Completing goal idx marks it Completed and keeps its text and date, every other goal and the goal count; it appends exactly one achievement, "Completed goal: " plus the goal's text; reflections are unchanged |
| `Session.CompleteGoalTwice` | app.py:263-268 | Completing the same goal twice leaves the goals as after once, but logs two achievements |
| `Session.PressCompleteEffect` | app.py:259-268 | Pressing goal k's key completes goal k; a key past the last goal changes nothing |
| `Session.AddReflectionEffect` | app.py:276-287 | Empty text changes nothing. Non-empty text appends exactly one reflection with that text, mood and date; goals and achievements are unchanged |
| `Session.SavedReflectionShownFirst` | app.py:283-292 | A saved reflection is displayed first, followed by the earlier reflections in their previous display order |
| `Session.NewAchievementShownFirst` | app.py:265-304 | A completion's achievement is displayed first on the Progress tab, followed by the earlier ones in their previous order |
| `Session.StepExtends` | app.py:229-287 | Every interaction only appends entries and completes goals. Existing goals keep their text, date and completed status, and existing reflections and achievements are a prefix of the new lists |
| `Session.RunExtends` | app.py:164-169 | Over any sequence of interactions, the lists only grow, earlier entries keep their place and content, and completed goals stay completed |
| `Session.EmptyConsistent` | app.py:164-169 | The initial empty store satisfies the achievement invariant |
| `Session.AddGoalConsistent` | app.py:249-254 | Adding a goal keeps the invariant: every achievement names a completed goal, and there are no more completed goals than achievements |
| `Session.CompleteGoalConsistent` | app.py:263-268 | Completing a goal keeps that invariant |
| `Session.AddReflectionConsistent` | app.py:283-287 | Saving a reflection keeps that invariant |
| `Session.StepConsistent` | app.py:223-287 | Every interaction keeps that invariant |
| `Session.RunConsistent` | app.py:164-169 | In every session starting empty, each achievement names a completed goal, and there are no more completed goals than achievements |
| `Session.LearnRustSession` | app.py:229-268 | Start empty, add "Learn Rust", press its Complete button: the goal is Completed, the only achievement is "Completed goal: Learn Rust", and the chart shows [1, 0] |
| `SessionState.RecordStore.constructor` | app.py:164-169 | A new session's store has three empty lists and satisfies the invariant |
| `SessionState.RecordStore.AddGoal` | app.py:248-255 | Reports whether the text was non-empty; the new state is the old state with the goal appended exactly then; the invariant is kept |
| `SessionState.RecordStore.CompleteGoal` | app.py:263-268 | The new state is the old state with goal idx marked Completed and one achievement appended; the invariant is kept |
| `SessionState.RecordStore.ShowGoals` | app.py:258-269 | Returns the goal rows in insertion order. Only the goal whose own key was pressed is completed; with no matching key, nothing changes |
| `SessionState.RecordStore.AddReflection` | app.py:276-288 | Reports whether the text was non-empty; the new state is the old state with the reflection appended exactly then; the invariant is kept |

## Left out

- Page layout, CSS, navigation menu, expanders, success and info messages,
  and the footer (app.py:1-161, 193-221, 336-342). These are presentation
  only.
- The choice between the Dashboard and the Goals tab. Both goal-adding paths
  (app.py:223-234 and app.py:248-255) run the same code, and
  `RecordStore.AddGoal` models both.
- The quick-action choices "Write a reflection" and "Log an achievement"
  (app.py:220). No input or behaviour is attached to them.
- The random quote of the day (app.py:172-178, 215). It is a random choice
  with no effect on the store.
- The animation downloads (app.py:180-191, 237-238, 333-334). These are
  network I/O through `requests`.
- The clock. `datetime.now().strftime("%Y-%m-%d")` is replaced by a date
  string parameter.
- The floating-point percentage `progress` (app.py:318). It is computed but
  never used.
- The plotly figure's layout and rendering (app.py:319-330). The model keeps
  only the slice values, the slice names and the title.
- The `mobile_view` column switch (app.py:206-210, 308-312). It is
  presentation only.
- Rendering of the reflection and achievement lines themselves
  (app.py:293-296, 305). The model keeps only their order, `NewestFirst`.
