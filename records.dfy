/** The three kinds of record a growth-journal session keeps: goals,
    reflections and achievements, with the fixed vocabularies they use
    (goal status labels, the five-symbol mood scale, the achievement text). */
module Records {

  datatype Option<+T> = None | Some(value: T)

  /** A goal is created "In Progress" and may later be marked "Completed". */
  datatype Status = InProgress | Completed {
    /** The string the page stores in a goal's "status" entry. */
    function Label(): (l: string)
      ensures l == "In Progress" || l == "Completed"
      ensures (l == "Completed") == Completed?
    {
      match this
      case InProgress => "In Progress"
      case Completed => "Completed"
    }
  }

  datatype Goal = Goal(goal: string, date: string, status: Status)

  /** The mood slider's five positions, worst to best. */
  datatype Mood = Pensive | Neutral | SlightSmile | Smiling | Star {
    /** Position on the slider, 0 for the leftmost symbol. */
    function Rank(): (k: nat)
      ensures k < |MoodScale|
    {
      match this
      case Pensive => 0
      case Neutral => 1
      case SlightSmile => 2
      case Smiling => 3
      case Star => 4
    }

    /** The emoji the slider shows and the page stores in "mood". */
    function Symbol(): (s: string)
      ensures s in MoodScale
      ensures MoodScale[Rank()] == s
    {
      match this
      case Pensive => "\U{1F614}"
      case Neutral => "\U{1F610}"
      case SlightSmile => "\U{1F642}"
      case Smiling => "\U{1F60A}"
      case Star => "\U{1F31F}"
    }
  }

  /** The slider's options, in the order the page lists them. */
  const MoodScale: seq<string> := ["\U{1F614}", "\U{1F610}", "\U{1F642}", "\U{1F60A}", "\U{1F31F}"]

  /** Distinct slider positions store distinct symbols, so the stored
      mood determines the position the user chose. */
  lemma SymbolDeterminesMood(m: Mood, n: Mood)
    ensures m.Symbol() == n.Symbol() <==> m == n
  {
  }

  datatype Reflection = Reflection(reflection: string, mood: Mood, date: string)

  datatype Achievement = Achievement(achievement: string, date: string)

  const CompletedPrefix: string := "Completed goal: "

  /** The description of the achievement logged when a goal is completed:
      a copy of the goal's text behind a fixed prefix. */
  function AchievementText(goal: string): (t: string)
    ensures |t| == |CompletedPrefix| + |goal|
    ensures t[..|CompletedPrefix|] == CompletedPrefix && t[|CompletedPrefix|..] == goal
  {
    CompletedPrefix + goal
  }

  /** Different goal texts give different achievement descriptions. */
  lemma AchievementTextInjective(g: string, h: string)
    ensures AchievementText(g) == AchievementText(h) <==> g == h
  {
  }
}
