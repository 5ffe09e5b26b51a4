/**
 * The progress counters of the app (`stats`): experience points, the number
 * of completed tasks, the daily streak and the day of the last completion.
 * The value type `Stats` and the `After...` functions say what each update
 * does; the class `Tracker` is the shared, mutable `stats` object whose
 * methods perform those updates in place.
 */
module Progress {
  import opened Basics

  /** XP for completing a task that belongs to a goal. */
  const GoalTaskXp: nat := 15
  /** XP for completing a task without a goal. */
  const PlainTaskXp: nat := 8
  /** XP for finishing a work session of the timer. */
  const RoundXp: nat := 5

  datatype Stats = Stats(xp: int, completedToday: int, streak: int, lastCompleteDate: Option<Day>)

  /** The state of a first start and of a full reset: all counters zero, no completion day. */
  const Initial := Stats(0, 0, 0, None)

  /** The counters are never negative. */
  predicate Valid(s: Stats) {
    s.xp >= 0 && s.completedToday >= 0 && s.streak >= 0
  }

  function TaskReward(hasGoal: bool): nat {
    if hasGoal then GoalTaskXp else PlainTaskXp
  }

  /**
   * Checking a task on day `today`: 15 XP if it has a goal and 8 otherwise,
   * one more completion, `today` as the last completion day. The streak is
   * left as it is: no rule ever raises it.
   */
  function AfterCompletion(s: Stats, hasGoal: bool, today: Day): (r: Stats)
    ensures r.xp == s.xp + (if hasGoal then 15 else 8)
    ensures r.completedToday == s.completedToday + 1
    ensures r.streak == s.streak
    ensures r.lastCompleteDate == Some(today)
    ensures Valid(s) ==> Valid(r) && r.xp > s.xp
  {
    s.(xp := s.xp + TaskReward(hasGoal), completedToday := s.completedToday + 1, lastCompleteDate := Some(today))
  }

  /** A finished work session of the timer: 5 XP and nothing else. */
  function AfterRound(s: Stats): (r: Stats)
    ensures r.xp == s.xp + 5
    ensures r.completedToday == s.completedToday && r.streak == s.streak
    ensures r.lastCompleteDate == s.lastCompleteDate
    ensures Valid(s) ==> Valid(r)
  {
    s.(xp := s.xp + RoundXp)
  }

  /** The streak survives a load when there was no completion yet, or the last one was today or yesterday. */
  predicate StreakHolds(last: Option<Day>, today: Day) {
    match last
    case None => true
    case Some(d) => d == today || d == today - 1
  }

  /**
   * `updateStreakOnLoad`: the streak is kept when there is no completion
   * day, or it is today or yesterday; any other day (two or more days back,
   * or a day after today) sets it to zero. Nothing else changes.
   */
  function AfterReconcile(s: Stats, today: Day): (r: Stats)
    ensures r.xp == s.xp && r.completedToday == s.completedToday
    ensures r.lastCompleteDate == s.lastCompleteDate
    ensures s.lastCompleteDate == None ==> r == s
    ensures s.lastCompleteDate == Some(today) || s.lastCompleteDate == Some(today - 1) ==> r == s
    ensures s.lastCompleteDate.Some? && (s.lastCompleteDate.value < today - 1 || today < s.lastCompleteDate.value)
            ==> r.streak == 0
    ensures Valid(s) ==> Valid(r)
  {
    if StreakHolds(s.lastCompleteDate, today) then s else s.(streak := 0)
  }

  /** Reconciling twice on the same day is reconciling once. */
  lemma ReconcileIdempotent(s: Stats, today: Day)
    ensures AfterReconcile(AfterReconcile(s, today), today) == AfterReconcile(s, today)
  {
  }

  /**
   * A completion on day `d` keeps the streak through a reload on day `today`
   * exactly when `today` is `d` or the day after.
   */
  lemma CompletionSurvivesReload(s: Stats, hasGoal: bool, d: Day, today: Day)
    requires s.streak != 0
    ensures var c := AfterCompletion(s, hasGoal, d);
            AfterReconcile(c, today).streak == c.streak <==> today == d || today == d + 1
  {
  }

  // ---------------------------------------------------------------------
  // Sequences of updates
  // ---------------------------------------------------------------------

  /** Every way the app changes `stats`. */
  datatype Event =
    | TaskChecked(hasGoal: bool, day: Day)
    | RoundFinished
    | Loaded(day: Day)
    | ResetAll

  function Apply(s: Stats, e: Event): Stats {
    match e
    case TaskChecked(g, d) => AfterCompletion(s, g, d)
    case RoundFinished => AfterRound(s)
    case Loaded(d) => AfterReconcile(s, d)
    case ResetAll => Initial
  }

  /** The counters after the events `es`, in order. */
  function Replay(s: Stats, es: seq<Event>): Stats
    decreases |es|
  {
    if es == [] then s else Replay(Apply(s, es[0]), es[1..])
  }

  /** The XP the events `es` award, reset or not. */
  function Earned(es: seq<Event>): nat
    decreases |es|
  {
    if es == [] then 0
    else
      (match es[0]
       case TaskChecked(g, _) => TaskReward(g)
       case RoundFinished => RoundXp
       case _ => 0)
      + Earned(es[1..])
  }

  predicate NoReset(es: seq<Event>) {
    forall i :: 0 <= i < |es| ==> !es[i].ResetAll?
  }

  /**
   * The streak can only stay as it is or drop to zero: nothing in the app
   * raises it.
   */
  lemma {:induction false} StreakNeverRises(s: Stats, es: seq<Event>)
    ensures Replay(s, es).streak == s.streak || Replay(s, es).streak == 0
    decreases |es|
  {
    if es != [] {
      StreakNeverRises(Apply(s, es[0]), es[1..]);
    }
  }

  /** Without a reset, the XP grows by exactly the rewards of the events, so it never falls. */
  lemma {:induction false} XpAccounting(s: Stats, es: seq<Event>)
    requires NoReset(es)
    ensures Replay(s, es).xp == s.xp + Earned(es)
    ensures Replay(s, es).xp >= s.xp
    decreases |es|
  {
    if es != [] {
      assert NoReset(es[1..]) by {
        forall i | 0 <= i < |es| - 1 ensures !es[1..][i].ResetAll? {
          assert es[1..][i] == es[i + 1];
        }
      }
      XpAccounting(Apply(s, es[0]), es[1..]);
    }
  }

  /** No sequence of events makes a counter negative. */
  lemma {:induction false} ValidPreserved(s: Stats, es: seq<Event>)
    requires Valid(s)
    ensures Valid(Replay(s, es))
    decreases |es|
  {
    if es != [] {
      ValidPreserved(Apply(s, es[0]), es[1..]);
    }
  }

  /** The shared, mutable `stats` object. */
  class Tracker {
    var xp: int
    var completedToday: int
    var streak: int
    var lastCompleteDate: Option<Day>

    function Snapshot(): Stats
      reads this
    {
      Stats(xp, completedToday, streak, lastCompleteDate)
    }

    /** The counters as loaded from storage (or `Initial` on a first start). */
    constructor (loaded: Stats)
      ensures Snapshot() == loaded
    {
      xp := loaded.xp;
      completedToday := loaded.completedToday;
      streak := loaded.streak;
      lastCompleteDate := loaded.lastCompleteDate;
    }

    /** The stats part of the checkbox handler, for a task toggled to done. */
    method CompleteTask(hasGoal: bool, today: Day)
      modifies this
      ensures Snapshot() == AfterCompletion(old(Snapshot()), hasGoal, today)
    {
      xp := xp + TaskReward(hasGoal);
      completedToday := completedToday + 1;
      lastCompleteDate := Some(today);
    }

    /** The stats part of a tick that ends a work session. */
    method RewardRound()
      modifies this
      ensures Snapshot() == AfterRound(old(Snapshot()))
    {
      xp := xp + RoundXp;
    }

    /** `updateStreakOnLoad`, with `today` supplied by the caller. */
    method UpdateStreakOnLoad(today: Day)
      modifies this
      ensures Snapshot() == AfterReconcile(old(Snapshot()), today)
    {
      if lastCompleteDate.None? {
        return;
      }
      var last := lastCompleteDate.value;
      var yesterday := today - 1;
      if last == today {
        // already current
      } else if last == yesterday {
        // streak preserved
      } else {
        streak := 0;
      }
    }

    /** The stats part of "reset all": every counter back to zero, no completion day. */
    method Reset()
      modifies this
      ensures Snapshot() == Initial
    {
      xp, completedToday, streak, lastCompleteDate := 0, 0, 0, None;
    }
  }
}
