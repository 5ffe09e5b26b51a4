/**
 * The work/break countdown timer (the `timer` object and its handlers).
 * `TimerState` and the `After...` functions state what each handler and
 * each tick does; the class `Timer` is the shared `timer` object, whose
 * methods update its fields in place. The repeating one-second interval of
 * the browser is replaced by the `running` flag and explicit calls of
 * `Tick`.
 */
module Pomodoro {
  import Progress

  datatype Mode = Work | Break

  /** The two session lengths the app starts with: 25 and 5 minutes, in seconds. */
  const DefaultWork: int := 25 * 60
  const DefaultBreak: int := 5 * 60

  datatype TimerState = TimerState(
    running: bool,
    mode: Mode,
    workDuration: int,
    breakDuration: int,
    remaining: int,
    rounds: int)

  /** The timer at page load: stopped, in work mode, a full work session left, no rounds. */
  const InitialTimer := TimerState(false, Work, DefaultWork, DefaultBreak, DefaultWork, 0)

  /** The full length of a session in mode `m`. */
  function Duration(t: TimerState, m: Mode): int {
    if m == Work then t.workDuration else t.breakDuration
  }

  function Other(m: Mode): Mode {
    if m == Work then Break else Work
  }

  /** Positive session lengths, a countdown within the current session, a round count that is not negative. */
  predicate WellFormed(t: TimerState) {
    t.workDuration > 0 && t.breakDuration > 0
    && 0 <= t.remaining <= Duration(t, t.mode)
    && t.rounds >= 0
  }

  /** The tick ends a work session, and so earns the round reward. */
  predicate CompletesRound(t: TimerState) {
    t.running && t.remaining <= 0 && t.mode == Work
  }

  /**
   * `tick`: nothing while stopped; otherwise one second off the countdown,
   * or, once it has reached zero, a switch to the other mode with a full
   * session and no decrement in the same tick. Only a switch out of work
   * mode counts a round. Its properties are stated by `TickKeepsWellFormed`,
   * `StoppedTimerIgnoresTicks`, `CountDown`, `WorkSessionEnds`, `BreakEnds`
   * and `TickSwitchesAtOrBelowZero`.
   */
  function AfterTick(t: TimerState): TimerState
  {
    if !t.running then t
    else if t.remaining <= 0 then
      if t.mode == Work then t.(mode := Break, remaining := t.breakDuration, rounds := t.rounds + 1)
      else t.(mode := Work, remaining := t.workDuration)
    else t.(remaining := t.remaining - 1)
  }

  /** A tick keeps the timer well formed and adds one to the rounds exactly when it ends a work session. */
  lemma TickKeepsWellFormed(t: TimerState)
    ensures AfterTick(t).rounds == t.rounds + (if CompletesRound(t) then 1 else 0)
    ensures WellFormed(t) ==> WellFormed(AfterTick(t))
  {
  }

  /**
   * A running timer at zero or below switches on its next tick, whatever the
   * sign of the count: the other mode with its full session, one more round
   * when the switch leaves work mode, and no decrement.
   */
  lemma TickSwitchesAtOrBelowZero(t: TimerState)
    requires t.running && t.remaining <= 0
    ensures AfterTick(t) == t.(mode := Other(t.mode), remaining := Duration(t, Other(t.mode)),
                               rounds := t.rounds + (if t.mode == Work then 1 else 0))
  {
  }

  /** The start button: the timer runs afterwards, whether or not it ran before; nothing else changes. */
  function AfterStart(t: TimerState): (r: TimerState)
    ensures r == t.(running := true)
    ensures t.running ==> r == t
  {
    if t.running then t else t.(running := true)
  }

  /** The pause button: the timer is stopped and nothing else changes. */
  function AfterPause(t: TimerState): (r: TimerState)
    ensures !r.running
    ensures r.(running := t.running) == t
  {
    t.(running := false)
  }

  /** The reset button: stopped, work mode, a full work session, no rounds; the session lengths stay. */
  function AfterReset(t: TimerState): (r: TimerState)
    ensures !r.running && r.mode == Work && r.remaining == t.workDuration && r.rounds == 0
    ensures r.workDuration == t.workDuration && r.breakDuration == t.breakDuration
    ensures WellFormed(t) ==> WellFormed(r)
  {
    t.(running := false, mode := Work, remaining := t.workDuration, rounds := 0)
  }

  /**
   * The switch-mode button: the other mode with its full session; the
   * running flag, the rounds and the session lengths stay.
   */
  function AfterSwitch(t: TimerState): (r: TimerState)
    ensures r.mode == Other(t.mode) && r.remaining == Duration(t, r.mode)
    ensures r.running == t.running && r.rounds == t.rounds
    ensures r.workDuration == t.workDuration && r.breakDuration == t.breakDuration
    ensures WellFormed(t) ==> WellFormed(r)
  {
    if t.mode == Work then t.(mode := Break, remaining := t.breakDuration)
    else t.(mode := Work, remaining := t.workDuration)
  }

  /**
   * Switching twice comes back to the original mode with a full session, so
   * it restores the timer exactly when its session was full.
   */
  lemma SwitchTwice(t: TimerState)
    ensures AfterSwitch(AfterSwitch(t)).mode == t.mode
    ensures AfterSwitch(AfterSwitch(t)) == t.(remaining := Duration(t, t.mode))
  {
  }

  // ---------------------------------------------------------------------
  // Runs of ticks
  // ---------------------------------------------------------------------

  /** The timer after `n` ticks. */
  function TickTimes(t: TimerState, n: nat): TimerState
    decreases n
  {
    if n == 0 then t else TickTimes(AfterTick(t), n - 1)
  }

  /** How many of the next `n` ticks end a work session (each one a round-completed event). */
  function RoundsIn(t: TimerState, n: nat): nat
    decreases n
  {
    if n == 0 then 0 else (if CompletesRound(t) then 1 else 0) + RoundsIn(AfterTick(t), n - 1)
  }

  /** The stats after the next `n` ticks, each round-ending tick adding the round reward. */
  function StatsAfterTicks(t: TimerState, s: Progress.Stats, n: nat): Progress.Stats
    decreases n
  {
    if n == 0 then s
    else StatsAfterTicks(AfterTick(t), if CompletesRound(t) then Progress.AfterRound(s) else s, n - 1)
  }

  lemma {:induction false} TickTimesSplit(t: TimerState, a: nat, b: nat)
    ensures TickTimes(t, a + b) == TickTimes(TickTimes(t, a), b)
    ensures RoundsIn(t, a + b) == RoundsIn(t, a) + RoundsIn(TickTimes(t, a), b)
    decreases a
  {
    if a > 0 {
      TickTimesSplit(AfterTick(t), a - 1, b);
    }
  }

  /** Two runs of ticks, one after the other, make one run. */
  lemma ChainTicks(t: TimerState, a: nat, b: nat, n: nat, mid: TimerState, last: TimerState, ra: nat, rb: nat)
    requires TickTimes(t, a) == mid && RoundsIn(t, a) == ra
    requires TickTimes(mid, b) == last && RoundsIn(mid, b) == rb
    requires n == a + b
    ensures TickTimes(t, n) == last && RoundsIn(t, n) == ra + rb
  {
    TickTimesSplit(t, a, b);
  }

  /** A stopped timer ignores any number of ticks. */
  lemma {:induction false} StoppedTimerIgnoresTicks(t: TimerState, n: nat)
    requires !t.running
    ensures TickTimes(t, n) == t && RoundsIn(t, n) == 0
    decreases n
  {
    if n > 0 {
      StoppedTimerIgnoresTicks(t, n - 1);
    }
  }

  /** A running timer counts down one second per tick until it reads zero, with no event on the way. */
  lemma {:induction false} CountDown(t: TimerState, k: nat)
    requires t.running && k <= t.remaining
    ensures TickTimes(t, k) == t.(remaining := t.remaining - k) && RoundsIn(t, k) == 0
    decreases k
  {
    if k > 0 {
      CountDown(AfterTick(t), k - 1);
    }
  }

  /**
   * From `remaining` seconds left in a work session, the session ends on
   * tick `remaining + 1`: break mode with a full break, one more round, and
   * exactly one round-completed event.
   */
  lemma WorkSessionEnds(t: TimerState)
    requires t.running && t.mode == Work && t.remaining >= 0
    ensures TickTimes(t, t.remaining + 1) == t.(mode := Break, remaining := t.breakDuration, rounds := t.rounds + 1)
    ensures RoundsIn(t, t.remaining + 1) == 1
  {
    var zero := t.(remaining := 0);
    assert TickTimes(t, t.remaining) == zero && RoundsIn(t, t.remaining) == 0 by {
      CountDown(t, t.remaining);
    }
    assert TickTimes(zero, 1) == AfterTick(zero) && RoundsIn(zero, 1) == 1;
    TickTimesSplit(t, t.remaining, 1);
  }

  /** A break ends on tick `remaining + 1`: work mode with a full session, rounds unchanged, no event. */
  lemma BreakEnds(t: TimerState)
    requires t.running && t.mode == Break && t.remaining >= 0
    ensures TickTimes(t, t.remaining + 1) == t.(mode := Work, remaining := t.workDuration)
    ensures RoundsIn(t, t.remaining + 1) == 0
  {
    var zero := t.(remaining := 0);
    assert TickTimes(t, t.remaining) == zero && RoundsIn(t, t.remaining) == 0 by {
      CountDown(t, t.remaining);
    }
    assert TickTimes(zero, 1) == AfterTick(zero) && RoundsIn(zero, 1) == 0;
    TickTimesSplit(t, t.remaining, 1);
  }

  /**
   * A full cycle from the start of a work session takes `work + 1 + break + 1`
   * ticks, brings the timer back to where it was with one more round, and
   * fires one round-completed event.
   */
  lemma FullCycle(t: TimerState)
    requires t.running && t.mode == Work && t.remaining == t.workDuration >= 0 && t.breakDuration >= 0
    ensures TickTimes(t, t.workDuration + 1 + t.breakDuration + 1) == t.(rounds := t.rounds + 1)
    ensures RoundsIn(t, t.workDuration + 1 + t.breakDuration + 1) == 1
  {
    var mid := t.(mode := Break, remaining := t.breakDuration, rounds := t.rounds + 1);
    var last := mid.(mode := Work, remaining := mid.workDuration);
    assert TickTimes(t, t.remaining + 1) == mid && RoundsIn(t, t.remaining + 1) == 1 by {
      WorkSessionEnds(t);
    }
    assert TickTimes(mid, mid.remaining + 1) == last && RoundsIn(mid, mid.remaining + 1) == 0 by {
      BreakEnds(mid);
    }
    ChainTicks(t, t.remaining + 1, mid.remaining + 1, t.workDuration + 1 + t.breakDuration + 1, mid, last, 1, 0);
  }

  /** The round counter counts the round-completed events exactly. */
  lemma {:induction false} RoundsCountEvents(t: TimerState, n: nat)
    ensures TickTimes(t, n).rounds == t.rounds + RoundsIn(t, n)
    decreases n
  {
    if n > 0 {
      RoundsCountEvents(AfterTick(t), n - 1);
    }
  }

  /** Any run of ticks keeps the timer well formed. */
  lemma {:induction false} TicksKeepWellFormed(t: TimerState, n: nat)
    requires WellFormed(t)
    ensures WellFormed(TickTimes(t, n))
    decreases n
  {
    if n > 0 {
      TicksKeepWellFormed(AfterTick(t), n - 1);
    }
  }

  /** Ticking adds 5 XP per round-completed event and changes no other counter. */
  lemma {:induction false} TicksEarnRoundXp(t: TimerState, s: Progress.Stats, n: nat)
    ensures StatsAfterTicks(t, s, n) == s.(xp := s.xp + Progress.RoundXp * RoundsIn(t, n))
    decreases n
  {
    if n > 0 {
      var s' := if CompletesRound(t) then Progress.AfterRound(s) else s;
      TicksEarnRoundXp(AfterTick(t), s', n - 1);
    }
  }

  /**
   * With the default lengths: start after a reset, 1501 ticks reach a full
   * break with one round, and 301 more return to a full work session, still
   * one round, having earned 5 XP once.
   */
  lemma DefaultSession(s: Progress.Stats)
    ensures var t := AfterStart(AfterReset(InitialTimer));
            TickTimes(t, 1501) == t.(mode := Break, remaining := 300, rounds := 1)
            && TickTimes(t, 1501 + 301) == t.(rounds := 1)
            && StatsAfterTicks(t, s, 1501 + 301) == s.(xp := s.xp + 5)
  {
    var t := AfterStart(AfterReset(InitialTimer));
    WorkSessionEnds(t);
    FullCycle(t);
    TicksEarnRoundXp(t, s, 1501 + 301);
  }

  /** The shared `timer` object; its interval handle is replaced by the `running` flag. */
  class Timer {
    var running: bool
    var mode: Mode
    var workDuration: int
    var breakDuration: int
    var remaining: int
    var rounds: int

    function Snapshot(): TimerState
      reads this
    {
      TimerState(running, mode, workDuration, breakDuration, remaining, rounds)
    }

    constructor ()
      ensures Snapshot() == InitialTimer && WellFormed(Snapshot())
    {
      running := false;
      mode := Work;
      workDuration := DefaultWork;
      breakDuration := DefaultBreak;
      remaining := DefaultWork;
      rounds := 0;
    }

    /** One call of `tick`; a tick that ends a work session also adds the round reward to `stats`. */
    method Tick(stats: Progress.Tracker)
      modifies this, stats
      ensures Snapshot() == AfterTick(old(Snapshot()))
      ensures stats.Snapshot() ==
              if CompletesRound(old(Snapshot())) then Progress.AfterRound(old(stats.Snapshot()))
              else old(stats.Snapshot())
    {
      if !running {
        return;
      }
      if remaining <= 0 {
        if mode == Work {
          mode := Break;
          remaining := breakDuration;
          rounds := rounds + 1;
          stats.RewardRound();
        } else {
          mode := Work;
          remaining := workDuration;
        }
        return;
      }
      remaining := remaining - 1;
    }

    method Start()
      modifies this
      ensures Snapshot() == AfterStart(old(Snapshot()))
    {
      if running {
        return;
      }
      running := true;
    }

    method Pause()
      modifies this
      ensures Snapshot() == AfterPause(old(Snapshot()))
    {
      running := false;
    }

    method Reset()
      modifies this
      ensures Snapshot() == AfterReset(old(Snapshot()))
    {
      running := false;
      mode := Work;
      remaining := workDuration;
      rounds := 0;
    }

    method SwitchMode()
      modifies this
      ensures Snapshot() == AfterSwitch(old(Snapshot()))
    {
      if mode == Work {
        mode := Break;
        remaining := breakDuration;
      } else {
        mode := Work;
        remaining := workDuration;
      }
    }
  }
}
