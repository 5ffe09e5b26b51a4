# GrowDay core logic in Dafny

GrowDay is a single-page, browser-local productivity tracker: a task list
tied to goals, a Pomodoro-style work/break timer, reflections, and a small
game layer of experience points (XP) and a daily streak. This project models
the logic of its one script, `script.js`, and proves properties of it:

- `pomodoro.dfy` (module `Pomodoro`): the timer. `TimerState` and the
  functions `AfterTick`, `AfterStart`, `AfterPause`, `AfterReset`,
  `AfterSwitch` say what a tick and each button does. The class `Timer` is
  the shared `timer` object: its fields are the source's fields, its methods
  update them in place, and each method's postcondition ties the new state
  to the matching function. The browser's repeating one-second interval is
  replaced by the `running` flag and explicit calls of `Timer.Tick`. Lemmas
  about runs of ticks (`TickTimes`) cover the countdown, the end of a work
  session, the end of a break and a full cycle.
- `progress.dfy` (module `Progress`): the `stats` object (XP, completed
  count, streak, last completion day). It has the value type `Stats`, the
  update functions, the class `Tracker` that performs them in place, and
  lemmas over any sequence of updates (`Replay`).
- `todos.dfy` (module `Todos`): the task list as functions on sequences of
  records (find, delete, clear completed, the new task). The class `Board`
  holds the shared `todos`, `goals` and `reflections` arrays and the
  `stats` object. Its methods are the button and checkbox handlers, and its
  constructor is the page-load sequence.
- `text.dfy` (module `Text`): `trim`, integer-to-decimal conversion,
  `padStart(2, '0')`, `formatMMSS` and `escapeHtml`, with the inverse
  readings (decimal value of a numeral, seconds of a clock text, decoding of
  entities) used to state what they produce.
- `basics.dfy` (module `Basics`): `Option` and the day type.

Calendar dates are whole day numbers (`Day`), and "yesterday" is
`today - 1`. What a dialog returns is a parameter: `prompt` gives an
`Option<string>` (`None` when cancelled), `confirm` gives a `bool`. Ids
(`'t_' + Date.now()` and the like), creation stamps and today's day are
also parameters. Saving to `localStorage` after an update is not modelled.
The in-memory state after each update is what would be saved.

Points where the model follows the code rather than a plain reading of the
feature:

- The timer switches phase on the tick that finds `remaining <= 0`, and that
  tick does no decrement. From a full work session of `w` seconds it takes
  `w + 1` ticks to reach the break, not `w` (`WorkSessionEnds`,
  `DefaultSession`: 1501 ticks for 25 minutes, then 301 for the break).
- No code ever raises `streak`. The checkbox handler computes an unused
  `last` and leaves a comment saying the increment is handled on load. The
  load-time check only keeps the streak or sets it to zero.
  `StreakNeverRises` proves that this holds for every sequence of updates.
  No increment rule is invented.
- `completedToday` is never reset when a new day starts. It only grows, and
  only "reset all" clears it.
- Every change of a checkbox to checked awards the completion again.
  Check, uncheck and check again pays twice (`RecheckAwardsAgain`).
- `updateStreakOnLoad` also resets the streak when the stored day is after
  today (a clock set back), since that day is neither today nor yesterday.
- Cancelling the add-goal dialog makes `prompt(...)` return `null`, and
  `null.trim()` throws a TypeError. The goal list is left unchanged. The
  model reports this as the outcome `CancelThrows`.
- The edit and checkbox handlers look the task up with `find`. When no task
  has the id they stop with an error. The model then changes nothing and
  returns `false`.

## Model

| member | source | states |
|---|---|---|
| `Text.SkipLeading` | script.js:185 | the first index at or after the start point that is not whitespace: everything skipped is whitespace and the character there is not |
| `Text.SkipTrailing` | script.js:185 | the end of a range once its whitespace suffix is dropped: everything dropped is whitespace and the character before the new end is not |
| `Text.Trim` | script.js:185 | `trim()` keeps a slice of the input with only whitespace before and after it, and the slice neither starts nor ends with whitespace; it is empty exactly when the input is all whitespace |
| `Text.TrimIdempotent` | script.js:152-153 | trimming an already trimmed text changes nothing |
| `Text.NatToDecimal` | script.js:284 | `toString()` of a non-negative integer is a digit string whose decimal value is the number, one digit below ten, no leading zero, at most two digits below 100 |
| `Text.IntToString` | script.js:285 | `toString()` of an integer: a numeral of its value, with a minus sign in front when negative, and no leading zero after the sign |
| `Text.PadStart2` | script.js:284-285 | `padStart(2,'0')` puts zeros in front until the text has two characters and keeps the text as its suffix |
| `Text.LeadingZeros` | script.js:284-285 | zeros in front of a numeral do not change its value |
| `Text.AllZeros` | script.js:284-285 | a string of zeros is a numeral of value zero |
| `Text.PadKeepsValue` | script.js:284-285 | zero padding keeps a numeral a numeral of the same value |
| `Text.Minutes` | script.js:284 | `Math.floor(s/60)` is the largest `q` with `60*q <= s` |
| `Text.SecondsRem` | script.js:285 | JavaScript `s % 60` lies strictly between -60 and 60, has the sign of `s`, and is `s` less 60 times the quotient truncated toward zero |
| `Text.FormatMMSS` | script.js:283-287 | minutes and remaining seconds, each zero-padded to two digits, joined by `:`; no `ensures` of its own: its properties are stated by `FormatMMSSReadsBack` and `FormatMMSSNegative` |
| `Text.FormatMMSSReadsBack` | script.js:283-287 | for a non-negative count `formatMMSS` gives digits, a colon and two digits that read back as exactly `s` seconds, with the seconds field below 60, five characters below 100 minutes, and no leading zero in a minutes field wider than the two-digit pad |
| `Text.FormatMMSSNegative` | script.js:283-287 | a negative count renders with a leading minus sign |
| `Text.ClockJoin` | script.js:286 | joining a minutes numeral and a two-digit seconds numeral with `:` gives a clock text worth `60 * minutes + seconds` |
| `Text.ReplaceAll` | script.js:369 | `replaceAll` of a one-character pattern, front to back; no `ensures` of its own: its properties are stated by `ReplaceAllAvoids`, `ReplaceAllAbsent` and `ReplaceAllConcat` |
| `Text.ReplaceAllAvoids` | script.js:369 | after `replaceAll` of one character, a character that is not in the replacement, and is either the replaced one or absent from the input, does not occur |
| `Text.ReplaceAllAbsent` | script.js:369 | a text without the pattern character comes back unchanged |
| `Text.EscapeHtml` | script.js:368-370 | the escaped text contains no `<` and no `>` |
| `Text.ReplaceAllConcat` | script.js:369 | replacing in a concatenation is concatenating the replacements |
| `Text.EscapeOne` | script.js:369 | escaping one character yields exactly its entity, since `&` is replaced before `<` and `>` |
| `Text.EscapeHtmlIsPerCharacter` | script.js:369 | the three sequential passes equal escaping each character independently |
| `Text.UnescapeEach` | script.js:368-370 | decoding the per-character escape restores the text |
| `Text.EscapeRoundTrip` | script.js:368-370 | un-escaping `&lt;`, `&gt;`, `&amp;` after `escapeHtml` restores the original text exactly |
| `Text.EscapeEachKeeps` | script.js:369 | escaping never shortens a text and keeps every character other than `&`, `<`, `>` |
| `Progress.AfterCompletion` | script.js:166-169 | checking a task adds 15 XP with a goal and 8 without, one completion, today as last completion day, streak unchanged; keeps the counters non-negative and raises XP |
| `Progress.AfterRound` | script.js:304 | a finished work session adds 5 XP and changes no other counter |
| `Progress.TaskReward` | script.js:167 | 15 XP for a task with a goal, 8 without; no `ensures` of its own: `AfterCompletion` and `XpAccounting` state what it adds |
| `Progress.StreakHolds` | script.js:387-390 | the streak survives when there is no completion day, or it is today or yesterday; no `ensures` of its own: `AfterReconcile` and `CompletionSurvivesReload` state its effect |
| `Progress.AfterReconcile` | script.js:382-396 | `updateStreakOnLoad` changes nothing when there is no completion day or it is today or yesterday, otherwise sets only the streak to 0 |
| `Progress.ReconcileIdempotent` | script.js:384-394 | a second reconciliation on the same day changes nothing |
| `Progress.CompletionSurvivesReload` | script.js:384-394 | after a completion on day `d`, a reload on day `today` keeps a non-zero streak exactly when `today` is `d` or `d + 1` |
| `Progress.StreakNeverRises` | script.js:165-173 | after any sequence of completions, round rewards, reloads and resets the streak is either what it was or 0 |
| `Progress.XpAccounting` | script.js:167 | without a reset, XP grows by exactly the rewards of the events and never falls |
| `Progress.ValidPreserved` | script.js:166-169 | no sequence of updates makes a counter negative |
| `Progress.Tracker.constructor` | script.js:22 | the tracker holds the loaded counters |
| `Progress.Tracker.CompleteTask` | script.js:166-169 | the in-place update is `AfterCompletion` of the old counters |
| `Progress.Tracker.RewardRound` | script.js:304 | the in-place update is `AfterRound` of the old counters |
| `Progress.Tracker.UpdateStreakOnLoad` | script.js:382-396 | the in-place update is `AfterReconcile` of the old counters |
| `Progress.Tracker.Reset` | script.js:226 | all counters zero and no completion day |
| `Pomodoro.AfterTick` | script.js:295-317 | one `tick`: nothing while stopped, one second off while time is left, otherwise a full session of the other mode with no decrement, a round counted on the work-to-break switch; no `ensures` of its own: its properties are stated by `TickKeepsWellFormed`, `StoppedTimerIgnoresTicks`, `CountDown`, `WorkSessionEnds`, `BreakEnds` and `TickSwitchesAtOrBelowZero` |
| `Pomodoro.TickKeepsWellFormed` | script.js:295-317 | one tick keeps the timer well formed and adds a round exactly when it ends a work session |
| `Pomodoro.TickSwitchesAtOrBelowZero` | script.js:296-313 | a running timer whose count is zero or negative switches on its next tick to the other mode with its full session, counting a round when it leaves work mode, and does not decrement |
| `Pomodoro.AfterStart` | script.js:319-324 | the timer runs afterwards and nothing else changes; starting a running timer is a no-op |
| `Pomodoro.AfterPause` | script.js:325-329 | the timer is stopped and nothing else changes |
| `Pomodoro.AfterReset` | script.js:330-338 | stopped, work mode, full work session, rounds 0, session lengths kept, well-formed |
| `Pomodoro.AfterSwitch` | script.js:342-353 | the other mode with its full session; running flag, rounds and lengths kept; well-formed |
| `Pomodoro.SwitchTwice` | script.js:342-351 | two switches restore the mode, and restore the timer exactly up to a full session |
| `Pomodoro.TickTimesSplit` | script.js:295-317 | `a + b` ticks are `a` ticks then `b` ticks, and the round events add up |
| `Pomodoro.StoppedTimerIgnoresTicks` | script.js:296 | any number of ticks of a stopped timer change nothing and fire no event |
| `Pomodoro.CountDown` | script.js:315 | a running timer loses one second per tick down to zero, with no event |
| `Pomodoro.WorkSessionEnds` | script.js:297-305 | from `k` seconds left in work mode, tick `k + 1` gives a full break, one more round and one event |
| `Pomodoro.BreakEnds` | script.js:307-310 | from `k` seconds left in a break, tick `k + 1` gives a full work session, rounds unchanged, no event |
| `Pomodoro.FullCycle` | script.js:295-317 | from a full work session, `w + 1 + b + 1` ticks return to the same state with one more round and one event |
| `Pomodoro.RoundsCountEvents` | script.js:302-304 | the round counter rises by exactly the number of round-completed events |
| `Pomodoro.TicksKeepWellFormed` | script.js:297-315 | positive lengths and `0 <= remaining <= duration of the mode` hold after any run of ticks |
| `Pomodoro.TicksEarnRoundXp` | script.js:304 | a run of ticks adds 5 XP per round-completed event and changes no other counter |
| `Pomodoro.DefaultSession` | script.js:265-273 | with 25 and 5 minutes, after reset and start, 1501 ticks give a full break with one round, 301 more give a full work session with one round, and 5 XP was earned once |
| `Pomodoro.Timer.constructor` | script.js:265-273 | the timer starts stopped in work mode with 1500 of 1500 seconds and no rounds |
| `Pomodoro.Timer.Tick` | script.js:295-317 | the new timer is `AfterTick` of the old one; the stats get `AfterRound` exactly when the tick ends a work session |
| `Pomodoro.Timer.Start` | script.js:319-324 | the new timer is `AfterStart` of the old one |
| `Pomodoro.Timer.Pause` | script.js:325-329 | the new timer is `AfterPause` of the old one |
| `Pomodoro.Timer.Reset` | script.js:330-338 | the new timer is `AfterReset` of the old one |
| `Pomodoro.Timer.SwitchMode` | script.js:342-353 | the new timer is `AfterSwitch` of the old one |
| `Todos.HasGoal` | script.js:167 | the truthiness test `t.goal ?`: a task has a goal when its goal name is not empty; no `ensures` of its own: `Board.SetDone` uses it to pick the reward |
| `Todos.FindIndex` | script.js:150 | `find` by id gives the first position holding that id, or none when no task has it |
| `Todos.FindIndexSameIds` | script.js:163-164 | changing fields other than the id does not move where a task is found |
| `Todos.Delete` | script.js:141 | the filtered list is never longer than the original |
| `Todos.DeleteKeeps` | script.js:141 | a task is in the filtered list exactly when it was in the list under another id |
| `Todos.DeleteAbsent` | script.js:141 | deleting an id no task has changes nothing |
| `Todos.DoneCount` | script.js:125 | the completed count is at most the total and zero exactly when no task is done |
| `Todos.ClearCompleted` | script.js:218 | `before - after` is the completed count |
| `Todos.ClearCompletedKeeps` | script.js:218 | a task is in the cleared list exactly when it was in the list and open |
| `Todos.ClearCompletedIdempotent` | script.js:218 | clearing twice is clearing once |
| `Todos.DeleteAppend` | script.js:141 | deleting from a concatenation deletes from each part |
| `Todos.ClearCompletedAppend` | script.js:218 | clearing a concatenation clears each part |
| `Todos.NewTask` | script.js:185-195 | no task for an all-whitespace input; otherwise the trimmed title, the goal, empty note, not done |
| `Todos.DeleteUndoesAdd` | script.js:141 | deleting a task just added under a new id restores the list |
| `Todos.ClearCompletedKeepsNewTask` | script.js:193 | a just-added task is open and survives clearing completed tasks |
| `Todos.SampleGoal` | script.js:398-402 | the sample goal `g_sample` named `Belajar 1 jam/hari` with the creation stamp; no `ensures` of its own: `Board.Load` states when it is added |
| `Todos.Board.Load` | script.js:398-405 | the stored collections, the sample goal when there are no goals, and the stats after `updateStreakOnLoad` |
| `Todos.Board.AddTask` | script.js:184-201 | the task of `NewTask` is appended when there is one, otherwise nothing changes |
| `Todos.Board.EditTask` | script.js:147-159 | the found task gets the trimmed answer as title when the answer is not empty; a cancelled or blank answer or an unknown id changes nothing |
| `Todos.Board.SetDone` | script.js:160-178 | the found task's `done` follows the checkbox; a check awards `AfterCompletion` by the task's goal, an uncheck changes no stats; an unknown id changes nothing |
| `Todos.Board.DeleteTask` | script.js:138-146 | the list becomes `Delete` of the old list |
| `Todos.Board.ClearCompletedTasks` | script.js:216-222 | the list becomes `ClearCompleted` of the old list and the count shown is the number of completed tasks |
| `Todos.Board.AddGoal` | script.js:203-211 | a cancelled dialog throws and a blank name is ignored, both leaving the goals unchanged; otherwise the trimmed name is appended |
| `Todos.Board.SaveReflection` | script.js:242-251 | a non-blank trimmed text is appended, anything else changes nothing |
| `Todos.Board.ResetAll` | script.js:224-233 | after confirmation every collection is empty and the stats are `Initial`; without it nothing changes |
| `Todos.RecheckAwardsAgain` | script.js:164-169 | check, uncheck, check of one task awards the completion twice |

## Left out

- Rendering (`renderTodos`, `renderGoals`, `renderReflections`, `renderQuote`, `renderTimer`, the text of `updateSummary`) and `toast`: user interface only.
- The progress percentage `Math.round(done / total * 100)` (script.js:129): floating point. The model only has the completed count it is computed from (`DoneCount`).
- `localStorage` and `saveLS`/`loadLS`: browser persistence. The constructor `Board.Load` takes the loaded values as parameters. What is stored is assumed to be well-typed: a missing `completedToday`, which `(x || 0) + 1` would treat as 0, is not modelled.
- `setInterval`/`clearInterval` and the interval id: they become the `running` flag and explicit `Tick` calls. The fullscreen focus button (script.js:356-363) is an asynchronous browser call followed by the start button.
- `Date`, `toDateString`, `toISOString`, `toLocaleString`, `toLocaleDateString` and `Date.now()`: days are integers and stamps and ids are caller-supplied strings. The source finds "yesterday" as the date 24 hours ago, which differs from `today - 1` in two hours of the year in zones with daylight saving: from 00:00 to 01:00 on the day after a 23-hour day (24 hours back lands two calendar days earlier), and from 23:00 to 24:00 on a 25-hour day (24 hours back lands on the same day). In both hours a last completion on the true yesterday is neither "today" nor the computed "yesterday", so the streak is reset to 0 (script.js:387-393). The model does not capture that.
- `Math.random` choice of a quote and the stored quote (script.js:256-260): randomness and a UI string.
- The character counter of the reflection box (script.js:238-240): user interface only.
- `Text.IntToString`: JavaScript prints integers of magnitude 10^21 and above in exponential notation, and `Math.floor(s/60)` as floating-point division can round for huge `s`. Neither is modelled; timer values are at most 1500.
- Strings are sequences of Unicode scalar values, not UTF-16 code units. This only changes what `length` means, and no modelled operation depends on it.
- `Todos.Board.EditTask`, `Todos.Board.SetDone`: when `find` returns `undefined`, the handler throws, and the model returns `false`. The exception itself is not modelled.
