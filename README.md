# Productivity board: task lifecycle, focus timer, achievements and briefing

A model of the core of a single-page productivity dashboard. The board keeps
a list of tasks and a list of calendar events. Every user action replaces a
list with a new one. A task moves between TODO, IN_PROGRESS and DONE and
carries a focus timer. Closed timer segments are summed in `elapsedTime`.
The open segment is recorded only as its start stamp `lastTimerStartTime`.
Beside the store sit three pure read-outs:

- the timer display (`HH:MM:SS` of the live total);
- the achievement badge (Rookie, Bronze, Silver, Gold);
- the morning briefing (a greeting and at most one upcoming event).

Modules, one per source file or built-in they stand for:

- `Types` (types.dfy): `Task`, `CalendarEvent`, `Option` for the optional stamps, JavaScript truthiness of an optional number, and the timer invariant `WellFormed`.
- `JsString` (js_string.dfy): `trim`, integer `toString`, `padStart(2, '0')`, and a decimal reader that inverts them.
- `JsArray` (js_array.dfy): `filter` by id, and the stable `sort` with a descending comparator.
- `Tasks` (tasks.dfy): the pure updates that App.tsx hands to `setTasks`, and the three columns.
- `Store` (board.dfy): class `Board`, the `tasks`/`events` state, with one method per handler.
- `TimerDisplay` (timer_display.dfy), `Achievements` (achievements.dfy), `Briefing` (briefing.dfy): the three read-outs.

Time is an explicit `now: int` (milliseconds), read once per operation.
The new id is a parameter too. JavaScript's `||` and `&&` on optional stamps
follow truthiness: an absent stamp and a stamp of 0 are both false. The
timer invariant (running exactly when a start stamp is present, and stamps
positive) is therefore proved for positive clock readings (`now > 0`).

Three behaviours of the code that the model keeps:

- The badge thresholds compare the one-decimal rounded hours figure (the `toFixed(1)` string, coerced to a number), not the exact hours. 50.04 hours shows "50.0" and is not Gold.
- A start stamp of exactly 0 is falsy, so `t.startedAt || Date.now()` replaces it. With `t.isTimerRunning && t.lastTimerStartTime`, such a task is stopped without clearing the stamp. The invariant holds for positive clock readings only.
- `formatTime` does not clamp negative totals (a clock set back mid-segment). JavaScript's `%` keeps the dividend's sign, so -500 ms shows as `-1:-1:-1`.

## Model

| member | source | states |
|---|---|---|
| `Tasks.NewTask` | App.tsx:77-84 | the created task has the given id, the trimmed text and `createdAt = now`, is TODO with no start or completion stamp, no time and no open segment, and is well formed |
| `Tasks.AddTask` | App.tsx:73-88 | text that trims to empty leaves the list as it was; otherwise the result is one longer, its tail is the old list, and its head has the trimmed text, status TODO, `createdAt = now`, no stamps, no time, timer stopped; well-formedness of every task is kept |
| `Tasks.MapById` | App.tsx:99-100 | `prev.map` by id: same length, each task with that id replaced by `f` of it, every other task unchanged |
| `Tasks.UpdateTaskText` | App.tsx:90-92 | same length; tasks with the id get the new text and nothing else, the others are unchanged; well-formedness kept |
| `Tasks.DeleteTask` | App.tsx:94-96 | the result is the id filter `RemoveById` of the list, so its count and order lemmas apply; no survivor has the id; a task is in the result exactly when it was in the list with another id; well-formedness kept |
| `Tasks.MoveUpdates` | App.tsx:102-137 | the `updates` record carries the new status; it assigns `startedAt` exactly on entering IN_PROGRESS from elsewhere, with the old stamp if truthy and else `now`, `completedAt = now` exactly on entering DONE, `isTimerRunning = false` exactly when the move stops the timer, and `elapsedTime` and the cleared start exactly when it stops a timer with an open segment, both blocks writing the same folded value |
| `Tasks.Merge` | App.tsx:139 | the spread takes each field the record assigns from it (a cleared start becomes absent) and every other field from the task; id, text and `createdAt` always come from the task; a record assigning only the current status gives the task back |
| `Tasks.Move` | App.tsx:100-139 | the merged `updates` record has the new status; entering IN_PROGRESS from elsewhere sets `startedAt` to the old stamp if truthy, else `now`; DONE always stamps `completedAt = now`; entering DONE or leaving IN_PROGRESS stops the timer and folds an open segment in exactly once as `elapsedTime + (now - start)`, clearing the start; id, text and `createdAt` unchanged |
| `Tasks.MovePreservesWellFormed` | App.tsx:110-137 | a move keeps the timer invariant and positive stamps when `now > 0` |
| `Tasks.MoveTask` | App.tsx:98-141 | same length; tasks with the id are moved, the others unchanged; well-formedness kept for `now > 0` |
| `Tasks.FirstStartWins` | App.tsx:105-111 | TODO, IN_PROGRESS at `t1`, DONE at `t2`, IN_PROGRESS again keeps `startedAt = t1`; every entry into DONE restamps `completedAt` |
| `Tasks.Celebrations` | App.tsx:119-127 | the number of `confetti` calls is at most the number of tasks, zero unless the target is DONE, and positive exactly when some task with the id enters DONE from another status |
| `Tasks.Toggle` | App.tsx:146-162 | the running flag flips; starting records `now` and keeps the time; pausing clears the start and adds `now - start` (nothing when the start is falsy); status, text and the other stamps unchanged; well-formedness kept for `now > 0` |
| `Tasks.ToggleTwice` | App.tsx:147-161 | from a stopped well-formed task, starting at `t1 > 0` and pausing at `t2` gives the same task with exactly `t2 - t1` more time |
| `Tasks.ToggleTimer` | App.tsx:143-164 | same length; tasks with the id toggle, the others unchanged; well-formedness kept for `now > 0` |
| `Tasks.Reset` | App.tsx:168-175 | no time, stopped, no start stamp; every other field as before; the result is well formed whatever the timer state was |
| `Tasks.ResetTimer` | App.tsx:166-176 | same length; tasks with the id reset, the others unchanged; well-formedness kept |
| `Tasks.UnknownIdIsNoOp` | App.tsx:90-176 | with an id not on the board, rename, delete, move, toggle and reset all return the list unchanged |
| `Tasks.Lifecycle` | App.tsx:73-164 | create "Write spec", start it, time five seconds, finish it: DONE, 5000 ms, stopped, `startedAt` and `completedAt` stamped, well formed |
| `Tasks.WithStatus` | App.tsx:178-180 | the status filter keeps only tasks of that status and never lengthens the list |
| `Tasks.WithStatusAllOrNone` | App.tsx:178-180 | the filter keeps the whole list when every task has the status, and nothing when none has it |
| `Tasks.WithStatusCount` | App.tsx:178-180 | the filter keeps each task of that status as often as it occurs, and no other task |
| `Tasks.WithStatusConcat` | App.tsx:178-180 | the filter keeps relative order (it distributes over concatenation) |
| `Tasks.Column` | App.tsx:178-180 | a column holds exactly the board's tasks of its status, with multiplicity, sorted by descending key, equal keys in board order |
| `Tasks.TodoColumn` | App.tsx:178 | only TODO tasks, each as often as on the board, `createdAt` non-increasing, equal stamps in board order |
| `Tasks.InProgressColumn` | App.tsx:179 | only IN_PROGRESS tasks, each as often as on the board, `startedAt` non-increasing, an absent stamp counting as 0, equal stamps in board order |
| `Tasks.DoneColumn` | App.tsx:180 | only DONE tasks, each as often as on the board, `completedAt` non-increasing, an absent stamp counting as 0, equal stamps in board order |
| `Tasks.ColumnsPartition` | App.tsx:178-180 | every task is in exactly one of the TODO, IN_PROGRESS and DONE columns |
| `JsArray.RemoveById` | App.tsx:69 | no survivor has the id; with no entry of that id the list is returned as it was |
| `JsArray.RemoveByIdCount` | App.tsx:95 | entries with the id are all removed; every other entry keeps its number of occurrences |
| `JsArray.RemoveByIdConcat` | App.tsx:69 | survivors keep their relative order |
| `JsArray.SortDesc` | App.tsx:178-180 | the sort is a permutation in descending key order |
| `JsArray.SortedDescPairs` | App.tsx:178-180 | in a column sorted between neighbours, every earlier task's key is at least every later task's |
| `JsArray.SortDescStable` | App.tsx:178-180 | entries with equal keys keep their order, as the stable `sort` of ECMAScript requires |
| `JsString.Trim` | App.tsx:75-79 | the result is the infix of the text after its leading white space, only white space around it, no white space at either end; empty exactly when the text is all white space |
| `JsString.TrimIdempotent` | App.tsx:79 | a trimmed text is its own trim, so stored texts stay clean |
| `JsString.NatToString` | components/TimerDisplay.tsx:38 | the numeral is non-empty, all digits, one digit long exactly below 10, and starts with '0' only for 0 (no leading zero) |
| `JsString.IntToString` | components/TimerDisplay.tsx:38 | `toString`: non-empty; a leading '-' exactly for a negative number, digits everywhere else, and no leading zero except for 0 itself |
| `JsString.ParseNatToString` | components/TimerDisplay.tsx:38 | reading back the numeral of `n` gives `n` |
| `JsString.Pad` | components/TimerDisplay.tsx:38 | `padStart(2, '0')` never truncates: the numeral is a suffix of the field, which has exactly two characters when the numeral is shorter and is the numeral itself otherwise, with '0' before it |
| `JsString.PadShape` | components/TimerDisplay.tsx:38 | one digit `d` pads to "0d", and any number below 100 to exactly two characters |
| `JsString.PadParses` | components/TimerDisplay.tsx:38 | a padded field of `n >= 0` is all digits and reads back as `n` |
| `Store.Board.constructor` | App.tsx:15-16 | both lists start empty and the board invariant holds |
| `Store.Board.AddEvent` | App.tsx:64-66 | the event is appended verbatim; tasks unchanged |
| `Store.Board.DeleteEvent` | App.tsx:68-70 | events with the id are dropped, the rest kept in order; tasks unchanged |
| `Store.Board.AddTask` | App.tsx:73-88 | `added` exactly when the text trims to non-empty; then the new task is put first, else nothing changes; the invariant is kept |
| `Store.Board.UpdateTaskText` | App.tsx:90-92 | tasks become the renamed list; the invariant is kept when the edit form passes clean text |
| `Store.Board.DeleteTask` | App.tsx:94-96 | tasks with the id are dropped, the rest kept in order; the invariant is kept |
| `Store.Board.MoveTask` | App.tsx:98-141 | tasks become the moved list; `confetti` is the number of celebrations fired, positive exactly when some task with the id enters DONE from another status; the invariant is kept for `now > 0` |
| `Store.Board.ToggleTimer` | App.tsx:143-164 | tasks become the toggled list; the invariant is kept for `now > 0` |
| `Store.Board.ResetTimer` | App.tsx:166-176 | tasks become the reset list; the invariant is kept |
| `TimerDisplay.Seconds` | components/TimerDisplay.tsx:34 | the seconds field lies in [0, 60) for a non-negative total and in [-60, 0] for a negative one |
| `TimerDisplay.Minutes` | components/TimerDisplay.tsx:35 | the minutes field lies in [0, 60) for a non-negative total and in [-60, 0] for a negative one |
| `TimerDisplay.Hours` | components/TimerDisplay.tsx:36 | the hours field is the floor of the total in hours: `h * 3600000 <= ms < (h + 1) * 3600000`, with no wrap at 24 |
| `TimerDisplay.FormatTime` | components/TimerDisplay.tsx:33-40 | the read-out has at least eight characters; below 100 hours a non-negative total gives exactly `DD:DD:DD` |
| `TimerDisplay.CurrentTotalTime` | components/TimerDisplay.tsx:25-31 | a stopped task shows its `elapsedTime`; a running well-formed task shows `elapsedTime + (now - start)` |
| `TimerDisplay.ToggleKeepsTotal` | components/TimerDisplay.tsx:25-31 | starting or pausing at `now` leaves the total shown at `now` unchanged |
| `TimerDisplay.MoveKeepsTotal` | App.tsx:110-137 | a move at `now` leaves the total shown at `now` unchanged, so an open segment is counted once |
| `TimerDisplay.TotalGrowsWhileRunning` | components/TimerDisplay.tsx:27-29 | the shown total never decreases as the clock advances |
| `TimerDisplay.FieldsDecompose` | components/TimerDisplay.tsx:34-36 | for `ms >= 0`: seconds `(ms/1000)%60` and minutes `(ms/60000)%60` lie in [0, 60), hours do not wrap, and `h*3600000 + m*60000 + s*1000 <= ms` is less than that plus 1000 |
| `TimerDisplay.FieldsAppend` | components/TimerDisplay.tsx:39 | a piece without ':' is one field, and a ':' after it starts the next |
| `TimerDisplay.FormatTimeParses` | components/TimerDisplay.tsx:33-40 | for `ms >= 0` the read-out splits at ':' into exactly the three padded fields, which read back as hours, minutes and seconds; minutes and seconds have two characters, hours at least two |
| `TimerDisplay.FormatFiveSeconds` | components/TimerDisplay.tsx:33-40 | 5000 ms shows as "00:00:05" |
| `TimerDisplay.FormatNegative` | components/TimerDisplay.tsx:34-36 | -500 ms shows as "-1:-1:-1" |
| `Achievements.DoneTasks` | components/AchievementsHeader.tsx:10 | only done tasks, and every done task of the board |
| `Achievements.SumElapsed` | components/AchievementsHeader.tsx:11 | the `reduce` sum is non-negative when no task has negative time |
| `Achievements.DoneCount` | components/AchievementsHeader.tsx:13 | the count is at most the number of tasks, and zero exactly when no task is done |
| `Achievements.TotalMs` | components/AchievementsHeader.tsx:10-11 | the total is 0 when nothing is done, and non-negative when no done task has negative time |
| `Achievements.SumElapsedConcat` | components/AchievementsHeader.tsx:11 | the summed time of two lists is the sum of their times |
| `Achievements.Tenths` | components/AchievementsHeader.tsx:12 | the hours figure is the nearest tenth of an hour, a half rounding away from zero, with the sign of the total |
| `Achievements.HoursLabel` | components/AchievementsHeader.tsx:12 | the `toFixed(1)` label ends in a point and one digit, and starts with '-' exactly for a negative total |
| `Achievements.TenthsMonotone` | components/AchievementsHeader.tsx:12 | a larger total never shows a smaller figure |
| `Achievements.HoursLabelReads` | components/AchievementsHeader.tsx:12-23 | the `totalHours` label reads back as the rounded figure, so the coerced comparisons compare tenths with 500 and 100 |
| `Achievements.BadgeFor` | components/AchievementsHeader.tsx:15-31 | Gold exactly when count >= 30 or the figure exceeds 50; Silver exactly when not Gold and count >= 10 or the figure exceeds 10; Bronze exactly when 1 <= count < 10 and the figure is at most 10; Rookie exactly when count is 0 and the figure is at most 10 |
| `Achievements.Classify` | components/AchievementsHeader.tsx:15-31 | the board's badge is Rookie exactly when no task is done, Gold whenever 30 or more are done, and Bronze only for 1 to 9 done |
| `Achievements.NotDoneIsIgnored` | components/AchievementsHeader.tsx:10-13 | a task that is not done changes neither the count, the total nor the badge |
| `Achievements.AddingDoneCounts` | components/AchievementsHeader.tsx:10-13 | one more done task adds one to the count and its time to the total |
| `Achievements.BadgeMonotone` | components/AchievementsHeader.tsx:19-31 | a larger count and a larger total never give a lower badge |
| `Achievements.AddingDoneNeverLowers` | components/AchievementsHeader.tsx:10-31 | adding a done task with non-negative time never lowers the badge |
| `Achievements.NothingDone` | components/AchievementsHeader.tsx:11-17 | with nothing done the header shows "0.0" hours and Rookie |
| `Briefing.Greeting` | components/MorningBriefing.tsx:13-18 | "Good Morning" exactly before 12, "Good Afternoon" exactly from 12 to before 18, "Good Evening" exactly from 18 |
| `Briefing.FindWanted` | components/MorningBriefing.tsx:20-28 | `find` returns the position of the first wanted event, or nothing exactly when no event is wanted |
| `Briefing.DisplayIndex` | components/MorningBriefing.tsx:20-30 | the shown event is near; nothing is shown exactly when no event is near; the shown event is urgent exactly when a near urgent event exists, and is then the first such; otherwise it is the first near event |
| `Briefing.DisplayEvent` | components/MorningBriefing.tsx:30 | a shown event is one of the events and is dated today or tomorrow |
| `Briefing.Caption` | components/MorningBriefing.tsx:62 | "Happening Today" exactly for an event dated today, "Reminder for Tomorrow" exactly for any other |
| `Briefing.CaptionIsRight` | components/MorningBriefing.tsx:62 | "Happening Today" exactly when the shown event is dated today; "Reminder for Tomorrow" only when it is dated tomorrow |
| `Briefing.UrgentWins` | components/MorningBriefing.tsx:20-30 | an urgent event today is shown over a non-urgent one listed before it |

## Left out

- Loading from and saving to local storage, JSON parsing, and the load-once guard (App.tsx:22-61): browser I/O and effect scheduling. Events loaded from storage are taken as well-typed records; a stored task missing `elapsedTime` is not modelled.
- The notes scratchpad (`notes`, App.tsx:18, 56-57): plain text, stored as is, with no logic.
- `crypto.randomUUID()` and `Date.now()`: foreign calls. The id and the clock are parameters. `moveTask` reads the clock up to three times within one call. The model reads it once.
- The confetti call (App.tsx:119-127): a visual effect. `Store.Board.MoveTask` returns how many times it fires.
- The one-second re-render interval of the timer display (components/TimerDisplay.tsx:15-23): it only re-evaluates the read-out.
- Floating point: numbers are unbounded integers of milliseconds. `toFixed(1)` rounds a double, so a total within rounding error of an exact half-tenth may round the other way there. Totals beyond 2^53 ms, exponent notation of `toString`, and NaN are not modelled.
- `isToday`, `isTomorrow`, `parseISO` and `new Date().getHours()` (components/MorningBriefing.tsx): clock and date-library calls. They are parameters (two tests on the date string, and the hour).
- The calendar grid, date matching and `yyyy-MM-dd` formatting (components/Calendar.tsx): a date library. Its add rule, trim and reject an empty title, happens before `addEvent` is called.
- The task card's edit mode and date formatting (components/TaskCard.tsx). Its save rule, trim and revert on empty, is the `CleanText` condition under which `Store.Board.UpdateTaskText` keeps the invariant.
- The `todoCount` figure of the briefing is the length of `Tasks.TodoColumn`. The sidebar, card frame, constants and all rendering are presentational.
- Store.Board.MoveTask: keeps the board invariant only for `now > 0`, because a start stamp of 0 is falsy in the code.
- Store.Board.ToggleTimer: keeps the board invariant only for `now > 0`, for the same reason.
