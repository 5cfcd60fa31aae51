# Wage-accrual tracker: a Dafny model of its session engine

The tracker is a single-page app (`app.js`). You give it an hourly wage, a
daily goal, and a shift start and end time. It then shows how much you have
earned so far today, how long you have worked, how long is left until the
end of the shift, and how far you are towards the goal. It also announces
four earnings milestones (50, 100, 200, 500), each once per day. The pause
button suspends accounting. Everything is kept in the browser's storage and
survives reloads. A new calendar day resets the per-day fields.

This project models the engine behind that screen:

- the global `state` record;
- the work-time, earnings, time-left and progress arithmetic;
- the pause state machine, including a pause left running across a reload;
- the milestone latch;
- the stored record with its load/save round trip and the day rollover;
- `formatTime`.

Modules, one per component:

| module | file | models |
|---|---|---|
| `Clock` | clock.dfy | instants as local milliseconds, days, times of day, start and end anchors |
| `Session` | session.dfy | the `state` record, the stored record, the default milestones, JavaScript truthiness of timestamps |
| `Accounting` | accounting.dfy | `calculateEarnings` and the work-time, time-left and progress blocks of `updateDisplay` |
| `Format` | format.dfy | `formatTime`, with JavaScript's `Math.floor`, `%`, `toString` and `padStart` |
| `Pause` | pause.dfy | `togglePause` |
| `Milestones` | milestones.dfy | `checkMilestones` |
| `Persistence` | persistence.dfy | `saveSettings`, `loadSettings`, the per-day reset, the settings form |
| `Lifecycle` | lifecycle.dfy | each event as a step on the state and the stored record together; start-up |
| `Engine` | engine.dfy | class `Tracker`: the state updated in place, one method per handler, milestones in an array |

The pure parts are functions. The handlers that change `state` in place are
methods of `Engine.Tracker`. The postconditions of `Load`, `ResetDay`,
`CheckNewDay`, `ApplySettings`, `TogglePause`, `Tick` and `Init` equate the
new state and stored record with a step function of `Lifecycle` applied to
the old ones. `CheckMilestones` is specified directly by `Milestones.Fire`,
`Milestones.FiredMessages` and `Persistence.Saved`. The constructor gives
the initial state. The properties are lemmas about those functions.

Conventions:

- An instant is an `int` of milliseconds of local time, and its calendar day
  is `now / DAY`.
- A "HH:MM" value is `Option<MinuteOfDay>`: minutes past midnight, with `""`
  and `null` both `None`.
- Money is `real`.
- The current time is a parameter `now`. The source reads the clock several
  times within one computation; the model reads it once.

In a few places the code behaves differently from what a user of a wage
tracker would expect. The model follows the code:

- One would expect earnings to keep rising as the clock advances. They do
  not. The start anchor is the last instant whose clock reads the start
  time, so earnings rise during a shift but drop to nothing when the start
  time comes round the next day (`Accounting.EarningsMonotoneWithinShift`,
  `Accounting.EarningsRestartAtNextStart`).
- "已下班" (off duty) is shown only at the exact millisecond the end time is
  reached. At every other instant the end anchor has already been rolled
  forward to the next day, so a countdown is shown (`Accounting.Remaining`).
- One would expect a pause start to be recorded exactly while paused,
  since resuming relies on it. The code does not enforce this. The
  timestamp 0 is falsy, so a pause started at instant 0 is never added to
  the total. `Pause.ToggleKeepsConsistency` and
  `Persistence.LoadKeepsConsistency` show that it holds for toggles and loads
  at non-zero instants.
- Without a start time the work-time line reads `0:00:00` (one digit of
  hours). `formatTime` would print `00:00:00`.
- The day is checked only at start-up. A page left open past midnight keeps
  the previous day's state.

## Model

| member | source | states |
|---|---|---|
| Session.DefaultMilestones | app.js:12-17 | four milestones, none shown |
| Session.OrNull | app.js:69-70 | `x \|\| null` keeps a truthy timestamp and turns `null` and `0` into null |
| Clock.StartAnchor | app.js:277-282 | the start anchor is at or before `now`, less than a day before it, and its clock reads the start time |
| Clock.EndAnchor | app.js:360-365 | the end anchor is at or after `now`, less than a day after it, and its clock reads the end time |
| Clock.AnchorsUnique | app.js:277-282 | an instant with the start (end) clock reading within the day before (after) `now` is the start (end) anchor |
| Accounting.WorkMs | app.js:284-295 | work time is 0 without a start time; otherwise it is the time since the anchor minus all pauses, or 0 when that is negative; it is less than a day when pauses are not negative |
| Accounting.Earnings | app.js:270-302 | earnings are never negative, and are 0 without a start time or a positive wage |
| Accounting.Pay | app.js:298-299 | pay is never negative, and pay times the milliseconds in an hour equals the work milliseconds times the hourly wage |
| Accounting.EarningsAtHourlyRate | app.js:297-301 | earnings equal work hours times the wage, and stay below 24 hours' pay when pauses are not negative |
| Accounting.WorkMonotoneWithinShift | app.js:337-348 | within one shift the work time never decreases |
| Accounting.EarningsMonotoneWithinShift | app.js:270-302 | within one shift earnings never decrease |
| Accounting.WorkFrozenWhilePaused | app.js:288-292 | while a pause is running, work time and earnings stand still |
| Accounting.EarningsExamples | app.js:270-302 | wage 60 from 09:00 earns 180 at 12:00; 150 with a 30-minute pause; a 22:00 shift seen at 02:00 has lasted 4 h |
| Accounting.EarningsRestartAtNextStart | app.js:279-282 | one minute before the next 09:00 a 09:00 shift has earned 1439; at 09:00 it has earned 0 |
| Accounting.Remaining | app.js:357-376 | no end time gives Unset; a countdown lies in (0, 1 day) and ends on the end time; off duty exactly when the clock reads the end time |
| Accounting.EndAnchorReachedNow | app.js:363-368 | the remaining time is 0 exactly when the clock reads the end time |
| Accounting.Progress | app.js:379-386 | progress is 0 without a positive goal; below the goal it is earnings as a percentage of the goal; it lies in [0, 100] for non-negative earnings, and is 100 exactly when earnings reach the goal |
| Accounting.ProgressMonotone | app.js:379-380 | more earnings never show less progress |
| Format.TimeParts | app.js:306-308 | no contract of its own; `Format.TimePartsSplit` states what the three parts are |
| Format.FormatTime | app.js:305-310 | no contract of its own; `Format.FormatTimeReadsBack`, `Format.TimePartsSplit` and `Format.FormatMillis` state what it prints |
| Format.TimePartsSplit | app.js:305-308 | for seconds >= 0: hours*3600 + minutes*60 + secs is the whole seconds, with minutes and secs in [0, 59] and hours not limited |
| Format.FormatTimeReadsBack | app.js:305-310 | the HH:MM:SS text reads back as the three parts: at least two digits of hours, exactly two of minutes and of seconds |
| Format.Seconds | app.js:350 | a duration in milliseconds divided by 1000, as handed to `formatTime`; never negative for a non-negative duration |
| Format.FormatMillis | app.js:350-351 | a duration in milliseconds, printed as seconds, reads back as its whole seconds split into hours, minutes below 60 and seconds below 60 |
| Format.FormatTimeExample | app.js:305-310 | 3725.5 seconds is shown as 01:02:05 |
| Pause.Toggled | app.js:211-223 | a toggle flips `paused`, changes no configuration or milestone, and neither gains nor loses work time at its instant |
| Pause.ToggledPauseFields | app.js:214-223 | pausing records `now`; resuming adds the finished pause to the total and clears the start, or changes neither when no truthy start was recorded |
| Pause.PauseThenResume | app.js:211-223 | a pause of length D then a resume adds D to the total and lowers the unclamped work time by exactly D, and the shown work time by D while at least D of work remains |
| Pause.ToggleKeepsConsistency | app.js:211-223 | a toggle at a non-zero instant keeps "a pause start is recorded exactly while paused" |
| Pause.ToggleNeverLowersTotal | app.js:219-222 | with a clock that does not run backwards, the accumulated pause time never decreases |
| Milestones.Fire | app.js:399-407 | amounts and messages stay; a milestone is shown afterwards exactly when it was shown before or its amount is reached |
| Milestones.FiredMessages | app.js:400-404 | at most one message per milestone; `Milestones.AnnouncedAreTheFiring` and `Milestones.NothingAnnounced` state which messages it holds |
| Milestones.AnnouncedAreTheFiring | app.js:400-404 | a check announces the message of every milestone that fires and of no other, one message per firing milestone |
| Milestones.NothingAnnounced | app.js:401-403 | a check announces nothing exactly when no milestone has reached its amount without being shown |
| Milestones.FireStep | app.js:400-406 | checking one more milestone appends that milestone's outcome |
| Milestones.NothingFiredMeansNothingChanged | app.js:401-405 | a check announces something exactly when it changes a milestone |
| Milestones.FiresAtMostOnce | app.js:399-407 | a later check with the same or lower earnings announces nothing and changes nothing |
| Milestones.FireTwice | app.js:399-407 | two checks equal one check at the higher earnings |
| Milestones.RisingEarningsExample | app.js:399-407 | thresholds 50 and 100 with earnings 0, 75, 130, 130 announce nothing, the 50, the 100, nothing |
| Persistence.Saved | app.js:93-108 | the record is dated with the day it is written on; `LoadAfterSave` shows that it carries the state back |
| Persistence.Reconciled | app.js:73-78 | folding a running pause into the total keeps paused time, work time and earnings at the reload instant |
| Persistence.Loaded | app.js:58-72 | the configuration and `paused` come from the record; milestones come from the record, or stay when it has none |
| Persistence.LoadAfterSave | app.js:58-108 | loading what was saved restores every field up to the `\|\|` defaults and the pause reconciliation, with the same work time and earnings at the reload instant |
| Persistence.LoadKeepsConsistency | app.js:62-78 | a consistently paused session loads consistent at a non-zero instant |
| Persistence.ResetTransient | app.js:120-129 | the per-day fields are cleared, milestones are the unshown defaults, and the configuration is kept |
| Persistence.ResetCountsWholeShift | app.js:120-123 | after a reset the whole time since the start anchor counts as work |
| Persistence.OrZero | app.js:166-167 | `parseFloat(..) \|\| 0` gives the parsed number, or 0 when nothing parsed |
| Persistence.AppliedSettings | app.js:165-169 | the form sets wage, goal and both times, and touches nothing of the running day |
| Lifecycle.LoadStep | app.js:58-79 | with a stored record the state becomes `Loaded` from it; nothing changes when nothing is stored; the stored record is kept |
| Lifecycle.ResetDayStep | app.js:176-188 | the state becomes `ResetTransient` of the old one: configuration kept, pause time, pause state and last update cleared, default milestones; the result is stored dated today |
| Lifecycle.CheckNewDayStep | app.js:111-133 | a record from another day (or undated) resets the per-day fields; otherwise nothing changes; afterwards any stored record is dated today; the configuration never changes |
| Lifecycle.ResetDayMatchesRollover | app.js:176-188 | on a new day the reset button and the rollover produce the same page |
| Lifecycle.TogglePauseStep | app.js:211-230 | the state becomes `Toggled` of the old one: `paused` flips; pausing records `now`; resuming adds the finished pause to the total and clears its start; configuration, milestones and current earnings are kept; the new state is stored dated today |
| Lifecycle.SettingsStep | app.js:165-173 | the state becomes `AppliedSettings` of the old one: wage and goal as parsed or 0, both times as entered, pause fields, last update and milestones unchanged; the new state is stored dated today |
| Lifecycle.TickStep | app.js:389 | a frame latches milestones at the current earnings, keeps the earnings, and saves exactly when something fired |
| Lifecycle.TickAgainChangesNothing | app.js:399-407 | a later frame with no higher earnings changes nothing |
| Lifecycle.WorkTimeText | app.js:334-354 | no contract of its own; `Lifecycle.WorkTimeTextShowsWork` states what the line shows |
| Lifecycle.WorkTimeTextShowsWork | app.js:334-354 | the work-time line reads back as the whole seconds worked, in hours, minutes and seconds; without a start time it is 0:00:00 |
| Lifecycle.RemainingText | app.js:367-375 | no contract of its own; `Lifecycle.RemainingTextShowsCountdown` states what the line shows |
| Lifecycle.RemainingTextShowsCountdown | app.js:357-376 | the time-left line is dashes without an end time and the off-duty notice at the end time; otherwise it reads back as the whole seconds left, less than a day |
| Lifecycle.View | app.js:319-389 | a frame shows the earnings, the work-time line, the time-left line, the progress (`Accounting.Progress` of the earnings, so within [0, 100]) and the milestones announced |
| Lifecycle.Init | app.js:47-55 | after start-up any stored record is dated today |
| Lifecycle.InitStartsNewDay | app.js:47-55 | on a new day start-up keeps the stored configuration, clears pause time and pause state, and shows only the milestones today's earnings reach |
| Lifecycle.InitAgreesOnSameDay | app.js:47-55 | with a record from today, or none, the corrected start-up order and the original one agree |
| Lifecycle.InitAsWritten | app.js:47-55 | start-up in the original order (load, first frame, day check); afterwards any stored record is dated today |
| Lifecycle.InitAsWrittenSkipsRollover | app.js:47-55 | in the original order a milestone firing on the first frame keeps yesterday's pause time |
| Engine.Tracker.constructor | app.js:2-18 | the initial state, with the stored record as found |
| Engine.Tracker.Save | app.js:93-108 | stores the current state dated today |
| Engine.Tracker.Load | app.js:58-79 | the new page is `LoadStep` of the old one |
| Engine.Tracker.ResetDay | app.js:176-192 | the new page is `ResetDayStep` of the old one |
| Engine.Tracker.CheckNewDay | app.js:111-133 | the new page is `CheckNewDayStep` of the old one |
| Engine.Tracker.ApplySettings | app.js:165-173 | the new page is `SettingsStep` of the old one |
| Engine.Tracker.TogglePause | app.js:211-230 | the new page is `TogglePauseStep` of the old one |
| Engine.Tracker.CheckMilestones | app.js:399-407 | returns the messages of exactly the milestones that fire, in order; the array becomes `Fire` of the old one; it saves when something fired |
| Engine.Tracker.Tick | app.js:319-396 | returns `View` of the old state and carries out `TickStep` |
| Engine.Tracker.Init | app.js:47-55 | carries out the corrected start-up `Lifecycle.Init` and returns its first frame |

## Findings

| source | as written | input that shows it | evidently intended | confidence | as-written member | corrected member |
|---|---|---|---|---|---|---|
| app.js:47-55 | `init` runs `startAnimation` before `checkNewDay`. The first animation frame runs at once. If it fires a milestone, `saveSettings` re-dates the stored record to today, so `checkNewDay` finds nothing to reset. | Record saved yesterday: wage 60, start 09:00, 1 s of pause time, default milestones. Page opened today at 12:00. The 50 and 100 milestones fire, and yesterday's pause time is kept. | Check the day before the first frame, so a new day always starts with no pause time and unshown milestones (`Lifecycle.InitStartsNewDay`). | medium; not executed | Lifecycle.InitAsWritten, Lifecycle.InitAsWrittenSkipsRollover | Lifecycle.Init, Lifecycle.InitStartsNewDay |

`Engine.Tracker.Init` uses the corrected order. Every other handler follows
the code as written.

## Left out

- The DOM is not modelled: the element lookups, `updateSettingsUI`, `updatePauseButton`, the modal handlers, the boss key, `showToast`, the favicon and `document.title`. They only render values the model computes.
- `toggleTheme` is not modelled. It flips the `darkMode` flag and saves; the model carries `darkMode` through every step unchanged.
- The `requestAnimationFrame` loop and the toast timers are scheduling. A frame is modelled once, as `Tick`.
- `localStorage` and JSON text are not modelled. The stored record is a field of `Tracker`, and malformed JSON is not modelled because the code has no handling for it.
- Record fields other than `milestones` and `lastSaveDate` are never absent in the model. A missing number or boolean loads exactly like 0 or false.
- Date parsing, `toDateString`, time zones and daylight saving are abstracted. Instants are local milliseconds, and `setDate(±1)` is exactly one day.
- A "HH:MM" value that does not parse as a time is not modelled.
- Floating point is not modelled: money and seconds are exact reals. `NaN` appears only as an unparsed form field, which becomes 0.
- The easing of the displayed amount and the `toFixed` formatting are presentation and are not modelled.
- The `confirm()` dialog of the reset button is taken as confirmed.
