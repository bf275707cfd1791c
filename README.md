# Chikita planner core in Dafny

This project models the logic in `src/App.jsx` of a small single-page
productivity app. It covers four parts:

- **Clock helpers** (`time_helpers.dfy`, module `TimeHelpers`):
  - `toMins` and `fromMins` convert an hour and a minute to minutes since midnight, and back;
  - `formatTime` writes the 12-hour label `h:mm AM` shown on each task block.

  JavaScript's `%` truncates toward zero, so it is written out as `JsRem`.
  Number-to-text conversion and `padStart` are modelled on character sequences.
  `ParseTime` reads a label back. It is a reference inverse, used to prove that a label determines the time of day it was written from.
- **Task list** (`schedule.dfy`, module `Schedule`):
  - the four list updaters `addTaskRange`, `editTaskRange`, `deleteTask` and `toggleComplete`, as pure functions from the old list to the new one;
  - the modal form's `handleRangeSubmit`;
  - the class `TaskStore`, which holds the `tasks` state and applies the updaters in place.

  `TaskStore.Valid` is the invariant the updaters keep: ids are unique, and every task has a title and starts before it ends.
- **Schedule overview** (`overview.dfy`, module `Overview`):
  - the timeline, which is the list sorted by start time with a stable sort;
  - the breakdown by priority, which filters that timeline.
- **Focus timer** (`focus_timer.dfy`, module `FocusTimer`): the countdown, the alarm and the controls.
  - `Snapshot` holds the page's four state variables.
  - `Step` applies one event: a countdown tick, an alarm tick or a button press.
  - `Settle` follows each event with the reactions of the two effects, so it runs after every change. The alarm effect reacts first, then the countdown effect.
  - `Enabled` says when an interval is armed or a button is on screen.
  - `Valid` is the invariant every step keeps.
  - The class `Timer` holds the same four fields and has one method per handler.

`options.dfy` holds the `Option` type.

The model follows the code, including these behaviours:

- Editing, deleting or toggling an unknown id leaves the list unchanged. No "not found" error is raised.
- The check that a task has a title and an end after its start sits only in the form handler, not in the updaters.
- The preset buttons (25 Min, 1 Hour) leave a ringing alarm ringing.
- Reset always restores 25 minutes.
- Pressing play at 0 seconds rings the alarm at once.
- A custom duration of zero is ignored silently.
- A task's priority may be absent (`Unset`). Such a task shows on the timeline but in no priority group.

## Model

| member | source | states |
|---|---|---|
| TimeHelpers.JsRem | src/App.jsx:11 | JavaScript remainder by a positive divisor: strictly between -n and n, congruent to a modulo n, and with the sign of a |
| TimeHelpers.ToMins | src/App.jsx:7 | for an hour h ≥ 0 and a minute in 0..59, fromMins gives back exactly (h, m) |
| TimeHelpers.FromMins | src/App.jsx:9-13 | for a count t ≥ 0: hour ≥ 0, minute in 0..59, and hour*60 + minute == t, so toMins inverts it |
| TimeHelpers.ClockHour | src/App.jsx:19 | `h % 12 \|\| 12` is in 1..12 and congruent to h modulo 12 |
| TimeHelpers.NatToDecimal | src/App.jsx:20 | the numeral has only digits, no leading zero, one digit exactly when n < 10, and at most two digits when n < 100 |
| TimeHelpers.PadStart | src/App.jsx:20 | padStart keeps the text as a suffix, fills only in front, and has length max(width, length of the text) |
| TimeHelpers.DecimalRoundTrip | src/App.jsx:20 | the decimal value of the numeral of n is n |
| TimeHelpers.FormatTimeShape | src/App.jsx:15-21 | for t ≥ 0 the label has a 1..12 hour with no leading zero, a colon, minutes padded to exactly two digits with value t mod 60, and AM exactly when the hour of day is below 12 |
| TimeHelpers.FormatTime | src/App.jsx:15-21 | `formatTime`: its label is at least 7 characters; its exact shape is stated by FormatTimeShape and its round trip by FormatTimeRoundTrip |
| TimeHelpers.FormatTimeRoundTrip | src/App.jsx:15-21 | within one day, reading the label back gives the minute count it was written from, so distinct times get distinct labels |
| Schedule.Filter | src/App.jsx:337 | `Array.prototype.filter`: no longer than the list, and a task is in the result exactly when it is in the list and passes the test |
| Schedule.FilterCounts | src/App.jsx:337 | filter keeps every copy of a task that passes the test and no copy of one that fails it |
| Schedule.FilterIsSubsequence | src/App.jsx:337 | filter keeps the surviving tasks in their original order |
| Schedule.AddTaskRange | src/App.jsx:335 | the list grows by one, the old tasks stay as a prefix, and the last task has the given id, text, range and priority and is not completed |
| Schedule.EditTaskRange | src/App.jsx:336 | same length; each task with the id gets the new text, range and priority and keeps its id and completed flag; every other task is unchanged |
| Schedule.ToggleComplete | src/App.jsx:338 | same length; each task with the id has its completed flag flipped and nothing else changed; every other task is unchanged |
| Schedule.DeleteTask | src/App.jsx:337 | `deleteTask`: no longer than the list, and a task is kept exactly when it was there and has another id; DeleteTaskSpec adds order, copies and the unknown-id case |
| Schedule.DeleteTaskSpec | src/App.jsx:337 | no task with the id is left; a task stays exactly when it was there and has another id; order is kept; every copy of a task with another id survives; an unknown id changes nothing |
| Schedule.UnknownIdIsNoOp | src/App.jsx:336-338 | editing or toggling an id that is not in the list leaves the list unchanged |
| Schedule.ToggleTwice | src/App.jsx:338 | toggling the same id twice gives back the original list |
| Schedule.AddKeepsUniqueIds | src/App.jsx:335 | adding a task with a fresh id keeps ids unique |
| Schedule.UpdatesKeepUniqueIds | src/App.jsx:336-338 | editing, deleting and toggling keep ids unique |
| Schedule.HandleRangeSubmit | src/App.jsx:168-176 | the form closes exactly when the title is non-empty and the end is after the start; otherwise the list is unchanged; a truthy edit id edits that task, else a task with the fresh id is appended; with the values the selects offer, the added or edited task lies in 0..1425 minutes |
| Schedule.SubmitKeepsSubmittable | src/App.jsx:168-176 | if every task has a title and starts before it ends, that still holds after a submission, a delete or a toggle |
| Schedule.TaskStore.constructor | src/App.jsx:329 | the store starts with the list it was given, and an empty list (nothing stored) satisfies the invariant |
| Schedule.TaskStore.Add | src/App.jsx:335 | the new list is AddTaskRange of the old one, and the invariant holds when the id is fresh and the task is submittable |
| Schedule.TaskStore.Edit | src/App.jsx:336 | the new list is EditTaskRange of the old one, and the invariant holds when the new values are submittable |
| Schedule.TaskStore.Delete | src/App.jsx:337 | the new list is DeleteTask of the old one, and the invariant is kept |
| Schedule.TaskStore.Toggle | src/App.jsx:338 | the new list is ToggleComplete of the old one, and the invariant is kept |
| Schedule.TaskStore.SubmitRange | src/App.jsx:168-176 | the new list and the close flag are HandleRangeSubmit of the old list, and the invariant is kept for a fresh id |
| Overview.Insert | src/App.jsx:286 | one insertion step of the sort: one element longer, the same tasks plus the new one |
| Overview.InsertSorted | src/App.jsx:286 | inserting into a list sorted by start keeps it sorted |
| Overview.SortByStart | src/App.jsx:286 | the timeline sort returns a permutation of the list, sorted by start |
| Overview.FilterSortCommute | src/App.jsx:286-287 | filtering the sorted list equals sorting the filtered list |
| Overview.SortIsStable | src/App.jsx:286 | the sort is stable: tasks with the same start keep their relative order |
| Overview.CalendarOverlay | src/App.jsx:286-287 | `sortedTasks` and `groups`; CalendarOverlaySpec states the timeline is a sorted permutation and each group exactly the tasks of that priority, and SortIsStable that the sort is stable |
| Overview.CalendarOverlaySpec | src/App.jsx:286-287 | the timeline is a sorted permutation of the tasks; each priority group is the sorted list of exactly the tasks with that priority |
| Overview.UnsetInNoGroup | src/App.jsx:287 | a task with no priority is on the timeline but in no group |
| FocusTimer.CustomSeconds | src/App.jsx:103-104 | the custom duration is a non-negative whole number of minutes, and is positive exactly when a positive hour or minute count was entered; for non-negative entries it is hours*3600 + minutes*60 |
| FocusTimer.CustomSecondsClamp | src/App.jsx:104 | a negative hour or minute entry counts as zero |
| FocusTimer.Settle | src/App.jsx:79-101 | the effects never leave the timer active at zero; expiry stops the countdown and rings; 20 alarm repeats stop the alarm and clear the count, leaving the rest alone; a state that needs no reaction is left alone |
| FocusTimer.Step | src/App.jsx:75-128 | one handler or interval callback followed by the effects; StepKeepsValid states the invariant it keeps, and TickSpec, ToggleSpec, ToggleAtZeroRings, AlarmTickSpec, StopAlarmSpec, ResetAndQuit, PresetsKeepAlarm and StartCustomSpec give its result per event |
| FocusTimer.Enabled | src/App.jsx:81-121 | a countdown tick only while active with time left (line 94), an alarm tick only while ringing below 20 repeats (line 81), play/pause only while silent and the bell only while ringing (lines 118-121); StepKeepsValid assumes it |
| FocusTimer.InitialIsValid | src/App.jsx:66-69 | the page starts in a valid state: 25 minutes, paused, silent |
| FocusTimer.StepKeepsValid | src/App.jsx:75-128 | every event the page can deliver keeps the invariant: seconds ≥ 0, alarm count below 20 and zero when silent, never active while ringing, never active at zero |
| FocusTimer.TickSpec | src/App.jsx:92-101 | a countdown tick removes one second; the last tick stops the countdown and starts the alarm |
| FocusTimer.ToggleSpec | src/App.jsx:121 | play/pause on a silent timer with time left only flips `isActive`, so a pause keeps the remaining seconds |
| FocusTimer.StopAlarmSpec | src/App.jsx:75 | the bell button silences the alarm and clears its count, and changes nothing else |
| FocusTimer.ToggleAtZeroRings | src/App.jsx:121 | pressing play at zero seconds rings the alarm at once instead of counting |
| FocusTimer.AlarmTickSpec | src/App.jsx:79-90 | an alarm tick counts one repeat; the 20th repeat silences the alarm and clears the count |
| FocusTimer.ResetAndQuit | src/App.jsx:75-77 | reset gives 25 minutes, paused and silent; quit gives 0 seconds, paused and silent |
| FocusTimer.PresetsKeepAlarm | src/App.jsx:127-128 | the presets set 25 minutes or one hour and pause, and leave the alarm as it was |
| FocusTimer.StartCustomSpec | src/App.jsx:103-106 | a positive custom duration replaces the countdown, pauses it and silences the alarm; a zero duration changes nothing |
| FocusTimer.CountdownRings | src/App.jsx:92-101 | a running countdown of n seconds can take n ticks, and after them it is stopped at zero with the alarm ringing |
| FocusTimer.AlarmRunsOut | src/App.jsx:79-90 | a ringing alarm can take exactly the repeats left to 20, and after them it is silent with its count cleared |
| FocusTimer.FiveSecondRun | src/App.jsx:79-101 | a five-second countdown ends ringing, and the first alarm repeat counts one |
| FocusTimer.Timer.constructor | src/App.jsx:66-69 | the timer starts in the initial valid state |
| FocusTimer.Timer.RunEffects | src/App.jsx:79-101 | running the two effects updates the fields as Settle says |
| FocusTimer.Timer.Tick | src/App.jsx:94-95 | a countdown tick applies Step for Tick and keeps the invariant |
| FocusTimer.Timer.AlarmTick | src/App.jsx:81-87 | an alarm tick applies Step for AlarmTick and keeps the invariant |
| FocusTimer.Timer.Toggle | src/App.jsx:121 | play/pause applies Step for Toggle and keeps the invariant |
| FocusTimer.Timer.StopAlarm | src/App.jsx:119 | the bell button applies Step for StopAlarm and keeps the invariant |
| FocusTimer.Timer.Reset | src/App.jsx:76 | reset applies Step for Reset and keeps the invariant |
| FocusTimer.Timer.Quit | src/App.jsx:77 | quit applies Step for Quit and keeps the invariant |
| FocusTimer.Timer.PresetPomodoro | src/App.jsx:127 | the 25 Min button applies Step for PresetPomodoro and keeps the invariant |
| FocusTimer.Timer.PresetHour | src/App.jsx:128 | the 1 Hour button applies Step for PresetHour and keeps the invariant |
| FocusTimer.Timer.StartCustom | src/App.jsx:103-106 | starting a custom timer applies Step for StartCustom and keeps the invariant |

## Left out

- Rendering is not modelled: JSX, animations, icons, theme colours, the social links and page navigation.
- Audio playback is not modelled. The alarm is only the `isAlarmPlaying` flag and its repeat count.
- Saving to and loading from `localStorage` as JSON is not modelled. `TaskStore`'s constructor takes the loaded list as a parameter.
- Real time is not modelled. The 1-second and 1.5-second intervals become the events `Tick` and `AlarmTick`. `Enabled` states when each interval is armed, and clearing an interval means the event is no longer enabled.
- `Date.now()` ids are a parameter (`freshId`). Unique ids are assumed where the invariant needs them.
- `parseInt` on the select and input strings is not modelled; the values arrive as integers. This leaves out NaN, empty strings (read as 0 for the custom timer) and fractional input.
- The pixel layout of task blocks, the hour-dot lookup, `pickRandomPastel` and the timer's `Xh Ym Zs` display text are presentation only, and are not modelled.
- The modal form's own state is not modelled: opening, closing, and pre-filling it from a task in `openEdit`. Only the values it submits are.
- FormatTimeShape: stated for non-negative minute counts only. The app never stores a negative count, and the model still computes the JavaScript result for one.
- Leaving the timer page unmounts `TimerPage` (src/App.jsx:394): its intervals are cleared, a running countdown or ringing alarm is discarded, and the timer returns to `Initial` on the next visit. The model keeps one `Timer` and does not model mounting.
- The custom panel's own state is not modelled: showing and hiding it with `showCustomInput` (src/App.jsx:129), and clearing the `customH` and `customM` text after a start (src/App.jsx:105). Only the entered hours and minutes reach `StartCustom`.
- JavaScript numbers are doubles. Minute and second counts are modelled as unbounded integers; the app's values are small whole numbers.
