# Pomodoro task manager — a Dafny model

This project models the core of a single-user task manager with a Pomodoro
focus timer. It covers:

- **The state store.** It holds the task list, the active-task pointer, the
  timer settings (work, short-break and long-break minutes, and the number of
  sessions between long breaks), three statistics counters and the theme. It
  has seven updaters: add, update, delete, set active, merge settings,
  increment a session, and toggle theme.
- **The timer component.** It counts the seconds down, switches between work
  and break phases, and reports each finished work session to the store
  while a task is active.
- **The task list.** This covers its ordering and its buttons.
- **The new-task form.**
- **The statistics cards.**

Module by module:

- `Types` holds the records from `src/types.ts`: `Task`, `TimerSettings` and
  `Statistics`, the three priorities and the five categories (with their
  string spellings), and `Option`.
- `Store` models `src/store/useStore.ts`.
  - Each updater is a function from the old `State` snapshot to the new one.
    Its contract says what changes and what stays.
  - `Action` and `Apply` group the seven updaters so that the store invariant
    can be stated for every updater at once. The invariant is distinct ids and
    non-negative counters.
  - The id from `crypto.randomUUID()` and the time from `Date.now()` are
    parameters.
- `StoreHook.StoreObject` is the shared store object. Its `state` field is swapped
  for the updater's result, which is what the store's `set` does.
- `PomodoroTimer` models `src/components/PomodoroTimer.tsx`.
  - `TimerView` and the functions on it state what each handler does.
  - `Timer` is a class with the component's four state fields. Its methods
    are proved against those functions.
  - One second of the interval is an explicit `Tick`. The effect's completion
    at zero is an explicit `Settle`.
  - `Step` and `Run` replay a sequence of events (`Second`, Start/Pause, Skip)
    over the timer and the store together. This is where these lemmas live:
    - while a task is active, sessions counted by the timer equal sessions
      added to the statistics;
    - with non-negative durations, the countdown never goes negative;
    - a running work phase of d seconds ends after exactly d seconds.
  - The mm:ss display is also here.
- `TaskList` models `src/components/TaskList.tsx`:
  - the comparator;
  - a stable insertion sort (JavaScript's `Array.prototype.sort` is stable);
  - the four row buttons, as the store `Action` each one issues.
- `TaskForm` models `src/components/TaskForm.tsx`. The form is a class with
  the four field values. `trim` is modelled with ECMAScript's full set of
  white-space and line-terminator characters.
- `StatisticsView` models `src/components/Statistics.tsx`.
- `JsNumber` holds the JavaScript operations the components use on whole
  numbers:
  - `Math.floor(x / 60)`;
  - the truncating remainder `x % 60`;
  - `Math.round(x / 60)`;
  - `String(n)`;
  - `padStart(2, "0")`.

Behaviour of the code worth knowing:

- **Break choice.** The timer picks a long break only when
  `pomodoroCount > 0`. So with an interval of 1, the first break is short
  even though one session is a multiple of the interval. With an interval of
  0, the remainder is NaN and every break is short.
- **Completed-task counter on an unknown id.** `updateTask` with
  `completed: true` and an id that no task has still raises the
  completed-task counter.
- **Counters are not monotonic.** Focus minutes fall if the work duration has
  been set negative. Settings are not validated, and no clamping is modelled.
- **Active-task test.** `if (activeTaskId)` treats the empty-string id like
  `null`, so such a session is not reported to the store.
- **Sessions without an active task.** With no task selected (or an empty
  id), a finished work session is counted by the timer only; the statistics
  never see it.
- **Negative durations.** A negative duration loads a negative countdown.
  The interval then neither ticks it nor completes it, and the display
  shows it with minus signs.

## Model

| member | source | states |
|---|---|---|
| `Types.ParsePriority` | src/types.ts:1 | a priority is exactly one of 'low', 'medium', 'high'; reading a spelling back gives the priority it names |
| `Types.ParseCategory` | src/types.ts:2 | a category is exactly one of the five spellings; reading one back gives the category it names |
| `Types.PriorityName` | src/types.ts:1 | each priority is spelled as one of the three literals the persisted tasks and the form's select use |
| `Types.CategoryName` | src/types.ts:2 | each category is spelled as one of the five literals the persisted tasks and the form's select use |
| `JsNumber.FloorDiv` | src/components/PomodoroTimer.tsx:69 | `Math.floor(a / b)` is the q with b*q <= a < b*q + b |
| `JsNumber.JsRem60` | src/components/PomodoroTimer.tsx:70 | `a % 60` differs from a by a multiple of 60, lies in [0, 60) for a >= 0 and in (-60, 0] for a < 0 |
| `JsNumber.RoundDiv60` | src/components/Statistics.tsx:46 | `Math.round(a / 60)` is the integer within half of a/60, halves going up |
| `JsNumber.DigitChar` | src/components/PomodoroTimer.tsx:85 | a digit below ten is written as a decimal digit character |
| `JsNumber.DecimalString` | src/components/PomodoroTimer.tsx:85 | `String(n)` of n >= 0 is non-empty digits, a single digit exactly when n < 10 |
| `JsNumber.JsString` | src/components/PomodoroTimer.tsx:85 | `String(n)` is digits for n >= 0 and starts with '-' for n < 0 |
| `JsNumber.PadStart2` | src/components/PomodoroTimer.tsx:85 | `padStart(2, "0")` keeps the string as its suffix, prefixes only zeros, and gives at least two characters |
| `JsNumber.DecimalRoundTrip` | src/components/PomodoroTimer.tsx:85 | reading back the digits `String(n)` writes gives n |
| `JsNumber.LeadingZeros` | src/components/PomodoroTimer.tsx:85 | zeros put in front of digits do not change their value |
| `JsNumber.DecimalLength` | src/components/PomodoroTimer.tsx:85 | a number below 100 is written with at most two digits |
| `JsNumber.PaddedRoundTrip` | src/components/PomodoroTimer.tsx:85 | a padded number is all digits, exactly two below 100, and reads back as the number |
| `Store.Initial` | src/store/useStore.ts:23-36 | the first state has no tasks, no active task, settings 25/5/15/4, counters 0, light theme, and satisfies the store invariant |
| `Store.FirstIndex` | src/store/useStore.ts:57 | the search stops at the first task with the id, and finds none when no task has it |
| `Store.FindById` | src/store/useStore.ts:57 | `find` gives the first task in the list with that id, and nothing exactly when no task has the id |
| `Store.FindUnique` | src/store/useStore.ts:57 | with distinct ids, `find` gives the one task with that id |
| `Store.AddTask` | src/store/useStore.ts:38-49 | exactly one task is appended at the end, with the given fields, the given id and time and 0 sessions; earlier tasks, the pointer, settings, statistics and theme are unchanged |
| `Store.UpdateTask` | src/store/useStore.ts:51-63 | every task with the id gets the update merged in and every other task stays, in the same order; the completed counter rises by one exactly when the update sets completed and the first task with the id is not completed (or none has it); nothing else changes |
| `Store.Merge` | src/store/useStore.ts:54 | `{ ...task, ...updates }`: each supplied field overwrites and each absent one is kept, per `UpdateTask` and `MergeIdempotent` |
| `Store.MergeIdempotent` | src/store/useStore.ts:54 | merging the same update twice equals merging it once; an empty update leaves the task as it is |
| `Store.CountsCompletion` | src/store/useStore.ts:57 | the counter condition: the update sets completed and the first task with the id is not completed, or none has the id; `CompletionCountedOnce` and `UnknownIdCountsCompletion` state both cases |
| `Store.RemoveId` | src/store/useStore.ts:67 | the filter keeps exactly the tasks whose id differs |
| `Store.RemoveIdAppend` | src/store/useStore.ts:67 | filtering preserves the relative order of what it keeps |
| `Store.RemoveAbsentId` | src/store/useStore.ts:67 | filtering out an id no task has keeps the list as it is |
| `Store.DeleteTask` | src/store/useStore.ts:65-69 | the tasks with the id are gone and all others remain; the pointer becomes null exactly when it named the id and is otherwise unchanged; settings, statistics and theme are unchanged |
| `Store.DeleteKeepsUniqueIds` | src/store/useStore.ts:67 | deleting keeps ids distinct |
| `Store.SetActiveTaskId` | src/store/useStore.ts:71 | the pointer becomes the given id, whether or not a task has it; nothing else changes |
| `Store.MergeSettings` | src/store/useStore.ts:75 | each supplied setting overwrites, each absent one is kept, with no validation |
| `Store.UpdateTimerSettings` | src/store/useStore.ts:73-76 | only the settings change, by the merge |
| `Store.SettingsUpdateIdempotent` | src/store/useStore.ts:73-76 | merging the same update twice equals merging it once; an empty update changes nothing |
| `Store.IncrementPomodoro` | src/store/useStore.ts:78-91 | each task with the id gets one more session and others stay; the session counter rises by one and focus minutes by the work duration even when no task matches; the completed counter is unchanged |
| `Store.ToggleTheme` | src/store/useStore.ts:93-96 | the theme changes and nothing else does |
| `Store.ToggleThemeTwice` | src/store/useStore.ts:93-96 | toggling twice restores the state |
| `Store.ValidPreserved` | src/store/useStore.ts:38-96 | every updater keeps ids distinct and counters non-negative, given a fresh id for a new task, no renaming update and a non-negative work duration |
| `Store.CountersNeverDecrease` | src/store/useStore.ts:51-91 | no updater lowers any counter while the work duration is not negative |
| `Store.CompletionCountedOnce` | src/store/useStore.ts:56-62 | for an existing task, the counter rises (by exactly one) iff the update sets completed and the task was open; re-completing or un-completing leaves it |
| `Store.CompleteTwiceCountsOnce` | src/store/useStore.ts:56-62 | completing the same existing task a second time does not change the statistics again |
| `Store.UnknownIdCountsCompletion` | src/store/useStore.ts:56-62 | completing an id no task has changes no task but still raises the completed counter |
| `Store.DeleteUndoesAdd` | src/store/useStore.ts:38-69 | deleting a task just added under a fresh id restores the old state, except that a pointer naming that id is cleared |
| `StoreHook.StoreObject.constructor` | src/store/useStore.ts:20-36 | a new store holds the initial state |
| `StoreHook.StoreObject.AddTask` | src/store/useStore.ts:38-49 | the store's state becomes the `addTask` snapshot |
| `StoreHook.StoreObject.UpdateTask` | src/store/useStore.ts:51-63 | the store's state becomes the `updateTask` snapshot |
| `StoreHook.StoreObject.DeleteTask` | src/store/useStore.ts:65-69 | the store's state becomes the `deleteTask` snapshot |
| `StoreHook.StoreObject.SetActiveTaskId` | src/store/useStore.ts:71 | the store's state becomes the `setActiveTaskId` snapshot |
| `StoreHook.StoreObject.UpdateTimerSettings` | src/store/useStore.ts:73-76 | the store's state becomes the `updateTimerSettings` snapshot |
| `StoreHook.StoreObject.IncrementPomodoro` | src/store/useStore.ts:78-91 | the store's state becomes the `incrementPomodoro` snapshot |
| `StoreHook.StoreObject.ToggleTheme` | src/store/useStore.ts:93-96 | the store's state becomes the `toggleTheme` snapshot |
| `PomodoroTimer.Mounted` | src/components/PomodoroTimer.tsx:13-16 | on mounting: work duration × 60 seconds, stopped, work phase, no sessions |
| `PomodoroTimer.Truthy` | src/components/PomodoroTimer.tsx:29 | `if (activeTaskId)`: null and the empty string are falsy; `StoreAfterCompletion` and `NoActiveTaskNoStoreChange` show no report is made for them |
| `PomodoroTimer.IsLongBreak` | src/components/PomodoroTimer.tsx:33-35 | the long-break test, characterised for every interval by `LongBreakSchedule` |
| `PomodoroTimer.BreakDuration` | src/components/PomodoroTimer.tsx:36-38 | the earned break is the long duration exactly on a long break, else the short one; `DefaultSchedule` gives the 15/5 pattern |
| `PomodoroTimer.Reset` | src/components/PomodoroTimer.tsx:21-24 | loads duration × 60 seconds and stops, keeping phase and count; `ResetWorkPhaseRunsToCompletion` shows a reset work phase then runs to its end |
| `PomodoroTimer.Completed` | src/components/PomodoroTimer.tsx:26-45 | completion always stops and flips the phase; after work the count rises by one and the break's minutes × 60 are loaded; after a break the count stays and the work minutes × 60 are loaded |
| `PomodoroTimer.StoreAfterCompletion` | src/components/PomodoroTimer.tsx:29-31 | the store gets `incrementPomodoro(activeTaskId)` iff a work phase ends and the id is truthy; otherwise it is untouched |
| `PomodoroTimer.Ticked` | src/components/PomodoroTimer.tsx:58-61 | a second takes exactly one off while running with time left, changes nothing otherwise, and never makes a non-negative countdown negative |
| `PomodoroTimer.Toggled` | src/components/PomodoroTimer.tsx:89 | Start/Pause flips only whether the countdown runs |
| `PomodoroTimer.Skipped` | src/components/PomodoroTimer.tsx:100-107 | Skip in either phase does exactly what completing the phase does |
| `PomodoroTimer.Timer.constructor` | src/components/PomodoroTimer.tsx:13-16 | the timer starts in the mounted state for the store's current settings |
| `PomodoroTimer.Timer.ResetTimer` | src/components/PomodoroTimer.tsx:21-24 | loads duration × 60 seconds and stops, keeping phase and count |
| `PomodoroTimer.Timer.HandleComplete` | src/components/PomodoroTimer.tsx:26-45 | the fields become the completed view and the store gets exactly the completion's store effect |
| `PomodoroTimer.Timer.Tick` | src/components/PomodoroTimer.tsx:58-61 | the fields become the ticked view |
| `PomodoroTimer.Timer.Settle` | src/components/PomodoroTimer.tsx:62-64 | at zero the phase completes, with its store effect; otherwise nothing changes |
| `PomodoroTimer.Timer.StartPause` | src/components/PomodoroTimer.tsx:89 | the fields become the toggled view |
| `PomodoroTimer.Timer.Skip` | src/components/PomodoroTimer.tsx:100-107 | the fields become the skipped view and the store gets the completion's store effect |
| `PomodoroTimer.Step` | src/components/PomodoroTimer.tsx:55-67 | one second, Start/Pause or Skip counts at most one session, and the store changes exactly when a session is counted with a truthy active id, by `incrementPomodoro` on that id |
| `PomodoroTimer.SessionsReachStore` | src/components/PomodoroTimer.tsx:26-45 | over any events with an active task, the statistics gain exactly as many sessions as the timer counted, the active task gains that many, focus minutes gain that many work durations, and nothing else in the store changes |
| `PomodoroTimer.NoActiveTaskNoStoreChange` | src/components/PomodoroTimer.tsx:29-31 | without a truthy active id, no sequence of events changes the store |
| `PomodoroTimer.TimeLeftNeverNegative` | src/components/PomodoroTimer.tsx:55-67 | with non-negative durations, no sequence of events takes the countdown below zero |
| `PomodoroTimer.CountsDown` | src/components/PomodoroTimer.tsx:58-61 | k seconds of a running countdown with more than k left take off exactly k and leave the store alone |
| `PomodoroTimer.WorkPhaseEndsOnTime` | src/components/PomodoroTimer.tsx:55-67 | a running work phase with d seconds left ends after exactly d seconds, in a stopped break, with one more session and one store report |
| `PomodoroTimer.ResetWorkPhaseRunsToCompletion` | src/components/PomodoroTimer.tsx:21-24 | after a reset to the work duration, Start and that many minutes of seconds end the phase in the earned stopped break, with one more session and its store report |
| `PomodoroTimer.LongBreakSchedule` | src/components/PomodoroTimer.tsx:33-38 | with interval >= 2 a break is long iff sessions-so-far+1 is a multiple of it; with interval 1 every break but the first is long; with 0 none is |
| `PomodoroTimer.DefaultSchedule` | src/components/PomodoroTimer.tsx:33-38 | with the default settings, sessions 4, 8, … earn 15 minutes and the others 5 |
| `PomodoroTimer.ClockParts` | src/components/PomodoroTimer.tsx:69-70 | for a non-negative countdown, seconds are below 60 and minutes × 60 + seconds is the countdown |
| `PomodoroTimer.Clock` | src/components/PomodoroTimer.tsx:85 | the rendered mm:ss; `ClockReadsBack` shows it reads back as the countdown |
| `PomodoroTimer.SplitAtColon` | src/components/PomodoroTimer.tsx:85 | two-digit-or-longer minutes, a colon and two-digit seconds read back as minutes × 60 + seconds |
| `PomodoroTimer.ClockReadsBack` | src/components/PomodoroTimer.tsx:69-85 | for a non-negative countdown, the display is digits, a colon and exactly two digits, and reading them back as minutes and seconds gives the countdown |
| `TaskList.CompareConsistent` | src/components/TaskList.tsx:9-14 | the comparator is antisymmetric, total and transitive |
| `TaskList.Compare` | src/components/TaskList.tsx:9-14 | the comparator: open before completed, then newest first; `CompareConsistent` and `SortedListOrder` state the order it induces |
| `TaskList.Insert` | src/components/TaskList.tsx:9-14 | inserting into an ordered list keeps it ordered and adds exactly that task |
| `TaskList.SortedTasks` | src/components/TaskList.tsx:9-14 | the shown list is ordered by the comparator and is a permutation of the store's list |
| `TaskList.OrderedPairwise` | src/components/TaskList.tsx:9-14 | in the shown list every task may precede every later one |
| `TaskList.SortedListOrder` | src/components/TaskList.tsx:9-14 | the shown list has the store's tasks, each as often; every open task precedes every completed one; within a group creation times do not increase |
| `TaskList.OnToggle` | src/components/TaskList.tsx:30-31 | the check button issues an update of that id setting completed to the negation of the task's flag |
| `TaskList.OnEdit` | src/components/TaskList.tsx:79-80 | the edit button issues an update iff the prompt answer is non-empty, and the update carries only that title |
| `TaskList.OnActivate` | src/components/TaskList.tsx:72 | the timer button sets the pointer to the row's id |
| `TaskList.OnDelete` | src/components/TaskList.tsx:87 | the trash button deletes the row's id |
| `TaskList.ToggleFlipsOneTask` | src/components/TaskList.tsx:30-31 | checking a row flips that task's flag only and raises the completed counter iff the task was open |
| `TaskList.ToggleTwiceRestoresTasks` | src/components/TaskList.tsx:30-31 | checking a row twice gives back the task list |
| `TaskList.EditRenamesOneTask` | src/components/TaskList.tsx:79-80 | an accepted edit changes only that task's title, and no statistics |
| `TaskList.DeleteRemovesOneTask` | src/components/TaskList.tsx:87 | the trash button removes exactly that row's task and keeps the others in order |
| `TaskForm.TrimStart` | src/components/TaskForm.tsx:15 | what is dropped in front is all white space, and the rest does not start with any |
| `TaskForm.TrimEnd` | src/components/TaskForm.tsx:15 | what is dropped at the end is all white space, and the rest does not end with any |
| `TaskForm.Trim` | src/components/TaskForm.tsx:15 | `title.trim()`: leading then trailing white space dropped; `TrimEmptyIffBlank` characterises when nothing is left |
| `TaskForm.TrimEmptyIffBlank` | src/components/TaskForm.tsx:15 | a title trims to nothing iff every character is white space |
| `TaskForm.Form.constructor` | src/components/TaskForm.tsx:8-11 | the fields start as '', '', medium, work |
| `TaskForm.Form.SetTitle` | src/components/TaskForm.tsx:37 | typing sets the title only |
| `TaskForm.Form.SetDescription` | src/components/TaskForm.tsx:45 | typing sets the description only |
| `TaskForm.Form.SetPriority` | src/components/TaskForm.tsx:54 | selecting sets the priority only |
| `TaskForm.Form.SetCategory` | src/components/TaskForm.tsx:63 | selecting sets the category only |
| `TaskForm.Form.HandleSubmit` | src/components/TaskForm.tsx:13-29 | a blank title changes neither the form nor the store; otherwise exactly one `addTask` with the untrimmed title, the current description, priority and category and completed false, then the fields reset to '', '', medium, work |
| `StatisticsView.FocusHours` | src/components/Statistics.tsx:46 | the hours shown are the nearest whole number to total/60, halves up |
| `StatisticsView.FocusMinutes` | src/components/Statistics.tsx:47 | the minutes shown differ from the total by whole hours and are below 60 for a non-negative total |
| `StatisticsView.Shown` | src/components/Statistics.tsx:6-47 | the two counters are shown verbatim, and the focus time as `FocusHours` and `FocusMinutes` of the total, so `FocusTimeAsShown` and the finding below apply to the card; for a non-negative total the hours are non-negative and the minutes below 60 |
| `StatisticsView.FocusTimeAsShown` | src/components/Statistics.tsx:46-47 | for a non-negative total, hours × 60 + minutes is the total iff total mod 60 < 30, and the total plus 60 iff total mod 60 >= 30 |
| `StatisticsView.NinetyMinutesShownAsTwoAndAHalfHours` | src/components/Statistics.tsx:46-47 | 90 minutes are shown as 2 hours and 30 minutes |
| `StatisticsView.WholeFocusHours` | src/components/Statistics.tsx:46 | whole hours: the h with 60h <= total < 60h + 60 |
| `StatisticsView.WholeHoursAddUp` | src/components/Statistics.tsx:46-47 | with whole hours, hours × 60 + minutes is always the total |

## Left out

- Saving to and loading from local storage (src/store/useStore.ts:98-100) is I/O. A new store starts from the initial state.
- `crypto.randomUUID()` and `Date.now()` are foreign calls. The id and the time are parameters. Only the lemmas that need a fresh id require one.
- The one-second `setInterval` and its clean-up are wall-clock scheduling. The model replaces them with explicit `Tick` and `Settle` steps, and a `Second` event is one of each.
- PomodoroTimer.Step: in the component, a zero-minute phase completes again as soon as it is loaded. The model completes at most once per `Second`.
- The settings inputs (src/components/PomodoroTimer.tsx:113-183) parse text with `parseInt`, which can give NaN. Settings are modelled as integers.
- The settings panel's show/hide flag and the active task's title heading are rendering only.
- `prompt()` in the edit button is browser I/O. Its answer is a parameter.
- Rendering, CSS classes, icons and the theme wrapper in src/App.tsx are not modelled.
- TaskList.SortedTasks: does not state stability. The sort is a stable insertion sort, but no lemma fixes the order among tasks with the same completion flag and creation time.
- Floating-point numbers are not modelled. Every quantity is a whole number.

## Findings

| source | as written | input that shows it | evidently intended | confidence | as-written member | corrected member |
|---|---|---|---|---|---|---|
| src/components/Statistics.tsx:46 | the hours are `Math.round(total / 60)`, while the minutes beside them are `total % 60` | a total of 90 minutes is shown as "2h 30m" | whole hours, `Math.floor(total / 60)`, so that 90 minutes read "1h 30m" | high; not executed | `StatisticsView.NinetyMinutesShownAsTwoAndAHalfHours` | `StatisticsView.WholeHoursAddUp` |

`StatisticsView.Shown` keeps the rounding, as the component has it. No other member of the model reads the hours.
