# Pomodoro timer: countdown state machine and display

A model of the `PomodoroTimer` component of pomotion. The timer counts a
signed number of seconds. It starts at minus the work interval and rises by
one each second while running. It reaches zero when the phase ends and keeps
rising into overtime. At zero it shows a desktop notification. Clicking the
notification switches phase and pauses. The user also has Reset, Play and Skip
buttons, which are offered depending on the state. The count is displayed as
an optional `+` (overtime) followed by zero-padded `MM:SS`.

Modules:

- `Wrappers`: `Option` (a nullable handle) and `Result` (a handler that faults).
- `TimeFormat`: `formatTime` with decimal rendering and `padStart`. It also
  holds a reader for the display syntax, which is proved to invert
  `formatTime`.
- `TimerModel`: the state as a datatype and one function per handler. It
  defines the invariant every handler keeps, and the events (clock second,
  buttons, notification click or dismissal) with runs of them.
- `App`: the component as the class `PomodoroTimer`. Its fields are updated in
  place by its handler methods. Each method is proved to keep the invariant
  and to move the fields exactly as the matching `TimerModel` function does.
- `Findings`: `handleReset` and `handleSkip` as written, both of which fault.
- `Scenarios`: display examples, plus a run with the debug durations (6 s of
  work, 3 s of break) driven through the class.

Configuration is passed in, not read from the environment. The constructor
takes `workInterval`, `breakInterval` (positive seconds) and
`notificationsEnabled`. The desktop's notifications are modelled as the field
`displayed`, a map from handle to title and body. Handles are numbered by the
counter `nextHandle`, so `nextHandle` is also the number of notifications
issued so far. Closing a notification removes it from `displayed`. If it is
the held one, `notification` also becomes `None`.

Each handler is one atomic update, applied in statement order. `switchMode`
picks the new time from the phase before the flip, as line 97 intends.
`switchMode` leaves `isRunning` alone and Play toggles it, as in
src/App.jsx. Reset and Skip close the held notification only if one exists.
The as-written versions that fault are kept in `Findings`.

## Model

| member | source | states |
|---|---|---|
| `TimeFormat.FormatTime` | src/App.jsx:41-47 | the display is at least five characters long and starts with `+` exactly when the count is positive |
| `TimeFormat.FormatTimeFields` | src/App.jsx:42-46 | the display is well shaped: a `+` only for positive counts, a minutes field of at least two digits, a colon, a seconds field of exactly two digits below 60, and minutes * 60 + seconds equals the magnitude of the count |
| `TimeFormat.ParseFormatTime` | src/App.jsx:41-47 | reading a display back gives the count it was rendered from, for every integer, including sign and overtime |
| `TimeFormat.FormatTimeInjective` | src/App.jsx:41-47 | two different counts never display the same text |
| `TimeFormat.NatToString` | src/App.jsx:46 | `toString()` of a whole number gives at least one digit, no leading zero, and one digit exactly below 10 |
| `TimeFormat.NatToStringValue` | src/App.jsx:46 | the decimal text of `n` denotes `n` |
| `TimeFormat.PadStart` | src/App.jsx:46 | `padStart` reaches the target length, keeps the original string as its suffix, fills only the prefix, and never truncates |
| `TimeFormat.LeadingZeros` | src/App.jsx:46 | zero padding does not change the value of a digit string |
| `TimeFormat.FieldValue` | src/App.jsx:46 | a padded field is all digits, at least two long, and denotes its number |
| `TimeFormat.FieldOfSmall` | src/App.jsx:45-46 | a padded seconds value (below 100) is exactly two characters |
| `TimerModel.Init` | src/App.jsx:9-13 | the mount state satisfies the invariant |
| `TimerModel.Tick` | src/App.jsx:28-30 | adding a second keeps the invariant |
| `TimerModel.TickAddsOneSecond` | src/App.jsx:29 | a tick adds exactly one to `time` and changes nothing else |
| `TimerModel.Close` | src/App.jsx:72 | closing `h` removes exactly `h` from the screen and drops it if it was held |
| `TimerModel.CloseHeld` | src/App.jsx:52-54 | after closing the held notification nothing is held, and only that one left the screen |
| `TimerModel.NotifyUser` | src/App.jsx:49-93 | notifying keeps the invariant, so one notification at most is on screen |
| `TimerModel.OnlySecondIssues` | src/App.jsx:35-57 | an event issues a notification exactly when it is a clock second that brings a running count to zero with permission granted; no button or notification callback issues one |
| `TimerModel.CloseKeepsInv` | src/App.jsx:52-54 | closing one notification, or the held one, keeps the invariant |
| `TimerModel.SecondsWithoutPermission` | src/App.jsx:28-37 | without permission, n seconds of a running timer add exactly n to the count, through zero and into overtime, and change nothing else |
| `TimerModel.NotifyReplacesHeld` | src/App.jsx:51-57 | with permission, the previously held notification is off screen and the new handle is the only one shown and held |
| `TimerModel.TimeChanged` | src/App.jsx:35-37 | the notify-at-zero effect keeps the invariant |
| `TimerModel.SecondNotifiesAtZero` | src/App.jsx:28-37 | a clock second issues a notification exactly when the timer runs, the count reaches zero and permission was granted; the title is that of the phase that ended; otherwise notifications are untouched, so a second past zero issues none |
| `TimerModel.SwitchMode` | src/App.jsx:95-98 | switching keeps the invariant |
| `TimerModel.SwitchStartsFullPhase` | src/App.jsx:95-98 | switching flips the phase, sets time to minus the new phase's duration and changes nothing else |
| `TimerModel.SwitchTwice` | src/App.jsx:95-98 | switching twice restores the phase, with time at minus its full duration |
| `TimerModel.HandleReset` | src/App.jsx:101-107 | reset keeps the invariant from any state, including one with no notification |
| `TimerModel.ResetFromAnyState` | src/App.jsx:101-107 | from any state, reset gives a paused, full work phase with no notification held or shown |
| `TimerModel.ResetIdempotent` | src/App.jsx:101-107 | resetting twice equals resetting once |
| `TimerModel.HandlePlay` | src/App.jsx:110-112 | play keeps the invariant |
| `TimerModel.PlayToggles` | src/App.jsx:110-112 | play flips `isRunning`, changes nothing else, and twice is the identity |
| `TimerModel.HandleSkip` | src/App.jsx:115-120 | skip (offered only while running in overtime, line 152) keeps the invariant |
| `TimerModel.SkipStartsOtherPhase` | src/App.jsx:115-120 | skip starts the other phase in full, paused, with no notification, and issues none |
| `TimerModel.OnClick` | src/App.jsx:68-74 | the click callback keeps the invariant |
| `TimerModel.ClickStartsOtherPhase` | src/App.jsx:68-74 | clicking the held notification starts the other phase in full, paused, with the notification closed, and issues none |
| `TimerModel.OnClose` | src/App.jsx:77-80 | the close callback keeps the invariant |
| `TimerModel.DismissKeepsTimer` | src/App.jsx:76-80 | dismissing leaves time, phase and running untouched and takes the notification off screen, and issues none |
| `TimerModel.Run` | src/App.jsx:9-120 | every run of events from a valid state ends in a valid state |
| `TimerModel.StepKeepsInv` | src/App.jsx:25-120 | every single event keeps the invariant |
| `TimerModel.RunKeepsOneNotification` | src/App.jsx:49-107 | after any run of events at most one notification is on screen, it is the held one, and time is at least minus the phase duration |
| `TimerModel.AtMostOneDisplayed` | src/App.jsx:52-57 | the invariant allows at most one notification on screen |
| `App.PomodoroTimer.constructor` | src/App.jsx:9-13 | mount: time is minus the work interval, paused, work phase, no notification |
| `App.PomodoroTimer.Tick` | src/App.jsx:28-37 | the running timer's second adds one to `time`, keeps phase and running, then runs the notify-at-zero effect |
| `App.PomodoroTimer.NotifyUser` | src/App.jsx:49-93 | the fields change exactly as `TimerModel.NotifyUser` says and the invariant holds |
| `App.PomodoroTimer.SwitchMode` | src/App.jsx:95-98 | the fields change exactly as `TimerModel.SwitchMode` says |
| `App.PomodoroTimer.HandleReset` | src/App.jsx:101-107 | the fields change exactly as `TimerModel.HandleReset` says |
| `App.PomodoroTimer.HandlePlay` | src/App.jsx:110-112 | the fields change exactly as `TimerModel.HandlePlay` says |
| `App.PomodoroTimer.HandleSkip` | src/App.jsx:115-120 | the fields change exactly as `TimerModel.HandleSkip` says, callable while running in overtime |
| `App.PomodoroTimer.OnNotificationClick` | src/App.jsx:68-74 | the fields change exactly as `TimerModel.OnClick` says |
| `App.PomodoroTimer.OnNotificationClose` | src/App.jsx:77-80 | the fields change exactly as `TimerModel.OnClose` says |
| `App.PomodoroTimer.CloseNotification` | src/App.jsx:72 | the fields change exactly as `TimerModel.Close` says |
| `App.PomodoroTimer.CloseHeldNotification` | src/App.jsx:52-54 | the fields change exactly as `TimerModel.CloseHeld` says |
| `App.PomodoroTimer.Display` | src/App.jsx:127-129 | the rendered text is `formatTime(time)`, reads back as `time`, and has a `+` exactly in overtime |
| `Findings.DisabledNeverIssues` | src/App.jsx:51 | without permission no run of events issues a notification |
| `Findings.ResetAsWrittenFaultsWithoutPermission` | src/App.jsx:101-107 | with permission denied, the as-written reset faults after every run of events from mount |
| `Findings.SkipAsWrittenFaultsInOvertime` | src/App.jsx:115-120 | mount with permission denied, Play, seven seconds: Skip is offered at `+00:01`, the as-written skip faults there, and the corrected one starts the break |
| `Scenarios.DisplayZero` | src/App.jsx:41-47 | zero displays as `00:00` |
| `Scenarios.DisplayRemaining` | src/App.jsx:41-47 | -90 displays as `01:30` |
| `Scenarios.DisplayOvertime` | src/App.jsx:41-47 | 65 displays as `+01:05` and 1 as `+00:01` |
| `Scenarios.DisplayFullWorkPhase` | src/App.jsx:5-47 | -1500 displays as `25:00` |
| `Scenarios.DisplayWideMinutes` | src/App.jsx:46 | 6000 displays as `+100:00`: the minutes field is not truncated |
| `Scenarios.RunWorkPhase` | src/App.jsx:5-37 | six running seconds of a 6-second work phase reach zero and issue notification 0 |
| `Scenarios.WorkPhaseCompletes` | src/App.jsx:9-112 | mount, Play, six seconds: `00:00` and one "Work Time Complete!" notification; one more second: `+00:01` and no second notification; reset: nothing on screen |

## Findings

| source | as written | input that shows it | evidently intended | confidence | as-written member | corrected member |
|---|---|---|---|---|---|---|
| src/App.jsx:106 | `handleReset` calls `notification.close()` without checking for null; the state is null until the first notification | press Reset right after mount, or at any time when permission was denied | close the notification only if one is held | not executed | `Findings.HandleResetAsWritten`, `Findings.ResetAsWrittenFaultsWithoutPermission` | `TimerModel.HandleReset`, `TimerModel.ResetFromAnyState` |
| src/App.jsx:118 | `handleSkip` closes `newNotification`, which is local to `notifyUser` | mount, Play, seven seconds (6 s work phase), then Skip | close the held notification, if any | not executed | `Findings.HandleSkipAsWritten`, `Findings.SkipAsWrittenFaultsInOvertime` | `TimerModel.HandleSkip`, `TimerModel.SkipStartsOtherPhase` |

The as-written members only report that the handler faults. They do not say
which of the setter calls queued before the fault still take effect.

## Left out

- Rendering: the JSX, the styling and the debug panel (src/App.jsx:122-171). Only the button conditions are kept: Play while paused, Skip while running with `time > 0`, and a notification can be clicked or dismissed only while on screen. `App.PomodoroTimer.Display` stands for the rendered count.
- React machinery: state batching, stale closures and re-renders. Each handler is one atomic, sequential update.
- Timer scheduling: `setInterval`/`clearInterval` and wall-clock drift (src/App.jsx:25-39). A tick is a method callable while `isRunning`.
- Effect re-firing: the effect also re-runs when `isRunning` changes while `time` is 0, which would notify again (src/App.jsx:35-39). The model notifies only on the tick that reaches zero.
- Permission request: `Notification.requestPermission` (src/App.jsx:16-22) is asynchronous browser I/O. `notificationsEnabled` is a fixed constructor parameter.
- Notification options and browser calls: the `tag` and `icon` options, `window.focus()` and `console.log`, and the commented-out visibility listener (src/App.jsx:56-89). The title and body are modelled.
- Environment detection: `debugMode` from `window.location.href` (src/App.jsx:4-6). The durations are constructor parameters. The 6/3 and 1500/300 values appear only in the scenarios.
- Closed notification objects: the source keeps a closed notification in its state. The model sets `notification` to `None` instead. The as-written reset keys its fault on whether any notification was ever issued (`nextHandle == 0`).
- `TimeFormat.NatToString`: written for unbounded integers. JavaScript numbers switch to exponent notation at 10^21 and lose precision above 2^53; neither is modelled. The timer never gets near those values.
