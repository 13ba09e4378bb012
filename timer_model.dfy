/** The countdown state machine of the PomodoroTimer component, as values:
    one function per handler, the invariant every handler keeps, and the
    properties that hold across any sequence of user and clock events. */
module TimerModel {
  import opened Wrappers

  /** A notification handle: handles are numbered in the order issued. */
  type Handle = nat

  /** What a notification shows. */
  datatype Alert = Alert(title: string, body: string)

  /** The durations of the two phases in seconds, and whether the user granted
      notification permission (read once, never re-queried). */
  datatype Config = Config(workInterval: int, breakInterval: int, notificationsEnabled: bool)

  predicate ValidConfig(c: Config) {
    c.workInterval > 0 && c.breakInterval > 0
  }

  /** The length of the work phase or of the break phase. */
  function Duration(c: Config, isWorkTime: bool): int {
    if isWorkTime then c.workInterval else c.breakInterval
  }

  /** The component's state. `time` is signed: negative while time remains,
      positive in overtime. `displayed` holds the notifications the desktop
      shows; `nextHandle` is the handle the next notification receives. */
  datatype State = State(
    time: int,
    isRunning: bool,
    isWorkTime: bool,
    notification: Option<Handle>,
    displayed: map<Handle, Alert>,
    nextHandle: nat)

  /** The notifications the component holds: none or the one it stored. */
  function Held(s: State): set<Handle> {
    if s.notification.Some? then {s.notification.value} else {}
  }

  /** The invariant: time never falls below minus the current phase's
      duration, and the only notification on screen is the one held. */
  predicate Inv(c: Config, s: State) {
    && ValidConfig(c)
    && s.time >= -Duration(c, s.isWorkTime)
    && s.displayed.Keys == Held(s)
    && forall h :: h in s.displayed ==> h < s.nextHandle
  }

  /** The state at mount: a full work phase ahead, paused, nothing shown. */
  function Init(c: Config): (s: State)
    requires ValidConfig(c)
    ensures Inv(c, s)
  {
    State(-c.workInterval, false, true, None, map[], 0)
  }

  /** One clock tick: the interval callback adds a second. */
  function Tick(c: Config, s: State): (r: State)
    requires Inv(c, s)
    ensures Inv(c, r)
  {
    s.(time := s.time + 1)
  }

  /** Closes notification `h`: it leaves the screen, and the component drops
      it if it is the one held. */
  function Close(s: State, h: Handle): (r: State)
    ensures r.displayed.Keys == s.displayed.Keys - {h}
    ensures r.notification == if s.notification == Some(h) then None else s.notification
  {
    s.(displayed := s.displayed - {h},
       notification := if s.notification == Some(h) then None else s.notification)
  }

  /** Closes the held notification, if there is one. */
  function CloseHeld(s: State): (r: State)
    ensures r.notification == None
    ensures r.displayed.Keys == s.displayed.Keys - Held(s)
  {
    match s.notification
    case None => s
    case Some(h) => Close(s, h)
  }

  /** The notification announcing the end of the current phase. */
  function CompletionAlert(isWorkTime: bool): Alert {
    if isWorkTime then Alert("Work Time Complete!", "Click here to start your break")
    else Alert("Break Time Complete!", "Click here to start working")
  }

  /** notifyUser: with permission, close the held notification, then show and
      hold a new one; without permission, nothing. */
  function NotifyUser(c: Config, s: State): (r: State)
    requires Inv(c, s)
    ensures Inv(c, r)
  {
    if !c.notificationsEnabled then s
    else
      var t := CloseHeld(s);
      var h := t.nextHandle;
      t.(displayed := t.displayed[h := CompletionAlert(s.isWorkTime)],
         notification := Some(h),
         nextHandle := h + 1)
  }

  /** The effect that runs after `time` changes: notify when it reaches zero. */
  function TimeChanged(c: Config, s: State): (r: State)
    requires Inv(c, s)
    ensures Inv(c, r)
  {
    if s.time == 0 then NotifyUser(c, s) else s
  }

  /** switchMode: flip the phase and start the new phase in full. The new time
      is chosen from the phase before the flip. */
  function SwitchMode(c: Config, s: State): (r: State)
    requires Inv(c, s)
    ensures Inv(c, r)
  {
    s.(isWorkTime := !s.isWorkTime,
       time := if s.isWorkTime then -c.breakInterval else -c.workInterval)
  }

  /** handleReset, with the missing null check added: back to a paused, full
      work phase, and the held notification (if any) closed. */
  function HandleReset(c: Config, s: State): (r: State)
    requires Inv(c, s)
    ensures Inv(c, r)
  {
    CloseHeld(s).(isWorkTime := true, time := -c.workInterval, isRunning := false)
  }

  /** handlePlay: toggle running. */
  function HandlePlay(c: Config, s: State): (r: State)
    requires Inv(c, s)
    ensures Inv(c, r)
  {
    s.(isRunning := !s.isRunning)
  }

  /** The Skip button is rendered only while running in overtime. */
  predicate SkipOffered(s: State) {
    s.isRunning && s.time > 0
  }

  /** handleSkip, closing the held notification rather than an undefined
      variable: switch phase, pause, close. */
  function HandleSkip(c: Config, s: State): (r: State)
    requires Inv(c, s) && SkipOffered(s)
    ensures Inv(c, r)
  {
    CloseHeld(SwitchMode(c, s).(isRunning := false))
  }

  /** The click callback of notification `h`: switch phase, pause, close `h`. */
  function OnClick(c: Config, s: State, h: Handle): (r: State)
    requires Inv(c, s)
    ensures Inv(c, r)
  {
    Close(SwitchMode(c, s).(isRunning := false), h)
  }

  /** The close callback of notification `h`: only `h` is released. */
  function OnClose(c: Config, s: State, h: Handle): (r: State)
    requires Inv(c, s)
    ensures Inv(c, r)
  {
    Close(s, h)
  }

  /** The events that reach the component: a clock second, the three buttons,
      and a click on or dismissal of notification `h`. */
  datatype Event = Second | Play | Reset | Skip | Click(h: Handle) | Dismiss(h: Handle)

  /** What an event does. Events that cannot happen in a state leave it
      unchanged: the clock ticks only while running, the Play button is
      rendered only while paused, the Skip button only while running in
      overtime, and only a notification on screen can be clicked or
      dismissed. */
  function Step(c: Config, s: State, e: Event): (r: State)
    requires Inv(c, s)
  {
    match e
    case Second => if s.isRunning then TimeChanged(c, Tick(c, s)) else s
    case Play => if !s.isRunning then HandlePlay(c, s) else s
    case Reset => HandleReset(c, s)
    case Skip => if SkipOffered(s) then HandleSkip(c, s) else s
    case Click(h) => if h in s.displayed then OnClick(c, s, h) else s
    case Dismiss(h) => if h in s.displayed then OnClose(c, s, h) else s
  }

  /** A run of `n` clock seconds. */
  function Seconds(n: nat): (es: seq<Event>)
    ensures |es| == n && forall i :: 0 <= i < n ==> es[i] == Second
  {
    if n == 0 then [] else [Second] + Seconds(n - 1)
  }

  /** The state after a sequence of events. */
  function Run(c: Config, s: State, es: seq<Event>): (r: State)
    requires Inv(c, s)
    ensures Inv(c, r)
    decreases |es|
  {
    if es == [] then s else Run(c, Step(c, s, es[0]), es[1..])
  }

  // ---------------------------------------------------------------------
  // Properties of the handlers

  /** Every event keeps the invariant. */
  lemma StepKeepsInv(c: Config, s: State, e: Event)
    requires Inv(c, s)
    ensures Inv(c, Step(c, s, e))
  {
  }

  /** From any reachable state, any run of events keeps at most one
      notification on screen, and it is the held one. */
  lemma {:induction false} RunKeepsOneNotification(c: Config, s: State, es: seq<Event>)
    requires Inv(c, s)
    ensures var r := Run(c, s, es);
      |r.displayed| <= 1 && r.displayed.Keys == Held(r)
      && r.time >= -Duration(c, r.isWorkTime)
  {
    var r := Run(c, s, es);
    AtMostOneDisplayed(c, r);
  }

  /** The invariant bounds the notifications on screen by one. */
  lemma AtMostOneDisplayed(c: Config, s: State)
    requires Inv(c, s)
    ensures |s.displayed| <= 1
  {
    assert |s.displayed| == |s.displayed.Keys|;
    assert |Held(s)| <= 1;
  }

  /** A tick adds exactly one second and changes nothing else. */
  lemma TickAddsOneSecond(c: Config, s: State)
    requires Inv(c, s)
    ensures var r := Tick(c, s);
      r.time == s.time + 1 && r.(time := s.time) == s
  {
  }

  /** A new notification is issued on a clock second exactly when the timer
      runs, the second brings the count to zero, and permission was granted;
      it then carries the title of the phase that ended and replaces the held
      one. A second that does not reach zero issues nothing. */
  lemma SecondNotifiesAtZero(c: Config, s: State)
    requires Inv(c, s)
    ensures var r := Step(c, s, Second);
      && (r.nextHandle != s.nextHandle <==>
           s.isRunning && s.time + 1 == 0 && c.notificationsEnabled)
      && (r.nextHandle != s.nextHandle ==>
           && r.nextHandle == s.nextHandle + 1
           && r.notification == Some(s.nextHandle)
           && r.displayed == map[s.nextHandle := CompletionAlert(s.isWorkTime)]
           && r.displayed[s.nextHandle].title ==
                (if s.isWorkTime then "Work Time Complete!" else "Break Time Complete!"))
      && (r.nextHandle == s.nextHandle ==> r.notification == s.notification && r.displayed == s.displayed)
      && r.isRunning == s.isRunning && r.isWorkTime == s.isWorkTime
      && r.time == if s.isRunning then s.time + 1 else s.time
  {
    if s.isRunning && s.time + 1 == 0 && c.notificationsEnabled {
      var t := CloseHeld(Tick(c, s));
      assert t.displayed.Keys == {};
      assert t.displayed == map[];
    }
  }

  /** Without permission, `n` seconds of a running timer only add `n` to the
      count, through zero and into overtime alike. */
  lemma {:induction false} SecondsWithoutPermission(c: Config, s: State, n: nat)
    requires Inv(c, s) && s.isRunning && !c.notificationsEnabled
    ensures Run(c, s, Seconds(n)) == s.(time := s.time + n)
    decreases n
  {
    if n > 0 {
      var es := Seconds(n);
      assert es[0] == Second && es[1..] == Seconds(n - 1);
      var t := Step(c, s, Second);
      assert t == s.(time := s.time + 1);
      SecondsWithoutPermission(c, t, n - 1);
    }
  }

  /** Only a clock second can issue a notification, and only the one that
      brings a running count to zero with permission granted; no other event
      touches the handle counter. */
  lemma OnlySecondIssues(c: Config, s: State, e: Event)
    requires Inv(c, s)
    ensures Step(c, s, e).nextHandle != s.nextHandle <==>
      e == Second && s.isRunning && s.time + 1 == 0 && c.notificationsEnabled
  {
  }

  /** Closing a notification keeps the invariant. */
  lemma CloseKeepsInv(c: Config, s: State, h: Handle)
    requires Inv(c, s)
    ensures Inv(c, Close(s, h)) && Inv(c, CloseHeld(s))
  {
  }

  /** Notifying closes whatever was held before showing the new alert, so the
      old handle is no longer on screen. */
  lemma NotifyReplacesHeld(c: Config, s: State)
    requires Inv(c, s) && c.notificationsEnabled
    ensures var r := NotifyUser(c, s);
      && r.notification == Some(s.nextHandle)
      && r.displayed.Keys == {s.nextHandle}
      && (forall h :: h in Held(s) ==> h !in r.displayed)
  {
  }

  /** After switchMode the time is minus the new phase's full duration. */
  lemma SwitchStartsFullPhase(c: Config, s: State)
    requires Inv(c, s)
    ensures var r := SwitchMode(c, s);
      && r.isWorkTime == !s.isWorkTime
      && r.time == -Duration(c, r.isWorkTime)
      && r.isRunning == s.isRunning && r.notification == s.notification
      && r.displayed == s.displayed && r.nextHandle == s.nextHandle
  {
  }

  /** Switching twice returns to the original phase, at its full duration. */
  lemma SwitchTwice(c: Config, s: State)
    requires Inv(c, s)
    ensures SwitchMode(c, SwitchMode(c, s)) == s.(time := -Duration(c, s.isWorkTime))
  {
  }

  /** Reset from any state gives a paused, full work phase with no
      notification held or shown; the handle counter is untouched. */
  lemma ResetFromAnyState(c: Config, s: State)
    requires Inv(c, s)
    ensures var r := HandleReset(c, s);
      && r.isWorkTime && r.time == -c.workInterval && !r.isRunning
      && r.notification == None && r.displayed == map[]
      && r.nextHandle == s.nextHandle
  {
    var r := HandleReset(c, s);
    assert r.displayed.Keys == {};
  }

  /** Resetting twice is the same as resetting once. */
  lemma ResetIdempotent(c: Config, s: State)
    requires Inv(c, s)
    ensures HandleReset(c, HandleReset(c, s)) == HandleReset(c, s)
  {
    ResetFromAnyState(c, s);
  }

  /** Play toggles running and nothing else; pressing it twice is the identity. */
  lemma PlayToggles(c: Config, s: State)
    requires Inv(c, s)
    ensures HandlePlay(c, s).isRunning == !s.isRunning
    ensures HandlePlay(c, s).(isRunning := s.isRunning) == s
    ensures HandlePlay(c, HandlePlay(c, s)) == s
  {
  }

  /** Skip starts the other phase in full, paused, with no notification held. */
  lemma SkipStartsOtherPhase(c: Config, s: State)
    requires Inv(c, s) && SkipOffered(s)
    ensures var r := HandleSkip(c, s);
      && r.isWorkTime == !s.isWorkTime && r.time == -Duration(c, r.isWorkTime)
      && !r.isRunning && r.notification == None && r.displayed == map[]
      ensures HandleSkip(c, s).nextHandle == s.nextHandle
  {
    var r := HandleSkip(c, s);
    assert r.displayed.Keys == {};
  }

  /** Clicking the held notification starts the other phase in full, paused,
      with that notification closed. */
  lemma ClickStartsOtherPhase(c: Config, s: State, h: Handle)
    requires Inv(c, s) && s.notification == Some(h)
    ensures var r := OnClick(c, s, h);
      && r.isWorkTime == !s.isWorkTime && r.time == -Duration(c, r.isWorkTime)
      && !r.isRunning && r.notification == None && r.displayed == map[]
      ensures OnClick(c, s, h).nextHandle == s.nextHandle
  {
    var r := OnClick(c, s, h);
    assert r.displayed.Keys == {};
  }

  /** Dismissing a notification changes neither the time, the phase nor
      whether the timer runs. */
  lemma DismissKeepsTimer(c: Config, s: State, h: Handle)
    requires Inv(c, s)
    ensures var r := OnClose(c, s, h);
      && r.time == s.time && r.isWorkTime == s.isWorkTime && r.isRunning == s.isRunning
      && h !in r.displayed
      ensures OnClose(c, s, h).nextHandle == s.nextHandle
  {
  }
}
