/** The PomodoroTimer component as an object whose handlers update its state
    fields in place. Each handler is proved to move the fields exactly as the
    matching function of TimerModel says, and to keep the invariant. */
module App {
  import opened Wrappers
  import opened TimerModel
  import opened TimeFormat

  class PomodoroTimer {
    const workInterval: int
    const breakInterval: int
    const notificationsEnabled: bool

    var time: int
    var isRunning: bool
    var isWorkTime: bool
    var notification: Option<Handle>
    /** The notifications the desktop currently shows. */
    var displayed: map<Handle, Alert>
    /** The handle the next notification receives. */
    var nextHandle: nat

    function Cfg(): Config {
      Config(workInterval, breakInterval, notificationsEnabled)
    }

    /** The abstract state the fields stand for. */
    function Snapshot(): State
      reads this
    {
      State(time, isRunning, isWorkTime, notification, displayed, nextHandle)
    }

    ghost predicate Valid()
      reads this
    {
      Inv(Cfg(), Snapshot())
    }

    /** Mounting the component: a full work phase ahead, paused. */
    constructor (workInterval: int, breakInterval: int, notificationsEnabled: bool)
      requires workInterval > 0 && breakInterval > 0
      ensures Valid()
      ensures Cfg() == Config(workInterval, breakInterval, notificationsEnabled)
      ensures Snapshot() == Init(Cfg())
    {
      this.workInterval := workInterval;
      this.breakInterval := breakInterval;
      this.notificationsEnabled := notificationsEnabled;
      time := -workInterval;
      isRunning := false;
      isWorkTime := true;
      notification := None;
      displayed := map[];
      nextHandle := 0;
    }

    /** Closes notification `h`. */
    method CloseNotification(h: Handle)
      requires Valid()
      modifies this
      ensures Valid()
      ensures Snapshot() == Close(old(Snapshot()), h)
    {
      displayed := displayed - {h};
      if notification == Some(h) {
        notification := None;
      }
    }

    /** Closes the held notification, if any. */
    method CloseHeldNotification()
      requires Valid()
      modifies this
      ensures Valid()
      ensures Snapshot() == CloseHeld(old(Snapshot()))
    {
      if notification.Some? {
        CloseNotification(notification.value);
      }
    }

    /** One second of the running timer, followed by the effect that notifies
        when the count reaches zero. */
    method Tick()
      requires Valid() && isRunning
      modifies this
      ensures Valid()
      ensures Snapshot() == TimeChanged(Cfg(), TimerModel.Tick(Cfg(), old(Snapshot())))
      ensures time == old(time) + 1 && isRunning && isWorkTime == old(isWorkTime)
    {
      time := time + 1;
      if time == 0 {
        NotifyUser();
      }
    }

    method NotifyUser()
      requires Valid()
      modifies this
      ensures Valid()
      ensures Snapshot() == TimerModel.NotifyUser(Cfg(), old(Snapshot()))
    {
      if notificationsEnabled {
        var alert := CompletionAlert(isWorkTime);
        CloseHeldNotification();
        var h := nextHandle;
        displayed := displayed[h := alert];
        notification := Some(h);
        nextHandle := h + 1;
      }
    }

    method SwitchMode()
      requires Valid()
      modifies this
      ensures Valid()
      ensures Snapshot() == TimerModel.SwitchMode(Cfg(), old(Snapshot()))
    {
      var wasWorkTime := isWorkTime;
      isWorkTime := !wasWorkTime;
      time := if wasWorkTime then -breakInterval else -workInterval;
    }

    method HandleReset()
      requires Valid()
      modifies this
      ensures Valid()
      ensures Snapshot() == TimerModel.HandleReset(Cfg(), old(Snapshot()))
    {
      isWorkTime := true;
      time := -workInterval;
      isRunning := false;
      CloseHeldNotification();
    }

    method HandlePlay()
      requires Valid()
      modifies this
      ensures Valid()
      ensures Snapshot() == TimerModel.HandlePlay(Cfg(), old(Snapshot()))
    {
      isRunning := !isRunning;
    }

    method HandleSkip()
      requires Valid() && isRunning && time > 0
      modifies this
      ensures Valid()
      ensures Snapshot() == TimerModel.HandleSkip(Cfg(), old(Snapshot()))
    {
      SwitchMode();
      isRunning := false;
      CloseHeldNotification();
    }

    /** The click callback registered on notification `h`. */
    method OnNotificationClick(h: Handle)
      requires Valid()
      modifies this
      ensures Valid()
      ensures Snapshot() == OnClick(Cfg(), old(Snapshot()), h)
    {
      SwitchMode();
      isRunning := false;
      CloseNotification(h);
    }

    /** The close callback registered on notification `h`. */
    method OnNotificationClose(h: Handle)
      requires Valid()
      modifies this
      ensures Valid()
      ensures Snapshot() == OnClose(Cfg(), old(Snapshot()), h)
    {
      CloseNotification(h);
    }

    /** The text the component renders for its count. */
    method Display() returns (text: string)
      ensures text == FormatTime(time)
      ensures ParseTime(text) == Some(time)
      ensures HasPlus(text) <==> time > 0
    {
      text := FormatTime(time);
      ParseFormatTime(time);
      FormatTimeFields(time);
    }
  }
}
