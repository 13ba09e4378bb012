/** Concrete runs of the timer with the debug durations (6 s of work, 3 s of
    break) and the display examples. */
module Scenarios {
  import opened Wrappers
  import opened TimeFormat
  import opened TimerModel
  import App

  /** Zero has no sign. */
  lemma DisplayZero()
    ensures FormatTime(0) == "00:00"
  {
    FormatTimeParts(0);
    assert Field(0) == "00";
  }

  /** Time remaining has no sign. */
  lemma DisplayRemaining()
    ensures FormatTime(-90) == "01:30"
  {
    FormatTimeParts(-90);
    assert Field(90 / 60) == "01";
    assert Field(90 % 60) == "30" by { assert 90 % 60 == 30; assert NatToString(30) == "30"; }
  }

  /** Overtime has a "+". */
  lemma DisplayOvertime()
    ensures FormatTime(65) == "+01:05" && FormatTime(1) == "+00:01"
  {
    assert FormatTime(65) == "+01:05" by {
      FormatTimeParts(65);
      assert Field(65 / 60) == "01" && Field(65 % 60) == "05";
    }
    assert FormatTime(1) == "+00:01" by {
      FormatTimeParts(1);
      assert Field(1 / 60) == "00" && Field(1 % 60) == "01";
    }
  }

  /** The production work phase in full. */
  lemma DisplayFullWorkPhase()
    ensures FormatTime(-1500) == "25:00"
  {
    FormatTimeParts(-1500);
    assert Field(1500 / 60) == "25" by { assert 1500 / 60 == 25; assert NatToString(25) == "25"; }
    assert Field(1500 % 60) == "00";
  }

  /** The minutes field is padded but never truncated. */
  lemma DisplayWideMinutes()
    ensures FormatTime(6000) == "+100:00"
  {
    FormatTimeParts(6000);
    assert Field(6000 / 60) == "100" by { assert 6000 / 60 == 100; assert NatToString(100) == "100"; }
    assert Field(6000 % 60) == "00";
  }

  /** Lets the six seconds of a debug work phase pass on a running timer. */
  method RunWorkPhase(timer: App.PomodoroTimer)
    requires timer.Valid() && timer.Cfg() == Config(6, 3, true)
    requires timer.Snapshot() == Init(timer.Cfg()).(isRunning := true)
    modifies timer
    ensures timer.Valid()
    ensures timer.Snapshot() == State(0, true, true, Some(0), map[0 := CompletionAlert(true)], 1)
  {
    var i := 0;
    while i < 6
      invariant 0 <= i <= 6
      invariant timer.Valid()
      invariant timer.time == i - 6 && timer.isRunning && timer.isWorkTime
      invariant i < 6 ==> timer.nextHandle == 0 && timer.notification == None && timer.displayed == map[]
      invariant i == 6 ==> timer.Snapshot() == State(0, true, true, Some(0), map[0 := CompletionAlert(true)], 1)
    {
      timer.Tick();
      i := i + 1;
    }
  }

  /** Mount with permission granted, press Play, let six seconds pass: the
      count reaches zero and exactly one notification, "Work Time Complete!",
      is shown. One more second goes into overtime, displays "+00:01" and
      issues no second notification. Then Reset closes it. */
  method WorkPhaseCompletes() returns (atZero: string, overtime: string, title: string, issued: nat, shownAfterReset: nat)
    ensures atZero == "00:00" && overtime == "+00:01"
    ensures title == "Work Time Complete!" && issued == 1 && shownAfterReset == 0
  {
    var timer := new App.PomodoroTimer(6, 3, true);
    timer.HandlePlay();
    RunWorkPhase(timer);
    DisplayZero();
    DisplayOvertime();
    atZero := timer.Display();
    title := timer.displayed[0].title;
    timer.Tick();
    overtime := timer.Display();
    issued := timer.nextHandle;
    ghost var beforeReset := timer.Snapshot();
    timer.HandleReset();
    ResetFromAnyState(timer.Cfg(), beforeReset);
    shownAfterReset := |timer.displayed|;
  }
}
