/** Two handlers of the component as they are written, each of which can
    fault; TimerModel holds the corrected versions the rest of the model uses. */
module Findings {
  import opened Wrappers
  import opened TimerModel

  datatype Fault =
    | NullDereference    // close() called on a notification state that is still null
    | UndefinedVariable  // a name that is not in scope is read

  /** handleReset as written calls close() on the stored notification without
      a check. That state is null until the first notification is issued and
      is never cleared afterwards, so the call faults exactly when no
      notification has been issued yet. */
  function HandleResetAsWritten(c: Config, s: State): Result<State, Fault>
    requires Inv(c, s)
  {
    if s.nextHandle == 0 then Failure(NullDereference) else Success(HandleReset(c, s))
  }

  /** handleSkip as written closes `newNotification`, a name local to
      notifyUser, so every press faults. */
  function HandleSkipAsWritten(c: Config, s: State): Result<State, Fault>
    requires Inv(c, s) && SkipOffered(s)
  {
    Failure(UndefinedVariable)
  }

  /** Without notification permission no handle is ever issued. */
  lemma {:induction false} DisabledNeverIssues(c: Config, s: State, es: seq<Event>)
    requires Inv(c, s) && !c.notificationsEnabled
    ensures Run(c, s, es).nextHandle == s.nextHandle
    decreases |es|
  {
    if es != [] {
      var t := Step(c, s, es[0]);
      assert t.nextHandle == s.nextHandle;
      DisabledNeverIssues(c, t, es[1..]);
    }
  }

  /** Counterexample: with permission denied, pressing Reset faults after any
      sequence of events from mount (for instance, right after mounting). */
  lemma ResetAsWrittenFaultsWithoutPermission(c: Config, es: seq<Event>)
    requires ValidConfig(c) && !c.notificationsEnabled
    ensures HandleResetAsWritten(c, Run(c, Init(c), es)) == Failure(NullDereference)
  {
    DisabledNeverIssues(c, Init(c), es);
  }

  /** Counterexample: a run from mount with the debug durations and
      permission denied. Play and seven seconds reach one second of overtime,
      where Skip is offered; the as-written Skip faults there, while the
      corrected one starts the break. */
  lemma SkipAsWrittenFaultsInOvertime()
    ensures var c := Config(6, 3, false);
      var s := Run(c, Init(c), [Play] + Seconds(7));
      && s == State(1, true, true, None, map[], 0)
      && SkipOffered(s)
      && HandleSkipAsWritten(c, s).Failure?
      && HandleSkip(c, s) == State(-3, false, false, None, map[], 0)
  {
    var c := Config(6, 3, false);
    var es := [Play] + Seconds(7);
    assert es[0] == Play && es[1..] == Seconds(7);
    var playing := Step(c, Init(c), Play);
    assert playing == State(-6, true, true, None, map[], 0);
    SecondsWithoutPermission(c, playing, 7);
  }
}
