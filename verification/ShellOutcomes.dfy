/**
 What the shell session's steps come to: what blocks it, which tokens can still be acknowledged,
 where an undisturbed retry ends, and what every failure leaves behind.
 */
module ShellOutcomes {
  import opened Common
  import opened ShellSession

  // ---- the latch --------------------------------------------------------------------------------------

  predicate ReportsUnverifiedCleanup(e: Event) { e.LaunchReturns? && e.outcome.LaunchError? && e.outcome.cleanupUnverified }

  lemma BlockedStep(s: Session, e: Event)
    requires Enabled(s, e)
    ensures Apply(s, e).blocked <==> s.blocked || ReportsUnverifiedCleanup(e)
  {
  }

  predicate Reported(events: seq<Event>) { exists i :: 0 <= i < |events| && ReportsUnverifiedCleanup(events[i]) }

  /** The session is blocked exactly after a launch has reported unverified cleanup. */
  lemma {:induction false} BlockedIff(s: Session, events: seq<Event>)
    requires Runs(s, events)
    ensures After(s, events).blocked <==> s.blocked || Reported(events)
    decreases |events|
  {
    if events == [] {
      assert After(s, events) == s;
    } else {
      BlockedStep(s, events[0]);
      BlockedIff(Apply(s, events[0]), events[1..]);
      assert forall i :: 0 < i < |events| ==> events[i] == events[1..][i - 1];
      assert forall i :: 0 <= i < |events| - 1 ==> events[1..][i] == events[i + 1];
    }
  }

  /** In no run does a launch follow one that reported unverified cleanup. */
  lemma {:induction false} NoLaunchAfterUnverifiedCleanup(s: Session, events: seq<Event>, i: nat, j: nat)
    requires Inv(s) && Runs(s, events) && i < j < |events| && ReportsUnverifiedCleanup(events[i])
    ensures !events[j].LaunchReturns?
    decreases |events|
  {
    var s1, rest := Apply(s, events[0]), events[1..];
    StepKeepsInv(s, events[0]);
    if i == 0 {
      BlockedStep(s, events[0]);
      UnverifiedCleanupLatches(s1, rest);
      assert events[j] == rest[j - 1];
    } else {
      NoLaunchAfterUnverifiedCleanup(s1, rest, i - 1, j - 1);
    }
  }

  // ---- tokens -------------------------------------------------------------------------------------------

  lemma DeadTokenStep(s: Session, e: Event, t: nat)
    requires Inv(s) && Enabled(s, e) && t < |s.epochs| && s.startup.token != Some(t)
    ensures t < |Apply(s, e).epochs| && Apply(s, e).startup.token != Some(t)
    ensures t in Apply(s, e).acked <==> t in s.acked
  {
    StepTouchesTokens(s, e);
  }

  /** A drawn token that is not current any more is never acknowledged again. */
  lemma {:induction false} DeadTokenStaysDead(s: Session, events: seq<Event>, t: nat)
    requires Inv(s) && Runs(s, events) && t < |s.epochs| && s.startup.token != Some(t)
    ensures t in After(s, events).acked <==> t in s.acked
    decreases |events|
  {
    if events == [] {
      assert After(s, events) == s;
    } else {
      StepKeepsInv(s, events[0]);
      DeadTokenStep(s, events[0], t);
      DeadTokenStaysDead(Apply(s, events[0]), events[1..], t);
    }
  }

  /** A step that ends an attempt for good or for worse. */
  predicate FailsAttempt(e: Event) {
    || e.RefuseBlocked? || (e.CloseReturns? && !e.ok) || (e.ResetAttempt? && !e.ok)
    || (e.LaunchReturns? && e.outcome.LaunchError?)
  }

  /** A failed attempt, an accepted retry, an acknowledgement and a stop leave no token; the answer to the user says which. */
  lemma RetiringSteps(s: Session, e: Event)
    requires Inv(s) && Enabled(s, e)
    ensures var u, u' := s.startup, Apply(s, e).startup;
      && (FailsAttempt(e) ==> u'.token.None? && !u'.retrying && u'.retryFailed)
      && (e.Complete? ==> u'.token == u.token && !u'.retrying && !u'.retryFailed)
      && (e.RequestRetry? && !u.finished && !u.retrying ==> u'.token.None? && u'.retrying && !u'.retryFailed && u'.mailbox == 1)
      && (e.RequestRetry? && (u.finished || u.retrying) ==> u' == u)
      && (e.StopStartup? || e.End? ==> u'.token.None? && u'.finished)
  {
  }

  /** The token of a fresh attempt can be acknowledged, exactly by itself and exactly once, unless the startup was stopped. */
  lemma FreshAttemptCanBeAcknowledged(s: Session, presented: nat)
    requires Inv(s) && s.pc == Resetting && !s.startup.finished
    ensures var a := Apply(s, Event.ResetAttempt(true));
            var b := Apply(a, Acknowledge(presented));
      && a.startup.token == Some(|s.epochs|) && !a.startup.ready && !a.startup.retryFailed
      && (if presented == |s.epochs| then b.startup.ready && b.acked == s.acked + [presented] && b.startup.token.None? else b == a)
      && forall again :: Apply(b, Acknowledge(again)).acked == b.acked || presented != |s.epochs|
  {
  }

  lemma StoppedStep(s: Session, e: Event)
    requires Enabled(s, e) && s.startup.finished
    ensures Apply(s, e).startup.finished && Apply(s, e).acked == s.acked && Apply(s, e).accepted == s.accepted
  {
    StepTouchesTokens(s, e);
  }

  /** Once finished, always finished: nothing is acknowledged and no retry is accepted any more. */
  lemma {:induction false} StoppedIsFinal(s: Session, events: seq<Event>)
    requires Inv(s) && s.startup.finished && Runs(s, events)
    ensures var s' := After(s, events); s'.startup.finished && s'.acked == s.acked && s'.accepted == s.accepted
    decreases |events|
  {
    if events == [] {
      assert After(s, events) == s;
    } else {
      StepKeepsInv(s, events[0]);
      StoppedStep(s, events[0]);
      StoppedIsFinal(Apply(s, events[0]), events[1..]);
    }
  }

  // ---- windows --------------------------------------------------------------------------------------------

  /** The loop sees an exit of the window it works on, unless that was noted before. */
  lemma ExitIsSeenIff(s: Session)
    requires Inv(s) && s.pc == Selecting
    ensures Enabled(s, SeeExit) <==> (s.window.Some? || (s.pendingCleanup.Some? && !s.pendingExited))
    ensures Enabled(s, SeeExit) ==>
              Apply(s, SeeExit) == if s.pendingCleanup.Some? then s.(pendingExited := true) else s.(pc := Ending, doneMessages := 1)
  {
  }

  /** Without a living window, the closed recovery window ends the session. */
  lemma RecoveryCloseEndsIff(s: Session)
    requires Inv(s) && s.pc == Selecting && s.startup.finished
    ensures Enabled(s, SeeRecoveryClosed) <==> s.window.None? && (s.pendingCleanup.None? || s.pendingExited)
    ensures Enabled(s, SeeRecoveryClosed) ==> Apply(s, SeeRecoveryClosed) == s.(pc := Ending)
  {
  }

  lemma RunOfTwo(s: Session, a: Event, b: Event)
    requires Enabled(s, a) && Enabled(Apply(s, a), b)
    ensures Runs(s, [a, b]) && After(s, [a, b]) == Apply(Apply(s, a), b)
  {
    RunsExtend(s, [], a);
    RunsExtend(s, [a], b);
    assert [] + [a] == [a] && [a] + [b] == [a, b];
  }

  /** A session at rest: no retry under way and nothing in the mailbox. */
  predicate AtRest(s: Session) { Inv(s) && s.pc == Selecting && !s.startup.finished && !s.startup.retrying }

  /** A retry click is accepted and taken. */
  lemma RetryIsTaken(s: Session) returns (r: Session)
    requires AtRest(s)
    ensures Runs(s, [RequestRetry, TakeRetry]) && r == After(s, [RequestRetry, TakeRetry]) && Inv(r)
    ensures r == s.(startup := s.startup.(retrying := true, retryFailed := false, token := None), accepted := s.accepted + 1, pc := Taken)
  {
    StepKeepsInv(s, RequestRetry);
    RunOfTwo(s, RequestRetry, TakeRetry);
    r := After(s, [RequestRetry, TakeRetry]);
    RunKeepsInv(s, [RequestRetry, TakeRetry]);
  }

  /** A blocked session refuses the click and launches nothing. */
  lemma BlockedClickIsRefused(s: Session) returns (events: seq<Event>)
    requires AtRest(s) && s.blocked
    ensures events == [RequestRetry, TakeRetry, RefuseBlocked] && Runs(s, events)
    ensures var r := After(s, events); AtRest(r) && r.blocked && r.startup.retryFailed && r.launches == s.launches && r.window == s.window
    ensures !Enabled(After(s, [RequestRetry, TakeRetry]), BeginReplacement)
  {
    var taken := RetryIsTaken(s);
    RunsExtend(s, [RequestRetry, TakeRetry], RefuseBlocked);
    events := [RequestRetry, TakeRetry] + [RefuseBlocked];
    RunKeepsInv(s, events);
  }

  /** From the click to the point where the previous window, if there is one, is released. */
  lemma RetryClosesUndisturbed(s: Session) returns (events: seq<Event>, r: Session)
    requires AtRest(s) && !s.blocked
    ensures Runs(s, events) && r == After(s, events) && Inv(r) && r.pc == Resetting
    ensures r == s.(startup := s.startup.(retrying := true, retryFailed := false, token := None), accepted := s.accepted + 1,
                    window := None, pendingCleanup := None, pc := Resetting,
                    pendingExited := s.pendingExited && Working(s).None?,
                    released := s.released + (if Working(s).Some? then {Working(s).value} else {}))
  {
    var taken := RetryIsTaken(s);
    var click := [RequestRetry, TakeRetry];
    RunsExtend(s, click, BeginReplacement);
    events := click + [BeginReplacement];
    if Working(s).Some? {
      RunsExtend(s, events, CloseReturns(true));
      events := events + [CloseReturns(true)];
    }
    r := After(s, events);
    RunKeepsInv(s, events);
  }

  /**
   An undisturbed retry whose launch succeeds: the previous window is released, a new one is open,
   exactly one launch and one retry are counted, and a fresh token can be acknowledged.
   */
  lemma UndisturbedRetrySucceeds(s: Session) returns (events: seq<Event>)
    requires AtRest(s) && !s.blocked
    ensures Runs(s, events) && AtRest(After(s, events))
    ensures var r := After(s, events);
      && r.window == Some(s.windows) && r.windows == s.windows + 1 && r.launches == s.launches + 1 && r.accepted == s.accepted + 1
      && (Working(s).Some? ==> Working(s).value in r.released) && r.pendingCleanup.None?
      && r.startup.token == Some(|s.epochs|) && !r.startup.ready && !r.startup.retryFailed
  {
    var before, r := RetryClosesUndisturbed(s);
    RunsExtend(s, before, Event.ResetAttempt(true));
    var e1 := before + [Event.ResetAttempt(true)];
    RunsExtend(s, e1, LaunchReturns(Opened));
    var e2 := e1 + [LaunchReturns(Opened)];
    RunsExtend(s, e2, Complete);
    events := e2 + [Complete];
    RunKeepsInv(s, events);
  }

  /** A launch error with verified cleanup leaves no window and blocks nothing: a further click launches again. */
  lemma PlainLaunchErrorCanBeRetried(s: Session) returns (events: seq<Event>)
    requires Inv(s) && s.pc == Launching && !s.startup.finished
    ensures Runs(s, events) && |events| > 0 && events[0] == LaunchReturns(LaunchError(false))
    ensures var r := After(s, events); r.window == Some(s.windows) && r.launches == s.launches + 2 && !r.blocked
  {
    var e := LaunchReturns(LaunchError(false));
    StepKeepsInv(s, e);
    var s1 := Apply(s, e);
    var more := UndisturbedRetrySucceeds(s1);
    events := [e] + more;
    assert events[1..] == more;
    BlockedIff(s1, more);
    NoReports(s1, more);
  }

  /** An opened window means that nothing has reported unverified cleanup. */
  lemma NoReports(s: Session, events: seq<Event>)
    requires Inv(s) && Runs(s, events) && After(s, events).window.Some?
    ensures !After(s, events).blocked
  {
    RunKeepsInv(s, events);
  }

  /** A failed close keeps the window for a later cleanup, and the next click closes that same window. */
  lemma FailedCloseIsRetried(s: Session)
    requires Inv(s) && s.pc.Closing? && !s.startup.finished
    ensures var r := Apply(s, CloseReturns(false));
      && AtRest(r) && r.window.None? && r.pendingCleanup == Some(s.pc.closing) && r.launches == s.launches && r.released == s.released
      && r.pendingExited == (s.pendingCleanup.Some? && s.pendingExited) && r.startup.retryFailed
      && var again := [RequestRetry, TakeRetry, BeginReplacement]; Runs(r, again) && After(r, again).pc == Closing(s.pc.closing)
  {
    var r := Apply(s, CloseReturns(false));
    StepKeepsInv(s, CloseReturns(false));
    var taken := RetryIsTaken(r);
    RunsExtend(r, [RequestRetry, TakeRetry], BeginReplacement);
    assert [RequestRetry, TakeRetry] + [BeginReplacement] == [RequestRetry, TakeRetry, BeginReplacement];
  }

  /** Nobody waits for the loop: requests, acknowledgements, stops and cancellations are possible at any moment. */
  lemma NobodyWaits(s: Session, presented: nat)
    requires Inv(s)
    ensures Enabled(s, Acknowledge(presented)) && Enabled(s, RequestRetry) && Enabled(s, StopStartup) && Enabled(s, Cancel)
    ensures Enabled(s, TakeRetry) <==> s.pc == Selecting && s.startup.mailbox == 1
    ensures Enabled(s, SeeCancelled) <==> s.cancelled && (s.pc == Selecting || s.pc == Taken || s.pc == Resetting)
    ensures Enabled(s, PollExit) <==> s.pc == Taken && (s.window.Some? || (s.pendingCleanup.Some? && !s.pendingExited))
  {
  }
}
