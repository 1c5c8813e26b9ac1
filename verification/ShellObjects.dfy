/**
 The startup object and the session object with its event loop. Every execution of the loop,
 under arbitrary acknowledgements, clicks, stops and cancellation, is a run of the protocol.
 */
module ShellObjects {
  import opened Common
  import opened ShellSession

  class StartupObject {
    var token: Option<nat>
    var ready: bool
    var retrying: bool
    var retryFailed: bool
    var finished: bool
    var mailbox: nat

    ghost function View(): Startup
      reads this
    {
      Startup(token, ready, retrying, retryFailed, finished, mailbox)
    }

    constructor ()
      ensures View() == Init.startup
    {
      token, ready, retrying, retryFailed, finished, mailbox := Some(0), false, false, false, false, 0;
    }

    /** `authentic` stands for the method, origin, host and fetch-site checks on the request. */
    method Acknowledge(authentic: bool, presented: nat) returns (ok: bool)
      modifies this
      ensures ok <==> authentic && Acknowledges(old(View()), presented)
      ensures View() == if authentic then Acked(old(View()), presented) else old(View())
    {
      if finished || ready || !authentic || token != Some(presented) { return false; }
      ready := true;
      token := None;
      ok := true;
    }

    method RequestRetry() returns (ok: bool)
      requires AcceptsRetry(View()) ==> mailbox == 0
      modifies this
      ensures ok == AcceptsRetry(old(View())) && View() == RetryRequested(old(View())) && (ok ==> mailbox == 1)
    {
      if finished || retrying { return false; }
      retrying := true;
      retryFailed := false;
      token := None;
      mailbox := mailbox + 1;
      ok := true;
    }

    method ResetAttempt(drawn: nat)
      modifies this
      ensures View() == AttemptReset(old(View()), drawn)
    {
      token := Some(drawn);
      ready, retryFailed := false, false;
    }

    method RetryComplete(failed: bool)
      modifies this
      ensures View() == RetryCompleted(old(View()), failed)
    {
      retrying, retryFailed := false, failed;
      if failed { token := None; }
    }

    method Stop()
      modifies this
      ensures View() == StartupStopped(old(View()))
    {
      finished := true;
      token := None;
    }
  }

  /** What the environment answers while one retry click is served. */
  datatype Answers = Answers(
    exitPolled: bool,
    closeOk: bool,
    resetOk: bool,
    outcome: LaunchOutcome)

  /** Which channel of the loop's select fires. */
  datatype Wake = CancelWake | ExitWake | RecoveryWake | RetryWake(answers: Answers)

  predicate Concurrent(e: Event) {
    e.Acknowledge? || e.RequestRetry? || e.StopStartup? || e.Cancel?
  }

  class SessionObject {
    const startup: StartupObject
    var window: Option<nat>
    var blocked: bool
    var pendingCleanup: Option<nat>
    var pendingExited: bool
    var cancelled: bool
    var windows: nat
    var draws: nat
    ghost var pc: Pc
    ghost var released: set<nat>
    ghost var launches: nat
    ghost var accepted: nat
    ghost var epochs: seq<nat>
    ghost var acked: seq<nat>
    ghost var doneMessages: nat

    ghost function View(): Session
      reads this, startup
    {
      Session(startup.View(), window, blocked, pendingCleanup, pendingExited, cancelled, pc, windows, released,
              launches, accepted, epochs, acked, doneMessages)
    }

    ghost predicate Valid()
      reads this, startup
    {
      Inv(View()) && draws == |epochs|
    }

    constructor ()
      ensures Valid() && View() == Init && fresh(startup)
    {
      startup := new StartupObject();
      window, blocked, pendingCleanup, pendingExited, cancelled := Some(0), false, None, false, false;
      windows, draws, pc, released, launches := 1, 1, Selecting, {}, 1;
      accepted, epochs, acked, doneMessages := 0, [0], [], 0;
    }

    /** Any number of steps by the other goroutines; they move neither the loop nor its locals. */
    method Others(ghost before: Session, ghost trace: seq<Event>) returns (ghost trace': seq<Event>)
      requires Inv(before) && Runs(before, trace) && View() == After(before, trace) && draws == |epochs|
      modifies this, startup
      ensures Runs(before, trace') && View() == After(before, trace') && Valid()
      ensures pc == old(pc) && draws == old(draws)
      ensures window == old(window) && pendingCleanup == old(pendingCleanup)
      ensures pendingExited == old(pendingExited) && blocked == old(blocked) && windows == old(windows) && launches == old(launches)
      ensures old(cancelled) ==> cancelled
      ensures exists steps :: trace' == trace + steps && forall e <- steps :: Concurrent(e)
    {
      RunKeepsInv(before, trace);
      assert trace == trace + [];
      trace' := trace;
    }

    ghost method Record(before: Session, trace: seq<Event>, e: Event, after: Session) returns (trace': seq<Event>)
      requires Runs(before, trace) && Enabled(After(before, trace), e)
      requires after == Apply(After(before, trace), e)
      ensures trace' == trace + [e] && Runs(before, trace') && After(before, trace') == after
    {
      RunsExtend(before, trace, e);
      trace' := trace + [e];
    }

    // ---- the segments of one loop iteration ------------------------------------------------

    method NoteExit(ghost e: Event)
      requires (e.SeeExit? || e.PollExit?) && Enabled(View(), e)
      modifies this
      ensures View() == Apply(old(View()), e) && draws == old(draws)
    {
      if pendingCleanup.Some? {
        pendingExited := true;
      } else {
        doneMessages := doneMessages + 1;
        pc := Ending;
      }
    }

    method GiveUp(ghost e: Event)
      requires Enabled(View(), e) && (e.RefuseBlocked? || e == Event.ResetAttempt(false))
      modifies this, startup
      ensures View() == Apply(old(View()), e) && draws == old(draws)
    {
      startup.RetryComplete(true);
      pc := Selecting;
    }

    method FinishClose(w: nat, ok: bool)
      requires Enabled(View(), CloseReturns(ok)) && pc == Closing(w)
      modifies this, startup
      ensures View() == Apply(old(View()), CloseReturns(ok)) && draws == old(draws)
    {
      if !ok {
        startup.RetryComplete(true);
        if pendingCleanup.None? { pendingExited := false; }
        pendingCleanup := Some(w);
        pc := Selecting;
      } else {
        pendingCleanup := None;
        pendingExited := false;
        released := released + {w};
        pc := Resetting;
      }
    }

    method DrawToken()
      requires Valid() && Enabled(View(), Event.ResetAttempt(true))
      modifies this, startup
      ensures View() == Apply(old(View()), Event.ResetAttempt(true)) && draws == |epochs|
    {
      startup.ResetAttempt(draws);
      epochs := epochs + [accepted];
      draws := draws + 1;
      pc := Launching;
    }

    method AdoptWindow()
      requires Enabled(View(), LaunchReturns(Opened))
      modifies this
      ensures View() == Apply(old(View()), LaunchReturns(Opened)) && draws == old(draws)
    {
      launches := launches + 1;
      window := Some(windows);
      windows := windows + 1;
      pc := Completing;
    }

    method FailLaunch(unverified: bool)
      requires Enabled(View(), LaunchReturns(LaunchError(unverified)))
      modifies this, startup
      ensures View() == Apply(old(View()), LaunchReturns(LaunchError(unverified))) && draws == old(draws)
    {
      launches := launches + 1;
      if unverified { blocked := true; }
      startup.RetryComplete(true);
      pc := Selecting;
    }

    method LeaveLoop(ghost e: Event)
      requires (e.SeeCancelled? || e.SeeRecoveryClosed?) && Enabled(View(), e)
      modifies this
      ensures View() == Apply(old(View()), e) && draws == old(draws)
    {
      pc := Ending;
    }

    method DisableWindow() returns (working: Option<nat>)
      requires Enabled(View(), BeginReplacement)
      modifies this
      ensures View() == Apply(old(View()), BeginReplacement) && draws == old(draws)
      ensures working == Working(old(View()))
    {
      working := if pendingCleanup.Some? then pendingCleanup else window;
      window := None;
      pc := if working.Some? then Closing(working.value) else Resetting;
    }

    method FinishRetry()
      requires Enabled(View(), Complete)
      modifies this, startup
      ensures View() == Apply(old(View()), Complete) && draws == old(draws)
    {
      startup.RetryComplete(false);
      pc := Selecting;
    }

    // ---- one loop iteration ----------------------------------------------------------------

    /** A launch leaves a window, or none and a block if its cleanup is unverified. */
    ghost predicate Launched(outcome: LaunchOutcome, wasBlocked: bool)
      reads this
    {
      match outcome
      case Opened => window.Some?
      case LaunchError(unverified) => blocked == (wasBlocked || unverified)
    }

    method LaunchShell(outcome: LaunchOutcome, ghost before: Session, ghost trace: seq<Event>)
        returns (ghost trace': seq<Event>)
      requires Inv(before) && Runs(before, trace) && View() == After(before, trace) && Valid() && pc == Launching
      modifies this, startup
      ensures Runs(before, trace') && View() == After(before, trace') && draws == |epochs| && pc == Selecting
      ensures launches == old(launches) + 1 && Launched(outcome, old(blocked)) && (old(cancelled) ==> cancelled)
    {
      match outcome
      case Opened =>
        AdoptWindow();
        trace' := Record(before, trace, LaunchReturns(outcome), View());
        trace' := Others(before, trace');
        FinishRetry();
        trace' := Record(before, trace', Complete, View());
      case LaunchError(unverified) =>
        FailLaunch(unverified);
        trace' := Record(before, trace, LaunchReturns(outcome), View());
    }

    /** From a drained previous window to the next shell. */
    method OpenReplacement(a: Answers, ghost before: Session, ghost trace: seq<Event>)
        returns (ended: bool, ghost trace': seq<Event>)
      requires Inv(before) && Runs(before, trace) && View() == After(before, trace) && Valid() && pc == Resetting
      modifies this, startup
      ensures Runs(before, trace') && View() == After(before, trace') && draws == |epochs|
      ensures if ended then pc == Ending else pc == Selecting
      ensures (ended <==> old(cancelled)) && (old(cancelled) ==> cancelled)
      ensures if ended || !a.resetOk then launches == old(launches) else launches == old(launches) + 1 && Launched(a.outcome, old(blocked))
    {
      ended := cancelled;
      if ended {
        LeaveLoop(SeeCancelled);
        trace' := Record(before, trace, SeeCancelled, View());
      } else if !a.resetOk {
        GiveUp(Event.ResetAttempt(false));
        trace' := Record(before, trace, Event.ResetAttempt(false), View());
      } else {
        DrawToken();
        trace' := Record(before, trace, Event.ResetAttempt(true), View());
        trace' := Others(before, trace');
        trace' := LaunchShell(a.outcome, before, trace');
      }
    }

    /** Takes the window away and closes it; a failed close keeps it for a later click. */
    method CloseWorking(closeOk: bool, ghost before: Session, ghost trace: seq<Event>) returns (closed: bool, ghost trace': seq<Event>)
      requires Inv(before) && Runs(before, trace) && View() == After(before, trace) && Valid()
      requires pc == Taken && !blocked
      modifies this, startup
      ensures Runs(before, trace') && View() == After(before, trace') && draws == |epochs| && Inv(View())
      ensures launches == old(launches) && !blocked && (old(cancelled) ==> cancelled)
      ensures closed <==> old(Working(View()).None?) || closeOk
      ensures if closed then pc == Resetting else pc == Selecting && pendingCleanup == old(Working(View())) && window.None?
    {
      var working := DisableWindow();
      trace' := Record(before, trace, BeginReplacement, View());
      trace' := Others(before, trace');
      closed := true;
      if working.Some? {
        FinishClose(working.value, closeOk);
        trace' := Record(before, trace', CloseReturns(closeOk), View());
        closed := closeOk;
      }
      RunKeepsInv(before, trace');
    }

    /** Close what is there, then open the replacement. */
    method Replace(a: Answers, ghost before: Session, ghost trace: seq<Event>)
        returns (ended: bool, ghost trace': seq<Event>)
      requires Inv(before) && Runs(before, trace) && View() == After(before, trace) && Valid()
      requires pc == Taken && !blocked
      modifies this, startup
      ensures Runs(before, trace') && View() == After(before, trace') && draws == |epochs|
      ensures if ended then pc == Ending else pc == Selecting
      ensures old(Working(View()).Some?) && !a.closeOk ==>
                !ended && launches == old(launches) && pendingCleanup == old(Working(View())) && window.None?
      ensures (old(Working(View()).None?) || a.closeOk) && !cancelled && a.resetOk ==>
                !ended && launches == old(launches) + 1 && Launched(a.outcome, false)
      ensures old(cancelled) ==> cancelled
    {
      var closed;
      closed, trace' := CloseWorking(a.closeOk, before, trace);
      if !closed { return false, trace'; }
      trace' := Others(before, trace');
      ended, trace' := OpenReplacement(a, before, trace');
    }

    /** An exit that comes with the click is noted first; an ordinary one ends the session. */
    method PollForExit(polled: bool, ghost before: Session, ghost trace: seq<Event>) returns (ended: bool, ghost trace': seq<Event>)
      requires Inv(before) && Runs(before, trace) && View() == After(before, trace) && Valid() && pc == Taken
      modifies this, startup
      ensures Runs(before, trace') && View() == After(before, trace') && Valid()
      ensures if ended then pc == Ending else pc == Taken
      ensures ended <==> polled && old(pendingCleanup.None? && window.Some?)
      ensures polled && old(pendingCleanup.Some?) ==> pendingExited
      ensures launches == old(launches) && blocked == old(blocked) && cancelled == old(cancelled)
      ensures !polled ==> View() == old(View())
    {
      trace' := trace;
      ended := false;
      if polled && (if pendingCleanup.Some? then !pendingExited else window.Some?) {
        ended := pendingCleanup.None?;
        NoteExit(PollExit);
        trace' := Record(before, trace', PollExit, View());
        RunKeepsInv(before, trace');
      }
    }

    /** One retry click, from the mailbox to the answer. */
    method ServeRetry(a: Answers, ghost before: Session, ghost trace: seq<Event>)
        returns (ended: bool, ghost trace': seq<Event>)
      requires Inv(before) && Runs(before, trace) && View() == After(before, trace) && Valid() && pc == Taken
      modifies this, startup
      ensures Runs(before, trace') && View() == After(before, trace') && draws == |epochs|
      ensures if ended then pc == Ending else pc == Selecting
      ensures old(cancelled) ==> ended && launches == old(launches)
      ensures old(blocked) ==> launches == old(launches)
      ensures !old(blocked) && !cancelled && !a.exitPolled && (old(Working(View()).None?) || a.closeOk) && a.resetOk ==>
                !ended && launches == old(launches) + 1 && Launched(a.outcome, false)
    {
      if cancelled {
        LeaveLoop(SeeCancelled);
        trace' := Record(before, trace, SeeCancelled, View());
        return true, trace';
      }
      ended, trace' := PollForExit(a.exitPolled, before, trace);
      if ended { return; }
      if blocked {
        GiveUp(RefuseBlocked);
        trace' := Record(before, trace', RefuseBlocked, View());
        return false, trace';
      }
      ended, trace' := Replace(a, before, trace');
    }

    method TakeMail()
      requires Valid() && Enabled(View(), TakeRetry)
      modifies this, startup
      ensures View() == Apply(old(View()), TakeRetry) && draws == old(draws)
    {
      startup.mailbox := startup.mailbox - 1;
      pc := Taken;
    }

    method EndLoop()
      requires Enabled(View(), End)
      modifies this, startup
      ensures View() == Apply(old(View()), End) && draws == old(draws)
    {
      startup.Stop();
      cancelled := true;
      pc := Ended;
    }

    /** One turn of the select. A channel that is not ready leaves the loop where it is. */
    method Turn(wake: Wake, ghost before: Session, ghost trace: seq<Event>) returns (ended: bool, ghost trace': seq<Event>)
      requires Inv(before) && Runs(before, trace) && View() == After(before, trace) && Valid() && pc == Selecting
      modifies this, startup
      ensures Runs(before, trace') && View() == After(before, trace') && draws == |epochs|
      ensures if ended then pc == Ending else pc == Selecting
      ensures wake.CancelWake? ==> (ended <==> old(cancelled))
      ensures wake.ExitWake? ==> (ended <==> old(pendingCleanup.None? && window.Some?))
      ensures wake.ExitWake? && old(pendingCleanup.Some?) ==> pendingExited
      ensures wake.RecoveryWake? ==>
                (ended <==> old(startup.finished) && (if old(pendingCleanup.Some?) then old(pendingExited) else old(window.None?)))
      ensures wake.RetryWake? && old(startup.mailbox) > 0 && !old(blocked) && !cancelled && !wake.answers.exitPolled
                && (old(Working(View()).None?) || wake.answers.closeOk) && wake.answers.resetOk ==>
                !ended && launches == old(launches) + 1 && Launched(wake.answers.outcome, false)
    {
      trace' := trace;
      ended := false;
      match wake
      case CancelWake =>
        if cancelled {
          LeaveLoop(SeeCancelled);
          trace' := Record(before, trace', SeeCancelled, View());
          ended := true;
        }
      case ExitWake =>
        if if pendingCleanup.Some? then !pendingExited else window.Some? {
          ended := pendingCleanup.None?;
          NoteExit(SeeExit);
          trace' := Record(before, trace', SeeExit, View());
        }
      case RecoveryWake =>
        if startup.finished && (if pendingCleanup.Some? then pendingExited else window.None?) {
          LeaveLoop(SeeRecoveryClosed);
          trace' := Record(before, trace', SeeRecoveryClosed, View());
          ended := true;
        }
      case RetryWake(a) =>
        if startup.mailbox > 0 {
          TakeMail();
          trace' := Record(before, trace', TakeRetry, View());
          trace' := Others(before, trace');
          ended, trace' := ServeRetry(a, before, trace');
        }
    }

    /** The event loop over any sequence of wake-ups. */
    method Run(wakes: seq<Wake>) returns (ghost trace: seq<Event>)
      requires Valid() && pc == Selecting
      modifies this, startup
      ensures Runs(old(View()), trace) && View() == After(old(View()), trace) && Valid()
      ensures pc == Selecting || pc == Ended
    {
      ghost var before := View();
      trace := [];
      var ended := false;
      var n := 0;
      while n < |wakes| && !ended
        invariant 0 <= n <= |wakes|
        invariant Runs(before, trace) && View() == After(before, trace) && draws == |epochs|
        invariant if ended then pc == Ending else pc == Selecting
      {
        trace := Others(before, trace);
        ended, trace := Turn(wakes[n], before, trace);
        n := n + 1;
      }
      if ended {
        EndLoop();
        trace := Record(before, trace, End, View());
      }
      RunKeepsInv(before, trace);
    }
  }
}
