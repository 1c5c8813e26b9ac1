/**
 The application shell's replacement loop and its startup handshake as one transition system.

 The session goroutine is the only one that launches windows; acknowledgements, retry clicks,
 recovery-window closes and cancellation interleave with it. Tokens are numbered in the order
 they are drawn, so that two draws never coincide.
 */
module ShellSession {
  import opened Common

  /** The mutable part of the startup object; `mailbox` is the length of its retry channel. */
  datatype Startup = Startup(
    token: Option<nat>,
    ready: bool,
    retrying: bool,
    retryFailed: bool,
    finished: bool,
    mailbox: nat)

  datatype Pc =
    | Selecting
    | Taken
    | Closing(closing: nat)
    | Resetting
    | Launching
    | Completing
    | Ending
    | Ended

  datatype Session = Session(
    startup: Startup,
    window: Option<nat>,
    blocked: bool,
    pendingCleanup: Option<nat>,
    pendingExited: bool,
    cancelled: bool,
    pc: Pc,
    windows: nat,            // windows that a launch has returned so far
    released: set<nat>,      // windows whose close for retry succeeded
    launches: nat,           // launch calls so far
    accepted: nat,           // retry requests accepted so far
    epochs: seq<nat>,        // per token: how many retries had been accepted when it was drawn
    acked: seq<nat>,         // tokens acknowledged, in order
    doneMessages: nat)

  datatype LaunchOutcome = Opened | LaunchError(cleanupUnverified: bool)

  datatype Event =
    | Acknowledge(presented: nat)
    | RequestRetry
    | StopStartup
    | Cancel
    | SeeCancelled
    | SeeExit
    | SeeRecoveryClosed
    | TakeRetry
    | PollExit
    | RefuseBlocked
    | BeginReplacement
    | CloseReturns(ok: bool)
    | ResetAttempt(ok: bool)
    | LaunchReturns(outcome: LaunchOutcome)
    | Complete
    | End

  /** After the first window has opened: one launch, one token drawn, nothing acknowledged. */
  const Init: Session :=
    Session(Startup(Some(0), false, false, false, false, 0), Some(0), false, None, false, false, Selecting,
            1, {}, 1, 0, [0], [], 0)

  // ---- critical sections of the startup object -----------------------------------------------

  predicate Acknowledges(u: Startup, presented: nat) {
    !u.finished && !u.ready && u.token == Some(presented)
  }

  function Acked(u: Startup, presented: nat): Startup {
    if Acknowledges(u, presented) then u.(ready := true, token := None) else u
  }

  predicate AcceptsRetry(u: Startup) { !u.finished && !u.retrying }

  function RetryRequested(u: Startup): Startup {
    if AcceptsRetry(u) then u.(retrying := true, retryFailed := false, token := None, mailbox := u.mailbox + 1) else u
  }

  function AttemptReset(u: Startup, drawn: nat): Startup {
    u.(token := Some(drawn), ready := false, retryFailed := false)
  }

  function RetryCompleted(u: Startup, failed: bool): Startup {
    u.(retrying := false, retryFailed := failed, token := if failed then None else u.token)
  }

  function StartupStopped(u: Startup): Startup { u.(finished := true, token := None) }

  // ---- steps -------------------------------------------------------------------------------

  /** The window that the loop body works on. */
  function Working(s: Session): Option<nat> {
    if s.pendingCleanup.Some? then s.pendingCleanup else s.window
  }

  /** The exit channel that the loop body listens to can deliver. */
  predicate CanExit(s: Session) {
    if s.pendingCleanup.Some? then !s.pendingExited else s.window.Some?
  }

  predicate Enabled(s: Session, e: Event) {
    match e
    case Acknowledge(_) => true
    case RequestRetry => true
    case StopStartup => true
    case Cancel => true
    case SeeCancelled => s.cancelled && (s.pc == Selecting || s.pc == Taken || s.pc == Resetting)
    case SeeExit => s.pc == Selecting && CanExit(s)
    case SeeRecoveryClosed =>
      s.pc == Selecting && s.startup.finished && (Working(s).None? || (s.pendingCleanup.Some? && s.pendingExited))
    case TakeRetry => s.pc == Selecting && s.startup.mailbox > 0
    case PollExit => s.pc == Taken && CanExit(s)
    case RefuseBlocked => s.pc == Taken && s.blocked
    case BeginReplacement => s.pc == Taken && !s.blocked
    case CloseReturns(_) => s.pc.Closing?
    case ResetAttempt(_) => s.pc == Resetting
    case LaunchReturns(_) => s.pc == Launching
    case Complete => s.pc == Completing
    case End => s.pc == Ending
  }

  /** An observed window exit: a pending cleanup only notes it, an ordinary exit ends the session. */
  function ExitObserved(s: Session): Session {
    if s.pendingCleanup.Some? then s.(pendingExited := true)
    else s.(doneMessages := s.doneMessages + 1, pc := Ending)
  }

  function RetryGivenUp(s: Session): Session {
    s.(startup := RetryCompleted(s.startup, true), pc := Selecting)
  }

  function CloseResult(s: Session, ok: bool): Session
    requires s.pc.Closing?
  {
    var w := s.pc.closing;
    if ok then s.(released := s.released + {w}, pendingCleanup := None, pendingExited := false, pc := Resetting)
    else RetryGivenUp(s).(pendingCleanup := Some(w),
                          pendingExited := if s.pendingCleanup.None? then false else s.pendingExited)
  }

  function LaunchResult(s: Session, outcome: LaunchOutcome): Session {
    match outcome
    case Opened => s.(window := Some(s.windows), windows := s.windows + 1, launches := s.launches + 1, pc := Completing)
    case LaunchError(unverified) => RetryGivenUp(s).(launches := s.launches + 1, blocked := s.blocked || unverified)
  }

  function Apply(s: Session, e: Event): Session
    requires Enabled(s, e)
  {
    match e
    case Acknowledge(t) =>
      s.(startup := Acked(s.startup, t), acked := if Acknowledges(s.startup, t) then s.acked + [t] else s.acked)
    case RequestRetry =>
      s.(startup := RetryRequested(s.startup), accepted := if AcceptsRetry(s.startup) then s.accepted + 1 else s.accepted)
    case StopStartup => s.(startup := StartupStopped(s.startup))
    case Cancel => s.(cancelled := true)
    case SeeCancelled => s.(pc := Ending)
    case SeeExit => ExitObserved(s)
    case SeeRecoveryClosed => s.(pc := Ending)
    case TakeRetry => s.(startup := s.startup.(mailbox := s.startup.mailbox - 1), pc := Taken)
    case PollExit => ExitObserved(s)
    case RefuseBlocked => RetryGivenUp(s)
    case BeginReplacement =>
      s.(window := None, pc := if Working(s).Some? then Closing(Working(s).value) else Resetting)
    case CloseReturns(ok) => CloseResult(s, ok)
    case ResetAttempt(ok) =>
      if ok then s.(startup := AttemptReset(s.startup, |s.epochs|), epochs := s.epochs + [s.accepted], pc := Launching)
      else RetryGivenUp(s)
    case LaunchReturns(outcome) => LaunchResult(s, outcome)
    case Complete => s.(startup := RetryCompleted(s.startup, false), pc := Selecting)
    case End => s.(startup := StartupStopped(s.startup), cancelled := true, pc := Ended)
  }

  predicate Runs(s: Session, events: seq<Event>)
    decreases |events|
  {
    events == [] || (Enabled(s, events[0]) && Runs(Apply(s, events[0]), events[1..]))
  }

  function After(s: Session, events: seq<Event>): Session
    requires Runs(s, events)
    decreases |events|
  {
    if events == [] then s else After(Apply(s, events[0]), events[1..])
  }

  lemma {:induction false} RunsExtend(s: Session, events: seq<Event>, e: Event)
    requires Runs(s, events) && Enabled(After(s, events), e)
    ensures Runs(s, events + [e]) && After(s, events + [e]) == Apply(After(s, events), e)
    decreases |events|
  {
    if events == [] {
      assert ([e])[1..] == [];
    } else {
      RunsExtend(Apply(s, events[0]), events[1..], e);
      assert (events + [e])[1..] == events[1..] + [e];
    }
  }

  // ---- the invariant -----------------------------------------------------------------------

  /** The loop has consumed a retry request and not answered it yet. */
  predicate Busy(pc: Pc) {
    pc == Taken || pc.Closing? || pc == Resetting || pc == Launching || pc == Completing
  }

  predicate WindowInv(s: Session) {
    && (s.window.Some? ==> s.window.value < s.windows && s.pendingCleanup.None?)
    && (s.pendingCleanup.Some? ==> s.pendingCleanup.value < s.windows)
    && (s.pc.Closing? ==> s.window.None? && s.pc.closing < s.windows
                          && (s.pendingCleanup.Some? ==> s.pendingCleanup.value == s.pc.closing))
    && (s.pc == Resetting || s.pc == Launching ==> s.window.None? && s.pendingCleanup.None?)
    && (forall w :: 0 <= w < s.windows ==>
          w in s.released || s.window == Some(w) || s.pendingCleanup == Some(w) || s.pc == Closing(w))
    && (s.blocked ==> s.window.None? && s.pendingCleanup.None?
                      && (s.pc == Selecting || s.pc == Taken || s.pc == Ending || s.pc == Ended))
  }

  predicate MailboxInv(s: Session) {
    && s.startup.mailbox <= 1
    && (s.startup.mailbox == 1 ==> s.startup.retrying)
    && (Busy(s.pc) ==> s.startup.retrying && s.startup.mailbox == 0)
    && s.launches + s.startup.mailbox + (if Busy(s.pc) && s.pc != Completing then 1 else 0) <= 1 + s.accepted
    && s.doneMessages <= (if s.pc == Ending || s.pc == Ended then 1 else 0)
  }

  predicate TokenInv(s: Session) {
    && (s.startup.token.Some? ==>
          && s.startup.token.value < |s.epochs|
          && s.epochs[s.startup.token.value] == s.accepted
          && s.startup.token.value !in s.acked)
    && (forall t :: 0 <= t < |s.epochs| ==> s.epochs[t] <= s.accepted)
    && (forall i :: 0 <= i < |s.acked| ==> s.acked[i] < |s.epochs|)
    && (forall i, j :: 0 <= i < j < |s.acked| ==> s.acked[i] != s.acked[j])
  }

  predicate Inv(s: Session) { WindowInv(s) && MailboxInv(s) && TokenInv(s) }

  /** Steps of the loop that work on windows. */
  predicate HandlesWindow(e: Event) {
    e.SeeExit? || e.PollExit? || e.BeginReplacement? || e.CloseReturns? || e.LaunchReturns?
  }

  lemma WindowStepKeepsWindows(s: Session, e: Event)
    requires Inv(s) && Enabled(s, e) && HandlesWindow(e)
    ensures WindowInv(Apply(s, e))
  {
  }

  lemma OtherStepKeepsWindows(s: Session, e: Event)
    requires Inv(s) && Enabled(s, e) && !HandlesWindow(e)
    ensures WindowInv(Apply(s, e))
  {
    var s' := Apply(s, e);
    assert s'.window == s.window && s'.pendingCleanup == s.pendingCleanup && s'.windows == s.windows && s'.released == s.released;
  }

  lemma WindowStepKeepsMailbox(s: Session, e: Event)
    requires Inv(s) && Enabled(s, e) && HandlesWindow(e)
    ensures MailboxInv(Apply(s, e))
  {
  }

  lemma OtherStepKeepsMailbox(s: Session, e: Event)
    requires Inv(s) && Enabled(s, e) && !HandlesWindow(e)
    ensures MailboxInv(Apply(s, e))
  {
  }

  /** Which steps touch the token, the draws, the acknowledgements and the accepted retries. */
  lemma StepTouchesTokens(s: Session, e: Event)
    requires Enabled(s, e)
    ensures !e.Acknowledge? ==> Apply(s, e).acked == s.acked
    ensures !e.ResetAttempt? ==> Apply(s, e).epochs == s.epochs
    ensures !e.RequestRetry? ==> Apply(s, e).accepted == s.accepted
    ensures !e.ResetAttempt? ==> Apply(s, e).startup.token == s.startup.token || Apply(s, e).startup.token.None?
  {
  }

  lemma StepKeepsTokens(s: Session, e: Event)
    requires Inv(s) && Enabled(s, e)
    ensures TokenInv(Apply(s, e))
  {
    StepTouchesTokens(s, e);
    if !e.Acknowledge? && !e.ResetAttempt? && !e.RequestRetry? {
      var s' := Apply(s, e);
      assert s'.acked == s.acked && s'.epochs == s.epochs && s'.accepted == s.accepted;
    }
  }

  lemma StepKeepsInv(s: Session, e: Event)
    requires Inv(s) && Enabled(s, e)
    ensures Inv(Apply(s, e))
  {
    if HandlesWindow(e) {
      WindowStepKeepsWindows(s, e);
      WindowStepKeepsMailbox(s, e);
    } else {
      OtherStepKeepsWindows(s, e);
      OtherStepKeepsMailbox(s, e);
    }
    StepKeepsTokens(s, e);
  }

  lemma {:induction false} RunKeepsInv(s: Session, events: seq<Event>)
    requires Inv(s) && Runs(s, events)
    ensures Inv(After(s, events))
    decreases |events|
  {
    if events == [] {
    } else {
      StepKeepsInv(s, events[0]);
      RunKeepsInv(Apply(s, events[0]), events[1..]);
    }
  }

  // ---- every run ---------------------------------------------------------------------------

  /** A replacement is launched only after every earlier window's close was verified. */
  lemma ShellLaunchesOnlyAfterVerifiedClose(events: seq<Event>, outcome: LaunchOutcome)
    requires Runs(Init, events) && Enabled(After(Init, events), LaunchReturns(outcome))
    ensures var s := After(Init, events);
            (forall w :: 0 <= w < s.windows ==> w in s.released) && !s.blocked
  {
    RunKeepsInv(Init, events);
  }

  /** Once a launch reports unverified cleanup, no shell is ever launched again. */
  lemma {:induction false} UnverifiedCleanupLatches(s: Session, events: seq<Event>)
    requires Inv(s) && s.blocked && Runs(s, events)
    ensures After(s, events).blocked && After(s, events).launches == s.launches
    ensures forall i :: 0 <= i < |events| ==> !events[i].LaunchReturns?
    decreases |events|
  {
    if events == [] {
    } else {
      StepKeepsInv(s, events[0]);
      UnverifiedCleanupLatches(Apply(s, events[0]), events[1..]);
      forall i | 0 <= i < |events| ensures !events[i].LaunchReturns? {
        if i > 0 { assert events[i] == events[1..][i - 1]; }
      }
    }
  }

  /** The mailbox has room whenever a retry is accepted, and launches never outnumber retries. */
  lemma RetryNeverBlocks(events: seq<Event>)
    requires Runs(Init, events)
    ensures var s := After(Init, events);
            && s.startup.mailbox <= 1
            && (s.startup.mailbox == 1 ==> s.startup.retrying)
            && (AcceptsRetry(s.startup) ==> s.startup.mailbox == 0)
            && s.launches <= 1 + s.accepted
            && s.doneMessages <= 1
  {
    RunKeepsInv(Init, events);
  }

  /** No token is acknowledged twice. */
  lemma AttemptsAcknowledgeOnce(events: seq<Event>)
    requires Runs(Init, events)
    ensures var a := After(Init, events).acked;
            forall i, j :: 0 <= i < j < |a| ==> a[i] != a[j]
  {
    RunKeepsInv(Init, events);
  }

  lemma StaleTokenStep(s: Session, e: Event, t: nat)
    requires Inv(s) && Enabled(s, e) && t < |s.epochs| && s.epochs[t] < s.accepted
    ensures t < |Apply(s, e).epochs| && Apply(s, e).epochs[t] < Apply(s, e).accepted
    ensures t in Apply(s, e).acked ==> t in s.acked
  {
    StepTouchesTokens(s, e);
  }

  /** A token drawn before an accepted retry is never acknowledged after it. */
  lemma {:induction false} StaleTokenIsDead(s: Session, events: seq<Event>, t: nat)
    requires Inv(s) && Runs(s, events)
    requires t < |s.epochs| && s.epochs[t] < s.accepted
    ensures t in After(s, events).acked ==> t in s.acked
    decreases |events|
  {
    if events == [] {
    } else {
      var s' := Apply(s, events[0]);
      StepKeepsInv(s, events[0]);
      StaleTokenStep(s, events[0], t);
      StaleTokenIsDead(s', events[1..], t);
    }
  }
}
