/**
 The capture runtime's ownership protocol as a transition system.

 One step is one critical section of the manager's state mutex, or one result of the
 process that the in-flight operation waits for. `pc` is the program counter of the single
 operation that may hold the operation mutex; watchers and leases interleave freely with it.
 Readiness, close, launch, exit and idle-hold results are event arguments, so every theorem
 quantifies over all of them.
 */
module CaptureRuntime {
  import opened Common

  datatype RunState = Ready | Replacing | Blocked | Failed | Stopped

  /** An owner record: a process that was handed to the manager. */
  datatype Owner = Owner(driver: string, intentional: bool)

  datatype Watch = Unwatched | Watching | MustFinish | WatchOver

  datatype Lease = Lease(generation: nat, driver: string, released: bool)

  datatype Kind = Replacement | Recovery

  datatype Operation =
    | Idle
    | Preparing(kind: Kind, previous: Option<nat>, priorState: RunState)
    | Closing(kind: Kind, closing: nat)
    | CloseDone(kind: Kind, closing: nat, closedOk: bool)
    | Launching(kind: Kind, launchGeneration: nat)
    | Launched(kind: Kind, failed: bool, next: Option<nat>)
    | Terminating
    | Dispatching

  /** `released` and `watch` and `issued` are the history that the theorems speak about. */
  datatype Model = Model(
    owners: seq<Owner>,
    current: Option<nat>,
    state: RunState,
    generation: nat,
    leases: int,
    stopped: bool,
    launchBlocked: bool,
    persistent: bool,
    finished: bool,
    doneMessages: nat,
    released: set<nat>,
    watch: seq<Watch>,
    issued: seq<Lease>,
    pc: Operation)

  /** What the launcher hands back. */
  datatype LaunchResult = LaunchResult(err: bool, process: Option<string>, noDoneChannel: bool) {
    predicate Failed() { err || process.None? || noDoneChannel }
  }

  datatype Event =
    | BeginReplace
    | BeginRecover
    | PreparationFails
    | MarkIntentional
    | CloseReturns(ok: bool)
    | BlockAfterClose
    | Vacate
    | CancelBeforeLaunch
    | LaunchReturns(result: LaunchResult)
    | Adopt
    | Retain
    | BeginTerminate
    | EndTerminate
    | BeginDispatch
    | EndDispatch
    | WatchExit(owner: nat)
    | WatchFinish(owner: nat)
    | AcquireLease(holdAcknowledged: bool)
    | ReleaseLease(lease: nat, holdAcknowledged: bool)

  /** Adoption of the first process. */
  function Init(driver: string): Model {
    Model([Owner(driver, false)], Some(0), Ready, 1, 0, false, false, false, false, 0, {}, [Watching], [], Idle)
  }

  // ---- the critical sections ---------------------------------------------------------------

  datatype Refusal = ErrBusy | ErrUnavailable | ErrStopped | ErrPersistent

  function ReplaceRefusal(m: Model): Option<Refusal> {
    if m.persistent then Some(ErrPersistent)
    else if m.stopped then Some(ErrStopped)
    else if m.launchBlocked then Some(ErrUnavailable)
    else if m.leases != 0 then Some(ErrBusy)
    else None
  }

  function RecoverRefusal(m: Model): Option<Refusal> {
    if m.persistent then Some(ErrPersistent)
    else if m.stopped || m.leases != 0 || m.current.None? || (m.state != Blocked && m.state != Failed) then Some(ErrUnavailable)
    else None
  }

  function Start(m: Model, kind: Kind): Model {
    m.(state := Replacing, pc := Preparing(kind, m.current, m.state))
  }

  function Restore(m: Model): Model
    requires m.pc.Preparing?
  {
    m.(state := if m.stopped then m.state else m.pc.priorState, pc := Idle)
  }

  function Intend(m: Model): Model
    requires m.pc.Preparing? && m.pc.previous.Some? && m.pc.previous.value < |m.owners|
  {
    var p := m.pc.previous.value;
    if m.stopped then m.(pc := Idle)
    else m.(owners := m.owners[p := m.owners[p].(intentional := true)], pc := Closing(m.pc.kind, p))
  }

  function CloseResult(m: Model, ok: bool): Model
    requires m.pc.Closing?
  {
    m.(released := if ok then m.released + {m.pc.closing} else m.released,
       pc := CloseDone(m.pc.kind, m.pc.closing, ok))
  }

  /** The owner slot is emptied and the generation advances, just before the launcher is called. */
  function Emptied(m: Model, kind: Kind): Model {
    m.(current := None, generation := m.generation + 1, pc := Launching(kind, m.generation + 1))
  }

  function LaunchResultOf(m: Model, r: LaunchResult): Model
    requires m.pc.Launching?
  {
    match r.process
    case None => m.(pc := Launched(m.pc.kind, r.Failed(), None))
    case Some(driver) =>
      m.(owners := m.owners + [Owner(driver, false)], watch := m.watch + [Unwatched],
         pc := Launched(m.pc.kind, r.Failed(), Some(|m.owners|)))
  }

  function Adopted(m: Model): Model
    requires m.pc.Launched? && (m.pc.next.Some? ==> m.pc.next.value < |m.owners| == |m.watch|)
    requires m.pc.next.None? ==> m.pc.failed
  {
    if m.pc.failed then
      var m1 := m.(state := Blocked, launchBlocked := true, pc := Idle);
      if m.pc.next.None? then m1 else
        var n := m.pc.next.value;
        m1.(current := Some(n), owners := m.owners[n := m.owners[n].(intentional := true)])
    else
      var n := m.pc.next.value;
      m.(current := Some(n), state := Ready, watch := m.watch[n := Watching], pc := Idle,
         launchBlocked := if m.pc.kind == Recovery then false else m.launchBlocked)
  }

  predicate RetainAdmitted(m: Model)
    requires m.current.Some? ==> m.current.value < |m.owners|
  {
    !m.persistent && !m.stopped && m.state == Ready && m.current.Some? && m.owners[m.current.value].driver == "browser"
  }

  function Terminated(m: Model): Model
    requires m.current.Some? ==> m.current.value < |m.owners|
  {
    var m1 := m.(stopped := true, state := Stopped, pc := Terminating);
    if m.current.None? then m1 else
      var c := m.current.value;
      m1.(owners := m.owners[c := m.owners[c].(intentional := true)])
  }

  function Finish(m: Model): Model {
    if m.finished then m else m.(finished := true, doneMessages := m.doneMessages + 1)
  }

  function ExitSeen(m: Model, i: nat): Model
    requires i < |m.owners| == |m.watch|
  {
    if m.current == Some(i) && !m.owners[i].intentional && !m.stopped then
      if m.owners[i].driver == "headless" || m.generation > 1 then
        m.(state := Failed, launchBlocked := true, watch := m.watch[i := WatchOver])
      else
        m.(state := Failed, stopped := true, watch := m.watch[i := MustFinish])
    else m.(watch := m.watch[i := WatchOver])
  }

  /** An idle-hold request; only a headless owner can fail to acknowledge it. */
  function IdleHold(m: Model, acknowledged: bool): (bool, Model)
    requires m.current.Some? ==> m.current.value < |m.owners|
  {
    if m.current.None? || m.owners[m.current.value].driver != "headless" || acknowledged then (true, m)
    else (false, m.(state := Blocked, launchBlocked := true))
  }

  predicate AcquireAdmitted(m: Model) {
    !m.stopped && m.state == Ready && m.current.Some?
  }

  function Acquired(m: Model, acknowledged: bool): Model
    requires m.current.Some? ==> m.current.value < |m.owners|
  {
    if !AcquireAdmitted(m) then m else
      var (ok, m1) := if m.leases == 0 then IdleHold(m, acknowledged) else (true, m);
      if !ok then m1 else
        m1.(leases := m1.leases + 1,
            issued := m1.issued + [Lease(m1.generation, m1.owners[m1.current.value].driver, false)])
  }

  function Released(m: Model, k: nat, acknowledged: bool): Model
    requires k < |m.issued|
    requires m.current.Some? ==> m.current.value < |m.owners|
  {
    if m.issued[k].released then m else
      var m1 := m.(leases := m.leases - 1, issued := m.issued[k := m.issued[k].(released := true)]);
      if m1.leases == 0 && !m1.stopped && m1.state == Ready then IdleHold(m1, acknowledged).1 else m1
  }

  // ---- steps and runs ----------------------------------------------------------------------

  /** Structural facts that let a step be taken at all. */
  predicate WellFormed(m: Model) {
    && |m.owners| == |m.watch|
    && (m.current.Some? ==> m.current.value < |m.owners|)
    && (m.pc.Preparing? && m.pc.previous.Some? ==> m.pc.previous.value < |m.owners|)
    && (m.pc.Closing? || m.pc.CloseDone? ==> m.pc.closing < |m.owners|)
    && (m.pc.Launched? && m.pc.next.Some? ==> m.pc.next.value < |m.owners|)
    && (m.pc.Launched? && m.pc.next.None? ==> m.pc.failed)
  }

  predicate Enabled(m: Model, e: Event) {
    WellFormed(m) &&
    match e
    case BeginReplace => m.pc.Idle?
    case BeginRecover => m.pc.Idle?
    case PreparationFails => m.pc.Preparing?
    case MarkIntentional => m.pc.Preparing? && m.pc.previous.Some?
    case CloseReturns(_) => m.pc.Closing?
    case BlockAfterClose => m.pc.CloseDone? && !m.pc.closedOk
    case Vacate => (m.pc.CloseDone? && m.pc.closedOk) ||
                   (m.pc.Preparing? && m.pc.kind == Replacement && m.pc.previous.None?)
    case CancelBeforeLaunch => m.pc.Launching? && m.pc.kind == Replacement
    case LaunchReturns(_) => m.pc.Launching?
    case Adopt => m.pc.Launched?
    case Retain => m.pc.Idle?
    case BeginTerminate => m.pc.Idle?
    case EndTerminate => m.pc.Terminating?
    case BeginDispatch => m.pc.Idle?
    case EndDispatch => m.pc.Dispatching?
    case WatchExit(i) => i < |m.owners| && m.watch[i] == Watching
    case WatchFinish(i) => i < |m.owners| && m.watch[i] == MustFinish
    case AcquireLease(_) => true
    case ReleaseLease(k, _) => k < |m.issued|
  }

  function Apply(m: Model, e: Event): Model
    requires Enabled(m, e)
  {
    match e
    case BeginReplace => if ReplaceRefusal(m).None? then Start(m, Replacement) else m
    case BeginRecover => if RecoverRefusal(m).None? then Start(m, Recovery) else m
    case PreparationFails => Restore(m)
    case MarkIntentional => Intend(m)
    case CloseReturns(ok) => CloseResult(m, ok)
    case BlockAfterClose => m.(state := Blocked, pc := Idle)
    case Vacate => Emptied(m, m.pc.kind)
    case CancelBeforeLaunch => m.(state := Blocked, pc := Idle)
    case LaunchReturns(r) => LaunchResultOf(m, r)
    case Adopt => Adopted(m)
    case Retain => if RetainAdmitted(m) then m.(persistent := true) else m
    case BeginTerminate => Terminated(m)
    case EndTerminate => Finish(m).(pc := Idle)
    case BeginDispatch => if m.state == Ready && !m.stopped && m.current.Some? then m.(pc := Dispatching) else m
    case EndDispatch => m.(pc := Idle)
    case WatchExit(i) => ExitSeen(m, i)
    case WatchFinish(i) => Finish(m).(watch := m.watch[i := WatchOver])
    case AcquireLease(ack) => Acquired(m, ack)
    case ReleaseLease(k, ack) => Released(m, k, ack)
  }

  predicate Runs(m: Model, events: seq<Event>)
    decreases |events|
  {
    events == [] || (Enabled(m, events[0]) && Runs(Apply(m, events[0]), events[1..]))
  }

  function After(m: Model, events: seq<Event>): Model
    requires Runs(m, events)
    decreases |events|
  {
    if events == [] then m else After(Apply(m, events[0]), events[1..])
  }

  // ---- the invariant -----------------------------------------------------------------------

  predicate Outstanding(l: Lease) { !l.released }

  /** The process that the in-flight launch has already returned, if any. */
  function Handed(m: Model): Option<nat> {
    if m.pc.Launched? then m.pc.next else None
  }

  /** Every process ever handed over is current, about to be adopted, or verifiably released. */
  predicate OneOwner(m: Model) {
    && (forall i :: 0 <= i < |m.owners| ==> m.current == Some(i) || Handed(m) == Some(i) || i in m.released)
    && (Handed(m).Some? ==> m.current.None?)
  }

  predicate LeasesPinned(m: Model) {
    && m.leases == Count(m.issued, Outstanding)
    && forall k :: 0 <= k < |m.issued| && !m.issued[k].released ==>
         && m.current.Some? && m.current.value < |m.owners|
         && m.issued[k].generation == m.generation
         && m.issued[k].driver == m.owners[m.current.value].driver
  }

  /** An operation that may replace the owner is in flight. */
  predicate Transitioning(pc: Operation) {
    pc.Preparing? || pc.Closing? || pc.CloseDone? || pc.Launching? || pc.Launched?
  }

  predicate OperationInv(m: Model)
    requires WellFormed(m)
  {
    && (Transitioning(m.pc) ==> m.leases == 0 && !m.persistent && (m.state == Replacing || m.state == Failed))
    && (m.pc.Preparing? ==> m.pc.previous == m.current && (m.pc.kind == Recovery ==> m.current.Some?)
                            && (m.current.None? ==> !m.stopped) && m.pc.priorState != Stopped)
    && (m.pc.Closing? || m.pc.CloseDone? ==>
          m.current == Some(m.pc.closing) && m.owners[m.pc.closing].intentional && !m.stopped)
    && (m.pc.CloseDone? && m.pc.closedOk ==> m.pc.closing in m.released)
    && (m.pc.Launching? || m.pc.Launched? ==> m.current.None? && !m.stopped)
    && (m.pc.Launching? ==> m.pc.launchGeneration == m.generation)
    && (m.pc.Launched? && m.pc.next.Some? ==> !m.owners[m.pc.next.value].intentional)
  }

  /** Shutdown is signalled at most once, and only once the runtime is stopped. */
  predicate SignalInv(m: Model) {
    && m.doneMessages == (if m.finished then 1 else 0)
    && (m.finished ==> m.stopped)
    && (m.pc.Terminating? ==> m.stopped)
    && (forall i :: 0 <= i < |m.watch| ==> m.watch[i] == MustFinish ==> m.stopped)
    && (m.state == Stopped ==> m.stopped)
    && (m.state == Ready || m.state == Replacing ==> !m.stopped)
    && (m.persistent ==> m.current.Some? && m.current.value < |m.owners| && m.owners[m.current.value].driver == "browser")
  }

  /** Ready, or about to be restored to it. */
  predicate ReadyOrPending(m: Model) {
    m.state == Ready || (m.pc.Preparing? && m.pc.priorState == Ready)
  }

  /** The watcher of the current owner has seen it exit. */
  predicate OwnerExited(m: Model)
    requires WellFormed(m)
  {
    m.current.Some? && (m.watch[m.current.value] == MustFinish || m.watch[m.current.value] == WatchOver)
  }

  /**
   A ready runtime has an owner that is still watched, or it has latched against replacement. If
   its owner exits during a readiness check, the check finds the runtime failed.
   */
  predicate ReadyInv(m: Model)
    requires WellFormed(m)
  {
    ReadyOrPending(m) ==>
      && m.current.Some? && !m.owners[m.current.value].intentional && m.watch[m.current.value] != Unwatched
      && (OwnerExited(m) ==> m.launchBlocked || m.stopped)
      && (m.pc.Preparing? ==> (m.state == Failed <==> OwnerExited(m)))
  }

  predicate Inv(m: Model) {
    WellFormed(m) && OneOwner(m) && LeasesPinned(m) && OperationInv(m) && SignalInv(m) && ReadyInv(m)
  }

  lemma InitInv(driver: string)
    ensures Inv(Init(driver))
  {
  }

  lemma AcquireKeepsInv(m: Model, acknowledged: bool)
    requires Inv(m)
    ensures Inv(Acquired(m, acknowledged))
  {
    var m' := Acquired(m, acknowledged);
    if m'.issued != m.issued {
      CountAppend(m.issued, m'.issued[|m.issued|], Outstanding);
    }
  }

  lemma ReleaseKeepsInv(m: Model, k: nat, acknowledged: bool)
    requires Inv(m) && k < |m.issued|
    ensures Inv(Released(m, k, acknowledged))
  {
    if !m.issued[k].released {
      CountUpdate(m.issued, k, m.issued[k].(released := true), Outstanding);
    }
  }

  lemma NoLeaseOutstanding(m: Model)
    requires LeasesPinned(m) && m.leases == 0
    ensures forall k :: 0 <= k < |m.issued| ==> m.issued[k].released
  {
    CountZero(m.issued, Outstanding);
  }

  lemma PreparationKeepsInv(m: Model, e: Event)
    requires Inv(m) && Enabled(m, e)
    requires e.BeginReplace? || e.BeginRecover? || e.PreparationFails? || e.MarkIntentional?
    ensures Inv(Apply(m, e))
  {
    if m.leases == 0 { NoLeaseOutstanding(m); }
  }

  lemma CloseKeepsInv(m: Model, e: Event)
    requires Inv(m) && Enabled(m, e)
    requires e.CloseReturns? || e.BlockAfterClose? || e.Vacate? || e.CancelBeforeLaunch?
    ensures Inv(Apply(m, e))
  {
    NoLeaseOutstanding(m);
  }

  lemma LaunchKeepsInv(m: Model, e: Event)
    requires Inv(m) && Enabled(m, e)
    requires e.LaunchReturns? || e.Adopt?
    ensures Inv(Apply(m, e))
  {
    NoLeaseOutstanding(m);
  }

  lemma WatchExitKeepsInv(m: Model, i: nat)
    requires Inv(m) && Enabled(m, WatchExit(i))
    ensures Inv(Apply(m, WatchExit(i)))
  {
    var m' := Apply(m, WatchExit(i));
    assert m'.owners == m.owners && m'.current == m.current && m'.issued == m.issued && m'.pc == m.pc;
    assert OneOwner(m') && LeasesPinned(m');
  }

  lemma WatchFinishKeepsInv(m: Model, i: nat)
    requires Inv(m) && Enabled(m, WatchFinish(i))
    ensures Inv(Apply(m, WatchFinish(i)))
  {
  }

  lemma LifecycleKeepsInv(m: Model, e: Event)
    requires Inv(m) && Enabled(m, e)
    requires e.Retain? || e.BeginTerminate? || e.EndTerminate? || e.BeginDispatch? || e.EndDispatch?
    ensures Inv(Apply(m, e))
  {
  }

  lemma StepKeepsInv(m: Model, e: Event)
    requires Inv(m) && Enabled(m, e)
    ensures Inv(Apply(m, e))
  {
    if e.AcquireLease? {
      AcquireKeepsInv(m, e.holdAcknowledged);
    } else if e.ReleaseLease? {
      ReleaseKeepsInv(m, e.lease, e.holdAcknowledged);
    } else if e.BeginReplace? || e.BeginRecover? || e.PreparationFails? || e.MarkIntentional? {
      PreparationKeepsInv(m, e);
    } else if e.CloseReturns? || e.BlockAfterClose? || e.Vacate? || e.CancelBeforeLaunch? {
      CloseKeepsInv(m, e);
    } else if e.LaunchReturns? || e.Adopt? {
      LaunchKeepsInv(m, e);
    } else if e.WatchExit? {
      WatchExitKeepsInv(m, e.owner);
    } else if e.WatchFinish? {
      WatchFinishKeepsInv(m, e.owner);
    } else {
      LifecycleKeepsInv(m, e);
    }
  }

  lemma {:induction false} RunKeepsInv(m: Model, events: seq<Event>)
    requires Inv(m) && Runs(m, events)
    ensures Inv(After(m, events))
    decreases |events|
  {
    if events == [] {
    } else {
      StepKeepsInv(m, events[0]);
      RunKeepsInv(Apply(m, events[0]), events[1..]);
    }
  }

  // ---- exclusive ownership over every run ---------------------------------------------------

  /** The launcher runs only when every process ever handed over had its close verified. */
  lemma LaunchOnlyAfterEveryRelease(driver: string, events: seq<Event>, r: LaunchResult)
    requires Runs(Init(driver), events) && Enabled(After(Init(driver), events), LaunchReturns(r))
    ensures var m := After(Init(driver), events);
            && (forall i :: 0 <= i < |m.owners| ==> i in m.released)
            && (forall k :: 0 <= k < |m.issued| ==> m.issued[k].released)
            && !m.stopped && !m.persistent
  {
    InitInv(driver);
    RunKeepsInv(Init(driver), events);
    NoLeaseOutstanding(After(Init(driver), events));
  }

  /** Two known owners whose release is unverified never coexist. */
  lemma UnreleasedOwnersNeverOverlap(driver: string, events: seq<Event>, i: nat, j: nat)
    requires Runs(Init(driver), events)
    requires i < |After(Init(driver), events).owners| && j < |After(Init(driver), events).owners|
    requires i !in After(Init(driver), events).released && j !in After(Init(driver), events).released
    ensures i == j
  {
    InitInv(driver);
    RunKeepsInv(Init(driver), events);
  }

  // ---- leases ------------------------------------------------------------------------------

  /** The steps that close, replace or adopt an owner. */
  predicate ChangesOwner(e: Event) {
    e.MarkIntentional? || e.CloseReturns? || e.Vacate? || e.LaunchReturns? || e.Adopt?
  }

  /** A lease pins the current owner. */
  predicate Pins(m: Model, l: Lease) {
    && m.current.Some? && m.current.value < |m.owners|
    && l.generation == m.generation && l.driver == m.owners[m.current.value].driver
  }

  /**
   The counter is the number of unreleased leases and each of them names the current owner; while
   there is one, no step that closes, replaces or adopts an owner is possible.
   */
  lemma OutstandingLeasePinsOwner(driver: string, events: seq<Event>)
    requires Runs(Init(driver), events)
    ensures var m := After(Init(driver), events);
            && m.leases == Count(m.issued, Outstanding)
            && (forall k :: 0 <= k < |m.issued| && !m.issued[k].released ==> m.leases > 0 && Pins(m, m.issued[k]))
            && (m.leases > 0 ==> forall e :: Enabled(m, e) ==> !ChangesOwner(e))
  {
    InitInv(driver);
    RunKeepsInv(Init(driver), events);
    CountZero(After(Init(driver), events).issued, Outstanding);
  }

  lemma StepFreezesHeldOwner(m: Model, e: Event)
    requires Inv(m) && Enabled(m, e) && m.leases != 0
    ensures Apply(m, e).current == m.current && Apply(m, e).generation == m.generation
  {
    assert !Transitioning(m.pc);
  }

  lemma StepKeepsLeaseHistory(m: Model, e: Event, k: nat)
    requires Inv(m) && Enabled(m, e) && k < |m.issued|
    ensures k < |Apply(m, e).issued|
    ensures m.issued[k].released ==> Apply(m, e).issued[k].released
    ensures Apply(m, e).issued[k].(released := m.issued[k].released) == m.issued[k]
  {
    if !e.AcquireLease? && !e.ReleaseLease? { assert Apply(m, e).issued == m.issued; }
  }

  lemma {:induction false} ReleasedStaysReleased(m: Model, events: seq<Event>, k: nat)
    requires Inv(m) && Runs(m, events) && k < |m.issued| && m.issued[k].released
    ensures k < |After(m, events).issued| && After(m, events).issued[k].released
    decreases |events|
  {
    if events == [] {
    } else {
      StepKeepsInv(m, events[0]);
      StepKeepsLeaseHistory(m, events[0], k);
      ReleasedStaysReleased(Apply(m, events[0]), events[1..], k);
    }
  }

  /** From any reachable state: until lease k is released, its owner and generation stay put. */
  lemma {:induction false} HeldLeaseFreezesOwner(m: Model, events: seq<Event>, k: nat)
    requires Inv(m) && Runs(m, events) && k < |m.issued|
    requires k < |After(m, events).issued| && !After(m, events).issued[k].released
    ensures !m.issued[k].released
    ensures After(m, events).current == m.current && After(m, events).generation == m.generation
    decreases |events|
  {
    if m.issued[k].released {
      ReleasedStaysReleased(m, events, k);
    } else if events != [] {
      StepKeepsInv(m, events[0]);
      StepKeepsLeaseHistory(m, events[0], k);
      assert m.leases != 0 by { CountZero(m.issued, Outstanding); }
      StepFreezesHeldOwner(m, events[0]);
      HeldLeaseFreezesOwner(Apply(m, events[0]), events[1..], k);
    }
  }

  // ---- permanent latches -------------------------------------------------------------------

  predicate Launches(events: seq<Event>) { exists i :: 0 <= i < |events| && events[i].LaunchReturns? }

  lemma LaunchesTail(events: seq<Event>)
    requires events != [] && !events[0].LaunchReturns? && !Launches(events[1..])
    ensures !Launches(events)
  {
    forall i | 0 <= i < |events| ensures !events[i].LaunchReturns? {
      if i > 0 { assert events[i] == events[1..][i - 1]; }
    }
  }

  /** The state that a launch without a process leaves behind. */
  predicate LaunchLatched(m: Model) {
    m.current.None? && m.launchBlocked && !Transitioning(m.pc)
  }

  lemma FailedLaunchWithoutProcessLatches(m: Model)
    requires Inv(m) && m.pc.Launched? && m.pc.next.None?
    ensures LaunchLatched(Apply(m, Adopt))
  {
  }

  lemma {:induction false} LaunchLatchIsPermanent(m: Model, events: seq<Event>)
    requires Inv(m) && LaunchLatched(m) && Runs(m, events)
    ensures LaunchLatched(After(m, events)) && !Launches(events)
    decreases |events|
  {
    if events == [] {
    } else {
      StepKeepsInv(m, events[0]);
      LaunchLatchIsPermanent(Apply(m, events[0]), events[1..]);
      LaunchesTail(events);
    }
  }

  lemma RetainedStep(m: Model, e: Event)
    requires Inv(m) && m.persistent && Enabled(m, e)
    ensures Apply(m, e).persistent && Apply(m, e).current == m.current && Apply(m, e).generation == m.generation
    ensures !e.LaunchReturns?
  {
  }

  lemma {:induction false} RetainedOwnerIsPermanent(m: Model, events: seq<Event>)
    requires Inv(m) && m.persistent && Runs(m, events)
    ensures var m' := After(m, events);
            m'.persistent && m'.current == m.current && m'.generation == m.generation && !Launches(events)
    decreases |events|
  {
    if events == [] {
    } else {
      StepKeepsInv(m, events[0]);
      RetainedStep(m, events[0]);
      RetainedOwnerIsPermanent(Apply(m, events[0]), events[1..]);
      LaunchesTail(events);
    }
  }

  // ---- quarantine ----------------------------------------------------------------------------

  /** Latched, with nothing in flight and not ready: only a recovery may touch the owner. */
  predicate Quarantined(m: Model) {
    WellFormed(m) && m.launchBlocked && !Transitioning(m.pc) && m.state != Ready && m.state != Replacing
  }

  /** A headless owner that does not acknowledge an idle hold, or a replaceable owner that dies. */
  predicate Fault(m: Model, e: Event) {
    && Enabled(m, e) && m.state == Ready && !m.stopped && m.current.Some?
    && match e
       case AcquireLease(ack) => m.leases == 0 && !ack && m.owners[m.current.value].driver == "headless"
       case ReleaseLease(k, ack) => m.leases == 1 && !m.issued[k].released && !ack && m.owners[m.current.value].driver == "headless"
       case WatchExit(i) => m.current == Some(i) && (m.owners[i].driver == "headless" || m.generation > 1)
       case _ => false
  }

  lemma FaultQuarantines(m: Model, e: Event)
    requires Inv(m) && Fault(m, e)
    ensures Quarantined(Apply(m, e)) && |Apply(m, e).issued| == |m.issued| && !Apply(m, e).stopped
  {
  }

  /** Until a recovery starts, a quarantined runtime issues no lease and launches nothing. */
  lemma {:induction false} QuarantineUntilRecovery(m: Model, events: seq<Event>)
    requires Inv(m) && Quarantined(m) && Runs(m, events)
    requires forall i :: 0 <= i < |events| ==> !events[i].BeginRecover?
    ensures Quarantined(After(m, events)) && !Launches(events) && |After(m, events).issued| == |m.issued|
    decreases |events|
  {
    if events == [] {
    } else {
      StepKeepsInv(m, events[0]);
      assert forall i :: 0 <= i < |events| - 1 ==> events[1..][i] == events[i + 1];
      QuarantineUntilRecovery(Apply(m, events[0]), events[1..]);
      LaunchesTail(events);
    }
  }

  // ---- the generation fence ----------------------------------------------------------------

  /** Whether work stamped with a generation is still accepted. */
  predicate Accepts(m: Model, generation: nat) {
    m.state == Ready && !m.stopped && generation == m.generation
  }

  lemma StepAdvancesGeneration(m: Model, e: Event)
    requires Inv(m) && Enabled(m, e)
    ensures Apply(m, e).generation == m.generation + (if e.Vacate? then 1 else 0)
    ensures Apply(m, e).pc.Launching? ==> m.pc.Launching? || e.Vacate?
  {
    if e.ReleaseLease? { assert Apply(m, e).pc == m.pc; }
  }

  lemma {:induction false} GenerationNeverReturns(m: Model, events: seq<Event>)
    requires Inv(m) && Runs(m, events)
    ensures After(m, events).generation >= m.generation
    ensures !m.pc.Launching? && After(m, events).pc.Launching? ==> After(m, events).pc.launchGeneration > m.generation
    ensures forall g: nat :: g < m.generation ==> !Accepts(After(m, events), g)
    decreases |events|
  {
    if events == [] {
    } else {
      StepKeepsInv(m, events[0]);
      StepAdvancesGeneration(m, events[0]);
      RunKeepsInv(Apply(m, events[0]), events[1..]);
      GenerationNeverReturns(Apply(m, events[0]), events[1..]);
    }
  }

  // ---- a ready runtime with a dead owner -----------------------------------------------------

  /** Ready, but the owner has exited. */
  predicate Stranded(m: Model) { WellFormed(m) && m.state == Ready && OwnerExited(m) }

  lemma {:induction false} RunsExtend(m: Model, events: seq<Event>, e: Event)
    requires Runs(m, events) && Enabled(After(m, events), e)
    ensures Runs(m, events + [e]) && After(m, events + [e]) == Apply(After(m, events), e)
    decreases |events|
  {
    if events == [] {
      assert ([e])[1..] == [];
    } else {
      RunsExtend(Apply(m, events[0]), events[1..], e);
      assert (events + [e])[1..] == events[1..] + [e];
    }
  }

  /** One undisturbed replacement of the first browser owner by a second one. */
  lemma SecondGenerationIsReachable() returns (events: seq<Event>)
    ensures Runs(Init("browser"), events)
    ensures After(Init("browser"), events) ==
            Model([Owner("browser", true), Owner("browser", false)], Some(1), Ready, 2, 0, false, false, false, false, 0,
                  {0}, [Watching, Watching], [], Idle)
  {
    var m := Init("browser");
    events := [];
    RunsExtend(m, events, BeginReplace); events := events + [BeginReplace];
    RunsExtend(m, events, MarkIntentional); events := events + [MarkIntentional];
    RunsExtend(m, events, CloseReturns(true)); events := events + [CloseReturns(true)];
    RunsExtend(m, events, Vacate); events := events + [Vacate];
    var launched := LaunchReturns(LaunchResult(false, Some("browser"), false));
    RunsExtend(m, events, launched); events := events + [launched];
    RunsExtend(m, events, Adopt); events := events + [Adopt];
  }

  /** The second owner dies during a readiness check. */
  lemma ExitDuringCheckIsReachable() returns (events: seq<Event>)
    ensures Runs(Init("browser"), events)
    ensures After(Init("browser"), events) ==
            Model([Owner("browser", true), Owner("browser", false)], Some(1), Failed, 2, 0, false, true, false, false, 0,
                  {0}, [Watching, WatchOver], [], Preparing(Replacement, Some(1), Ready))
  {
    var m := Init("browser");
    events := SecondGenerationIsReachable();
    RunsExtend(m, events, BeginReplace); events := events + [BeginReplace];
    RunsExtend(m, events, WatchExit(1)); events := events + [WatchExit(1)];
  }

  /** Such a state is reachable: the check that missed the exit then fails. */
  lemma StrandedIsReachable() returns (events: seq<Event>)
    ensures Runs(Init("browser"), events) && Stranded(After(Init("browser"), events))
  {
    events := ExitDuringCheckIsReachable();
    RunsExtend(Init("browser"), events, PreparationFails); events := events + [PreparationFails];
  }

  /** A readiness check fails, finds that the runtime failed meanwhile, and restores it to ready. */
  predicate RestoresOverFailure(m: Model, e: Event) {
    Enabled(m, e) && e.PreparationFails? && m.pc.priorState == Ready && m.state == Failed && !m.stopped
  }

  /** Termination, or an idle hold that a headless owner does not acknowledge. */
  predicate Leaves(m: Model, e: Event) { Enabled(m, e) && (e.BeginTerminate? || Fault(m, e)) }

  /** Exactly which steps lead to a stranded runtime, and which ones keep it. */
  lemma StrandedStep(m: Model, e: Event)
    requires Inv(m) && Enabled(m, e)
    ensures Stranded(Apply(m, e)) <==> RestoresOverFailure(m, e) || (Stranded(m) && !Leaves(m, e))
    ensures Stranded(m) ==> m.launchBlocked && !e.LaunchReturns?
  {
    if e.AcquireLease? || e.ReleaseLease? { LeaseStrandedStep(m, e); } else { OwnerStrandedStep(m, e); }
  }

  lemma LeaseStrandedStep(m: Model, e: Event)
    requires Inv(m) && Enabled(m, e) && (e.AcquireLease? || e.ReleaseLease?)
    ensures Stranded(Apply(m, e)) <==> Stranded(m) && !Leaves(m, e)
  {
  }

  lemma OwnerStrandedStep(m: Model, e: Event)
    requires Inv(m) && Enabled(m, e) && !e.AcquireLease? && !e.ReleaseLease?
    ensures Stranded(Apply(m, e)) <==> RestoresOverFailure(m, e) || (Stranded(m) && !Leaves(m, e))
  {
  }

  /** The state before event i of a run. */
  function At(m: Model, events: seq<Event>, i: nat): (r: Model)
    requires Runs(m, events) && i <= |events|
    ensures i < |events| ==> Enabled(r, events[i])
    decreases |events|
  {
    if i == 0 then m else At(Apply(m, events[0]), events[1..], i - 1)
  }

  /** From event `from` on, nothing leaves a stranded runtime. */
  predicate Untouched(m: Model, events: seq<Event>, from: nat)
    requires Runs(m, events)
  {
    forall j :: from <= j < |events| ==> !Leaves(At(m, events, j), events[j])
  }

  /** Event i restores a failed runtime to ready, and nothing leaves it afterwards. */
  predicate StrandedBy(m: Model, events: seq<Event>, i: nat)
    requires Runs(m, events)
  {
    i < |events| && RestoresOverFailure(At(m, events, i), events[i]) && Untouched(m, events, i + 1)
  }

  lemma UntouchedTail(m: Model, events: seq<Event>, from: nat)
    requires Runs(m, events) && events != []
    ensures Untouched(m, events, from + 1) <==> Untouched(Apply(m, events[0]), events[1..], from)
  {
    var m1, rest := Apply(m, events[0]), events[1..];
    assert forall j :: 0 <= j < |rest| ==> At(m, events, j + 1) == At(m1, rest, j) && events[j + 1] == rest[j];
    if Untouched(m, events, from + 1) {
      forall j | from <= j < |rest| ensures !Leaves(At(m1, rest, j), rest[j]) {
        assert !Leaves(At(m, events, j + 1), events[j + 1]);
      }
    }
    if Untouched(m1, rest, from) {
      forall j | from + 1 <= j < |events| ensures !Leaves(At(m, events, j), events[j]) {
        assert !Leaves(At(m1, rest, j - 1), rest[j - 1]);
      }
    }
  }

  lemma StrandedByTail(m: Model, events: seq<Event>, i: nat)
    requires Runs(m, events) && events != []
    ensures StrandedBy(m, events, i + 1) <==> StrandedBy(Apply(m, events[0]), events[1..], i)
  {
    UntouchedTail(m, events, i + 1);
  }

  /** One event before the rest of a run. */
  lemma StrandedEarlier(m: Model, events: seq<Event>)
    requires Runs(m, events) && events != []
    ensures (exists i: nat :: StrandedBy(m, events, i)) <==>
            || (RestoresOverFailure(m, events[0]) && Untouched(Apply(m, events[0]), events[1..], 0))
            || (exists i: nat :: StrandedBy(Apply(m, events[0]), events[1..], i))
  {
    var m1, rest := Apply(m, events[0]), events[1..];
    UntouchedTail(m, events, 0);
    assert StrandedBy(m, events, 0) <==> RestoresOverFailure(m, events[0]) && Untouched(m1, rest, 0);
    if i: nat :| StrandedBy(m, events, i) {
      if i > 0 { StrandedByTail(m, events, i - 1); }
    }
    if i: nat :| StrandedBy(m1, rest, i) { StrandedByTail(m, events, i); }
  }

  /** A run ends stranded exactly if some failing check restored a failed runtime and nothing left it since. */
  lemma {:induction false} StrandedIff(m: Model, events: seq<Event>)
    requires Inv(m) && Runs(m, events)
    ensures Stranded(After(m, events)) <==>
            (Stranded(m) && Untouched(m, events, 0)) || exists i: nat :: StrandedBy(m, events, i)
    decreases |events|
  {
    if events == [] {
      assert After(m, events) == m;
    } else {
      StepKeepsInv(m, events[0]);
      StrandedStep(m, events[0]);
      StrandedIff(Apply(m, events[0]), events[1..]);
      StrandedEarlier(m, events);
      UntouchedTail(m, events, 0);
      assert Untouched(m, events, 0) <==> !Leaves(m, events[0]) && Untouched(m, events, 1) by { assert At(m, events, 0) == m; }
    }
  }

  /** Ready means a live owner, except exactly after such a check. */
  lemma ReadyMeansWatchedIff(driver: string, events: seq<Event>)
    requires Runs(Init(driver), events) && After(Init(driver), events).state == Ready
    ensures var m := After(Init(driver), events);
            && m.current.Some? && m.current.value < |m.watch| && !m.stopped
            && (m.watch[m.current.value] == Watching <==> !exists i: nat :: StrandedBy(Init(driver), events, i))
            && (m.watch[m.current.value] != Watching ==> m.launchBlocked)
  {
    InitInv(driver);
    RunKeepsInv(Init(driver), events);
    StrandedIff(Init(driver), events);
  }

  /** A stranded runtime stays so and launches nothing, until it is terminated or a headless owner misses an idle hold. */
  lemma {:induction false} StrandedUntilLeft(m: Model, events: seq<Event>)
    requires Inv(m) && Stranded(m) && Runs(m, events) && Untouched(m, events, 0)
    ensures Stranded(After(m, events)) && !Launches(events)
    ensures After(m, events).current == m.current && After(m, events).generation == m.generation
    decreases |events|
  {
    if events == [] {
      assert After(m, events) == m;
    } else {
      assert At(m, events, 0) == m && !Leaves(m, events[0]);
      StepKeepsInv(m, events[0]);
      StrandedStep(m, events[0]);
      StepAdvancesGeneration(m, events[0]);
      UntouchedTail(m, events, 0);
      StrandedUntilLeft(Apply(m, events[0]), events[1..]);
      LaunchesTail(events);
    }
  }

  /** What leaving means: stopped for good, or blocked with an owner that may be recovered. */
  lemma LeavingStranded(m: Model, e: Event)
    requires Inv(m) && Stranded(m) && Leaves(m, e)
    ensures var m' := Apply(m, e);
            if e.BeginTerminate? then m'.stopped
            else m.owners[m.current.value].driver == "headless" && m'.state == Blocked && RecoverRefusal(m').None?
  {
  }

  /** A latched runtime may well have a live owner: the exit is seen while its replacement goes on. */
  lemma LatchedButWatchedIsReachable() returns (events: seq<Event>)
    ensures Runs(Init("browser"), events)
    ensures var m := After(Init("browser"), events);
            m.state == Ready && m.launchBlocked && m.current == Some(2) && |m.watch| == 3 && m.watch[2] == Watching
  {
    var m := Init("browser");
    events := ExitDuringCheckIsReachable();
    RunsExtend(m, events, MarkIntentional); events := events + [MarkIntentional];
    RunsExtend(m, events, CloseReturns(true)); events := events + [CloseReturns(true)];
    RunsExtend(m, events, Vacate); events := events + [Vacate];
    var launched := LaunchReturns(LaunchResult(false, Some("browser"), false));
    RunsExtend(m, events, launched); events := events + [launched];
    RunsExtend(m, events, Adopt); events := events + [Adopt];
  }
}
