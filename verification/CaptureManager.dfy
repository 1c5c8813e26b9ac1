/**
 The manager object. Each short method is one critical section and is tied to one event of the
 protocol; Replace and Recover are the whole operations, run under arbitrary interference from
 watchers and leases, and every execution of them is a run of the protocol.
 */
module CaptureManager {
  import opened Common
  import opened CaptureRuntime

  /** What the environment answers while one Replace or Recover is in flight. */
  datatype Answers = Answers(
    cancelledAtEntry: bool,
    ready: bool,
    closed: bool,
    cancelledBeforeLaunch: bool,
    launch: LaunchResult)

  datatype Failure = Cancelled | Refused(why: Refusal) | NotReady | StoppedMeanwhile | NotReleased | LaunchFailed

  /** Steps of goroutines that do not hold the operation mutex. */
  predicate Concurrent(e: Event) {
    e.WatchExit? || e.WatchFinish? || e.AcquireLease? || e.ReleaseLease?
  }

  lemma ConcurrentStepKeeps(m: Model, e: Event)
    requires Inv(m) && Enabled(m, e) && Concurrent(e)
    ensures Kept(m, Apply(m, e))
  {
  }

  predicate Kept(m: Model, m': Model) {
    m'.pc == m.pc && m'.generation == m.generation && m'.released == m.released && m'.current == m.current
    && m'.owners == m.owners
  }

  /** What such steps leave alone, however many there are. */
  lemma {:induction false} ConcurrentStepsKeep(m: Model, steps: seq<Event>)
    requires Inv(m) && Runs(m, steps) && forall e <- steps :: Concurrent(e)
    ensures Kept(m, After(m, steps))
    decreases |steps|
  {
    if steps == [] {
      assert After(m, steps) == m;
    } else {
      assert steps[0] in steps && forall e <- steps[1..] :: e in steps;
      StepKeepsInv(m, steps[0]);
      ConcurrentStepKeeps(m, steps[0]);
      ConcurrentStepsKeep(Apply(m, steps[0]), steps[1..]);
    }
  }

  /** A replacement succeeded: a ready owner of the next generation, and every earlier one released. */
  predicate Succeeded(m: Model, generation: nat) {
    && m.state == Ready && m.generation == generation + 1 && m.owners != [] && m.current == Some(|m.owners| - 1)
    && EarlierReleased(m)
  }

  /** An unretained, running runtime that is blocked or failed, with an owner and without leases. */
  predicate Recoverable(m: Model) {
    !m.persistent && !m.stopped && m.leases == 0 && m.current.Some? && (m.state == Blocked || m.state == Failed)
  }

  /** An unretained, running, unlatched runtime without leases. */
  predicate Replaceable(m: Model) { !m.persistent && !m.stopped && !m.launchBlocked && m.leases == 0 }

  /** Everything the environment is asked goes well. */
  predicate Good(a: Answers, hasOwner: bool) { !a.cancelledAtEntry && a.ready && (hasOwner ==> a.closed) && !a.launch.Failed() }

  /** Only a replacement looks for a cancellation between close and launch. */
  predicate Cancels(a: Answers, kind: Kind) { kind == Replacement && a.cancelledBeforeLaunch }

  predicate EarlierReleased(m: Model) { forall i :: 0 <= i < |m.owners| - 1 ==> i in m.released }

  lemma EarlierOwnersAreReleased(m: Model)
    requires Inv(m) && m.pc == Idle && m.owners != [] && m.current == Some(|m.owners| - 1)
    ensures EarlierReleased(m)
  {
  }

  class Manager {
    var owners: seq<Owner>
    var current: Option<nat>
    var state: RunState
    var generation: nat
    var leases: int
    var stopped: bool
    var launchBlocked: bool
    var persistent: bool
    var finished: bool
    ghost var doneMessages: nat
    ghost var released: set<nat>
    ghost var watch: seq<Watch>
    ghost var issued: seq<Lease>
    var pc: Operation   // who holds the operation mutex, and how far it is

    ghost function View(): Model
      reads this
    {
      Model(owners, current, state, generation, leases, stopped, launchBlocked, persistent, finished,
            doneMessages, released, watch, issued, pc)
    }

    constructor (driver: string)
      ensures View() == Init(driver)
    {
      owners, current, state, generation, leases := [Owner(driver, false)], Some(0), Ready, 1, 0;
      stopped, launchBlocked, persistent, finished := false, false, false, false;
      doneMessages, released, watch, issued, pc := 0, {}, [Watching], [], Idle;
    }

    // ---- critical sections -----------------------------------------------------------------

    method AdmitReplace() returns (refusal: Option<Refusal>, previous: Option<nat>, priorState: RunState)
      requires Enabled(View(), BeginReplace)
      modifies this
      ensures View() == Apply(old(View()), BeginReplace)
      ensures refusal == ReplaceRefusal(old(View()))
      ensures refusal.None? <==> Replaceable(old(View()))
      ensures previous == old(current) && priorState == old(state)
    {
      previous, priorState := current, state;
      if persistent { return Some(ErrPersistent), previous, priorState; }
      if stopped { return Some(ErrStopped), previous, priorState; }
      if launchBlocked { return Some(ErrUnavailable), previous, priorState; }
      if leases != 0 { return Some(ErrBusy), previous, priorState; }
      state := Replacing;
      pc := Preparing(Replacement, previous, priorState);
      refusal := None;
    }

    method AdmitRecover() returns (refusal: Option<Refusal>, previous: Option<nat>, priorState: RunState)
      requires Enabled(View(), BeginRecover)
      modifies this
      ensures View() == Apply(old(View()), BeginRecover)
      ensures refusal == RecoverRefusal(old(View()))
      ensures refusal.None? <==> Recoverable(old(View()))
      ensures previous == old(current) && priorState == old(state)
    {
      previous, priorState := current, state;
      if persistent { return Some(ErrPersistent), previous, priorState; }
      if stopped || leases != 0 || current.None? || (state != Blocked && state != Failed) {
        return Some(ErrUnavailable), previous, priorState;
      }
      state := Replacing;
      pc := Preparing(Recovery, previous, priorState);
      refusal := None;
    }

    method RestoreState(priorState: RunState)
      requires Enabled(View(), PreparationFails) && pc.priorState == priorState
      modifies this
      ensures View() == Apply(old(View()), PreparationFails)
    {
      if !stopped { state := priorState; }
      pc := Idle;
    }

    method Commit(previous: nat) returns (stoppedMeanwhile: bool)
      requires Enabled(View(), MarkIntentional) && pc.previous == Some(previous)
      modifies this
      ensures View() == Apply(old(View()), MarkIntentional)
      ensures stoppedMeanwhile == old(stopped)
    {
      stoppedMeanwhile := stopped;
      if stopped {
        pc := Idle;
      } else {
        owners := owners[previous := owners[previous].(intentional := true)];
        pc := Closing(pc.kind, previous);
      }
    }

    /** The process answers the close request; no manager field changes. */
    method ObserveClose(ok: bool)
      requires Enabled(View(), CloseReturns(ok))
      modifies this
      ensures View() == Apply(old(View()), CloseReturns(ok))
    {
      if ok { released := released + {pc.closing}; }
      pc := CloseDone(pc.kind, pc.closing, ok);
    }

    method Block(ghost e: Event)
      requires e.BlockAfterClose? || e.CancelBeforeLaunch?
      requires Enabled(View(), e)
      modifies this
      ensures View() == Apply(old(View()), e)
    {
      state := Blocked;
      pc := Idle;
    }

    method Empty() returns (launchGeneration: nat)
      requires Enabled(View(), Vacate)
      modifies this
      ensures View() == Apply(old(View()), Vacate)
      ensures launchGeneration == generation
    {
      current := None;
      generation := generation + 1;
      launchGeneration := generation;
      pc := Launching(pc.kind, generation);
    }

    /** The launcher returns; a process it returns is known from here on. */
    method ObserveLaunch(r: LaunchResult) returns (next: Option<nat>)
      requires Enabled(View(), LaunchReturns(r))
      modifies this
      ensures View() == Apply(old(View()), LaunchReturns(r))
      ensures pc == Launched(old(pc.kind), r.Failed(), next)
      ensures next.Some? <==> r.process.Some?
      ensures next.Some? ==> next.value < |owners| && owners[next.value] == Owner(r.process.value, false)
    {
      next := None;
      if r.process.Some? {
        next := Some(|owners|);
        owners := owners + [Owner(r.process.value, false)];
        watch := watch + [Unwatched];
      }
      pc := Launched(pc.kind, r.Failed(), next);
    }

    method AdoptNext(next: Option<nat>, failed: bool, kind: Kind)
      requires Enabled(View(), Adopt) && pc == Launched(kind, failed, next)
      modifies this
      ensures View() == Apply(old(View()), Adopt)
      ensures !failed ==> state == Ready && current == next && owners == old(owners) && generation == old(generation)
    {
      if failed {
        if next.Some? {
          owners := owners[next.value := owners[next.value].(intentional := true)];
          current := next;
        }
        state := Blocked;
        launchBlocked := true;
      } else {
        current := next;
        state := Ready;
        if kind == Recovery { launchBlocked := false; }
        watch := watch[next.value := Watching];
      }
      pc := Idle;
    }

    method RetainForProcess() returns (ok: bool)
      requires Enabled(View(), Retain)
      modifies this
      ensures View() == Apply(old(View()), Retain)
      ensures ok <==> RetainAdmitted(old(View()))
      ensures ok ==> persistent && !old(persistent)
    {
      if persistent || stopped || state != Ready || current.None? || owners[current.value].driver != "browser" {
        return false;
      }
      persistent := true;
      ok := true;
    }

    method StartTerminate()
      requires Enabled(View(), BeginTerminate)
      modifies this
      ensures View() == Apply(old(View()), BeginTerminate)
    {
      stopped := true;
      state := Stopped;
      if current.Some? { owners := owners[current.value := owners[current.value].(intentional := true)]; }
      pc := Terminating;
    }

    method SignalDone()
      modifies this
      ensures View() == Finish(old(View()))
    {
      if !finished {
        doneMessages := doneMessages + 1;
        finished := true;
      }
    }

    method CompleteTerminate()
      requires Enabled(View(), EndTerminate)
      modifies this
      ensures View() == Apply(old(View()), EndTerminate)
    {
      SignalDone();
      pc := Idle;
    }

    /** A recovery action is dispatched to a ready owner only, and excludes replacement meanwhile. */
    method StartDispatch() returns (ok: bool)
      requires Enabled(View(), BeginDispatch)
      modifies this
      ensures View() == Apply(old(View()), BeginDispatch)
      ensures ok <==> old(state) == Ready && !old(stopped) && old(current).Some?
    {
      ok := state == Ready && !stopped && current.Some?;
      if ok { pc := Dispatching; }
    }

    method FinishDispatch()
      requires Enabled(View(), EndDispatch)
      modifies this
      ensures View() == Apply(old(View()), EndDispatch)
    {
      pc := Idle;
    }

    method OnExit(i: nat) returns (shutdown: bool)
      requires Enabled(View(), WatchExit(i))
      modifies this
      ensures View() == Apply(old(View()), WatchExit(i))
      ensures shutdown <==> watch[i] == MustFinish
    {
      var unexpected := current == Some(i) && !owners[i].intentional && !stopped;
      if unexpected {
        state := Failed;
        if owners[i].driver == "headless" || generation > 1 { launchBlocked := true; } else { stopped := true; }
      }
      shutdown := unexpected && stopped;
      watch := watch[i := if shutdown then MustFinish else WatchOver];
    }

    method SetIdleHold(acknowledged: bool) returns (ok: bool)
      requires WellFormed(View())
      modifies this
      ensures (ok, View()) == IdleHold(old(View()), acknowledged)
    {
      if current.None? || owners[current.value].driver != "headless" || acknowledged { return true; }
      state, launchBlocked := Blocked, true;
      ok := false;
    }

    method Acquire(acknowledged: bool) returns (lease: Option<Lease>)
      requires Enabled(View(), AcquireLease(acknowledged))
      modifies this
      ensures View() == Apply(old(View()), AcquireLease(acknowledged))
      ensures issued == if lease.Some? then old(issued) + [lease.value] else old(issued)
      ensures lease.Some? ==> !lease.value.released && lease.value.generation == generation
    {
      if stopped || state != Ready || current.None? { return None; }
      if leases == 0 {
        var ok := SetIdleHold(acknowledged);
        if !ok { return None; }
      }
      leases := leases + 1;
      lease := Some(Lease(generation, owners[current.value].driver, false));
      issued := issued + [lease.value];
    }

    /** The once guard of a lease, then the shared counter. */
    method Release(ghost k: nat, first: bool, acknowledged: bool)
      requires Enabled(View(), ReleaseLease(k, acknowledged)) && first == !issued[k].released
      modifies this
      ensures View() == Apply(old(View()), ReleaseLease(k, acknowledged))
    {
      if first {
        leases := leases - 1;
        issued := issued[k := issued[k].(released := true)];
        if leases == 0 && !stopped && state == Ready { var _ := SetIdleHold(acknowledged); }
      }
    }

    method AcceptsGeneration(g: nat) returns (ok: bool)
      ensures ok <==> Accepts(View(), g)
    {
      ok := state == Ready && !stopped && g == generation;
    }

    // ---- whole operations ------------------------------------------------------------------

    /** Any number of steps by watchers and leases while the operation mutex is held elsewhere. */
    method Others(ghost before: Model, ghost trace: seq<Event>) returns (ghost trace': seq<Event>)
      requires Inv(before) && Runs(before, trace) && View() == After(before, trace)
      modifies this
      ensures Runs(before, trace') && View() == After(before, trace') && Inv(View())
      ensures pc == old(pc) && generation == old(generation) && owners == old(owners)
      ensures exists steps :: trace' == trace + steps && forall e <- steps :: Concurrent(e)
    {
      RunKeepsInv(before, trace);
      assert trace == trace + [];
      trace' := trace;
    }

    ghost method Record(before: Model, trace: seq<Event>, e: Event, after: Model) returns (trace': seq<Event>)
      requires Runs(before, trace) && Enabled(After(before, trace), e)
      requires after == Apply(After(before, trace), e)
      ensures trace' == trace + [e] && Runs(before, trace') && After(before, trace') == after
    {
      RunsExtend(before, trace, e);
      trace' := trace + [e];
    }

    /** Wait for the committed close; a failure keeps the owner and blocks the runtime. */
    method CloseOwner(closed: bool, ghost before: Model, ghost trace: seq<Event>) returns (ghost trace': seq<Event>)
      requires Inv(before) && Runs(before, trace) && View() == After(before, trace) && pc.Closing?
      modifies this
      ensures Runs(before, trace') && View() == After(before, trace')
      ensures if closed then pc == CloseDone(old(pc).kind, old(pc).closing, true) else pc == Idle
      ensures generation == old(generation)
    {
      trace' := Others(before, trace);
      ObserveClose(closed);
      trace' := Record(before, trace', CloseReturns(closed), View());
      trace' := Others(before, trace');
      if !closed {
        Block(BlockAfterClose);
        trace' := Record(before, trace', BlockAfterClose, View());
      }
    }

    /** The newest process is the ready owner of this generation. */
    ghost predicate Adopts(generation: nat)
      reads this
    {
      state == Ready && this.generation == generation && owners != [] && current == Some(|owners| - 1)
    }

    /** Empty the owner slot, launch, and adopt what the launcher returned. */
    method LaunchNext(kind: Kind, a: Answers, ghost before: Model, ghost trace: seq<Event>)
        returns (err: Option<Failure>, ghost trace': seq<Event>)
      requires Inv(before) && Runs(before, trace) && View() == After(before, trace)
      requires Enabled(View(), Vacate) && pc.kind == kind
      modifies this
      ensures Runs(before, trace') && View() == After(before, trace') && pc == Idle
      ensures err.None? <==> !a.launch.Failed() && !Cancels(a, kind)
      ensures err.None? ==> Adopts(old(generation) + 1) && (kind == Recovery ==> !launchBlocked)
    {
      var _ := Empty();
      trace' := Record(before, trace, Vacate, View());
      trace' := Others(before, trace');
      if Cancels(a, kind) {
        Block(CancelBeforeLaunch);
        trace' := Record(before, trace', CancelBeforeLaunch, View());
        return Some(Cancelled), trace';
      }
      trace' := LaunchAndAdopt(kind, a.launch, before, trace');
      err := if a.launch.Failed() then Some(LaunchFailed) else None;
    }

    method LaunchAndAdopt(kind: Kind, launch: LaunchResult, ghost before: Model, ghost trace: seq<Event>) returns (ghost trace': seq<Event>)
      requires Inv(before) && Runs(before, trace) && View() == After(before, trace)
      requires Enabled(View(), LaunchReturns(launch)) && pc.kind == kind
      modifies this
      ensures Runs(before, trace') && View() == After(before, trace') && pc == Idle
      ensures !launch.Failed() ==> Adopts(old(generation)) && (kind == Recovery ==> !launchBlocked)
    {
      var next := ObserveLaunch(launch);
      trace' := Record(before, trace, LaunchReturns(launch), View());
      trace' := Others(before, trace');
      AdoptNext(next, launch.Failed(), kind);
      trace' := Record(before, trace', Adopt, View());
    }

    /** Commit to the close of the previous owner, wait for it, and launch. */
    method CloseAndLaunch(previous: nat, kind: Kind, a: Answers, ghost before: Model, ghost trace: seq<Event>)
        returns (err: Option<Failure>, ghost trace': seq<Event>)
      requires Inv(before) && Runs(before, trace) && View() == After(before, trace)
      requires Enabled(View(), MarkIntentional) && pc.kind == kind && pc.previous == Some(previous)
      modifies this
      ensures Runs(before, trace') && View() == After(before, trace') && pc == Idle
      ensures err.None? ==> a.closed && !a.launch.Failed() && Adopts(old(generation) + 1) && (kind == Recovery ==> !launchBlocked)
      ensures a.closed && !a.launch.Failed() && !Cancels(a, kind) && !stopped ==> err.None?
    {
      var gone := Commit(previous);
      trace' := Record(before, trace, MarkIntentional, View());
      if gone { return Some(StoppedMeanwhile), trace'; }
      trace' := CloseOwner(a.closed, before, trace');
      if !a.closed { return Some(NotReleased), trace'; }
      RunKeepsInv(before, trace');
      err, trace' := LaunchNext(kind, a, before, trace');
    }

    /** An answer that the transport or the owner is not ready gives the earlier state back. */
    method CancelPreparation(priorState: RunState, ghost before: Model, ghost trace: seq<Event>) returns (ghost trace': seq<Event>)
      requires Inv(before) && Runs(before, trace) && View() == After(before, trace)
      requires Enabled(View(), PreparationFails) && pc.priorState == priorState
      modifies this
      ensures Runs(before, trace') && View() == After(before, trace') && pc == Idle
    {
      RestoreState(priorState);
      trace' := Record(before, trace, PreparationFails, View());
    }

    /** From admission to the end: the readiness checks, the close of an owner if there is one, the launch. */
    method Proceed(kind: Kind, previous: Option<nat>, priorState: RunState, a: Answers, ghost before: Model, ghost trace: seq<Event>)
        returns (err: Option<Failure>, ghost trace': seq<Event>)
      requires Inv(before) && Runs(before, trace) && View() == After(before, trace)
      requires pc == Preparing(kind, previous, priorState) && (kind == Recovery ==> previous.Some?)
      modifies this
      ensures Runs(before, trace') && View() == After(before, trace') && pc == Idle
      ensures err.None? ==> a.ready && !a.launch.Failed() && (previous.Some? ==> a.closed)
      ensures err.None? ==> Adopts(old(generation) + 1) && (kind == Recovery ==> !launchBlocked)
      ensures a.ready && !a.launch.Failed() && (previous.Some? ==> a.closed) && !Cancels(a, kind) && !stopped ==> err.None?
    {
      trace' := Others(before, trace);
      if !a.ready {
        trace' := CancelPreparation(priorState, before, trace');
        err := Some(NotReady);
      } else if previous.Some? {
        err, trace' := CloseAndLaunch(previous.value, kind, a, before, trace');
      } else {
        err, trace' := LaunchNext(kind, a, before, trace');
      }
    }

    /**
     Every execution of Replace, whatever interleaves with it, is a run of the protocol; success
     leaves a ready owner of the next generation and every earlier owner released.
     */
    method Replace(a: Answers) returns (err: Option<Failure>, ghost trace: seq<Event>)
      requires Inv(View()) && pc == Idle
      modifies this
      ensures Runs(old(View()), trace) && View() == After(old(View()), trace) && Inv(View()) && pc == Idle
      ensures err.None? ==> !a.cancelledAtEntry && a.ready && !a.launch.Failed() && (old(current).Some? ==> a.closed)
      ensures err.None? ==> Succeeded(View(), old(generation))
      ensures Replaceable(old(View())) && Good(a, old(current).Some?) && !a.cancelledBeforeLaunch && !stopped ==> err.None?
    {
      ghost var before := View();
      trace := [];
      if a.cancelledAtEntry { return Some(Cancelled), trace; }
      var refusal, previous, priorState := AdmitReplace();
      trace := Record(before, trace, BeginReplace, View());
      if refusal.Some? {
        err := Some(Refused(refusal.value));
      } else {
        err, trace := Proceed(Replacement, previous, priorState, a, before, trace);
      }
      RunKeepsInv(before, trace);
      if err.None? { EarlierOwnersAreReleased(View()); }
    }

    method Recover(a: Answers) returns (err: Option<Failure>, ghost trace: seq<Event>)
      requires Inv(View()) && pc == Idle
      modifies this
      ensures Runs(old(View()), trace) && View() == After(old(View()), trace) && Inv(View()) && pc == Idle
      ensures err.None? ==> !a.cancelledAtEntry && a.ready && a.closed && !a.launch.Failed()
      ensures err.None? ==> Succeeded(View(), old(generation)) && !launchBlocked
      ensures Recoverable(old(View())) && Good(a, true) && !stopped ==> err.None?
    {
      ghost var before := View();
      trace := [];
      if a.cancelledAtEntry { return Some(Cancelled), trace; }
      var refusal, previous, priorState := AdmitRecover();
      trace := Record(before, trace, BeginRecover, View());
      if refusal.Some? {
        err := Some(Refused(refusal.value));
      } else {
        err, trace := Proceed(Recovery, previous, priorState, a, before, trace);
      }
      RunKeepsInv(before, trace);
      if err.None? { EarlierOwnersAreReleased(View()); }
    }

    method Terminate() returns (ghost trace: seq<Event>)
      requires Inv(View()) && pc == Idle
      modifies this
      ensures Runs(old(View()), trace) && View() == After(old(View()), trace) && Inv(View())
      ensures pc == Idle && stopped && finished && doneMessages == 1
    {
      ghost var before := View();
      trace := [];
      StartTerminate();
      trace := Record(before, trace, BeginTerminate, View());
      trace := Others(before, trace);
      CompleteTerminate();
      trace := Record(before, trace, EndTerminate, View());
      RunKeepsInv(before, trace);
    }
  }
}
