/**
 The coordinator at work: whole borrow calls and whole reconcile passes over the coordinator's and
 the manager's fields, under arbitrary interference. Every execution is a run of the protocol.
 */
module CoordinatorRun {
  import opened Common
  import opened Coordinator
  import opened CoordinatorObject
  import R = CaptureRuntime
  import M = CaptureManager

  /** What the environment answers to one turn of the polling loop. */
  datatype Poll = Poll(acquireHold: bool, releaseHold: bool, expired: bool)

  /** What one look at the runtime shows. */
  datatype Sight = BrowserReady | Hopeless | NothingYet

  /** What one turn comes to. */
  datatype Attempt = Again | Refused | Got(lease: R.Lease)

  /** What the environment answers during one reconcile pass. */
  datatype PassAnswers = PassAnswers(retiring: bool, veto: Option<(string, bool)>, owner: M.Answers, message: string)

  /** How a pass ended. */
  datatype Outcome = Retained | LeftAlone | Vetoed | Acted(result: Result)

  /** What asking the manager came to. */
  datatype Result = Cancelled | Declined(why: R.Refusal) | Tried(ok: bool)

  /** Steps of other goroutines while borrow i is under way: they move neither it nor its lease. */
  predicate Foreign(e: Event, i: nat, phase: Phase) {
    && Moved(e) != Some(i)
    && !(e.Owner? && e.step.ReleaseLease? && (phase.Leased? || phase.Holding?) && e.step.lease == phase.lease)
  }

  /** Steps of other goroutines while a pass is under way; with the operation mutex held, only watchers and leases move the owner. */
  predicate OutsidePass(e: Event, held: bool) {
    && !e.ReconcileEnter? && !e.ReconcileRead? && !e.ReconcileDecide? && !e.ReconcileVeto? && !e.ReconcileStart?
    && !e.FactoryRecords? && !e.ReconcileReturn?
    && (held && e.Owner? ==> M.Concurrent(e.step))
  }

  function KindOf(recover: bool): R.Kind { if recover then R.Recovery else R.Replacement }

  /** What such steps leave alone, however many there are. */
  lemma {:induction false} OutsideStepsKeep(c: State, steps: seq<Event>, held: bool)
    requires Inv(c) && Runs(c, steps) && forall e <- steps :: OutsidePass(e, held)
    ensures var c' := After(c, steps);
      c'.loop == c.loop && c'.f.nativeReaderGeneration == c.f.nativeReaderGeneration && (held ==> M.Kept(c.m, c'.m))
    decreases |steps|
  {
    if steps == [] {
      assert After(c, steps) == c;
    } else {
      assert steps[0] in steps && forall e <- steps[1..] :: e in steps;
      StepKeepsInv(c, steps[0]);
      OutsideStepKeeps(c, steps[0], held);
      OutsideStepsKeep(Apply(c, steps[0]), steps[1..], held);
    }
  }

  lemma OutsideStepKeeps(c: State, e: Event, held: bool)
    requires Inv(c) && Enabled(c, e) && OutsidePass(e, held)
    ensures var c' := Apply(c, e);
      c'.loop == c.loop && c'.f.nativeReaderGeneration == c.f.nativeReaderGeneration && (held ==> M.Kept(c.m, c'.m))
  {
    ReaderStep(c, e);
    StepProjects(c, e);
    var step := ManagerStep(c, e);
    if held && step.Some? {
      assert M.Concurrent(step.value);
      M.ConcurrentStepKeeps(c.m, step.value);
    }
  }

  lemma ReaderStep(c: State, e: Event)
    requires Enabled(c, e) && OutsidePass(e, false)
    ensures Apply(c, e).loop == c.loop && Apply(c, e).f.nativeReaderGeneration == c.f.nativeReaderGeneration
  {
  }

  /** The reader generation that a launch in this mode records. */
  function Recorded(mode: string, launchReader: bool, generation: nat): nat { if mode == "browser" && launchReader then generation else 0 }

  class Collection {
    const fields: CoordinatorFields
    const owner: M.Manager
    ghost var borrows: seq<Borrow>
    ghost var loop: Reconcile

    ghost function View(): State
      reads this, fields, owner
    {
      State(owner.View(), fields.View(), borrows, loop)
    }

    constructor (driver: string)
      ensures View() == Init(driver) && fresh(fields) && fresh(owner)
    {
      fields := new CoordinatorFields();
      owner := new M.Manager(driver);
      borrows, loop := [], Asleep;
    }

    /** The trace so far has led here. */
    ghost predicate OnRun(before: State, trace: seq<Event>)
      reads this, fields, owner
    {
      Inv(before) && Runs(before, trace) && View() == After(before, trace)
    }

    ghost method Record(before: State, trace: seq<Event>, e: Event) returns (trace': seq<Event>)
      requires Inv(before) && Runs(before, trace) && Enabled(After(before, trace), e)
      requires View() == Apply(After(before, trace), e)
      ensures trace' == trace + [e] && OnRun(before, trace')
    {
      RunsExtend(before, trace, e);
      trace' := trace + [e];
    }

    /** The lease that borrow i has, if any, is still unreleased. */
    ghost predicate OwnLease(i: nat)
      reads this, owner
    {
      i < |borrows| && (borrows[i].phase.Leased? || borrows[i].phase.Holding? ==>
        borrows[i].phase.lease < |owner.issued| && !owner.issued[borrows[i].phase.lease].released)
    }

    /** Any number of steps by others while borrow i is under way. */
    method Others(ghost i: nat, ghost before: State, ghost trace: seq<Event>) returns (ghost trace': seq<Event>)
      requires OnRun(before, trace) && OwnLease(i)
      modifies this, fields, owner
      ensures OnRun(before, trace') && Inv(View()) && OwnLease(i) && borrows[i] == old(borrows[i])
      ensures borrows[i].phase.Leased? ==> owner.issued[borrows[i].phase.lease] == old(owner.issued[borrows[i].phase.lease])
      ensures exists steps :: trace' == trace + steps && forall e <- steps :: Foreign(e, i, borrows[i].phase)
    {
      RunKeepsInv(before, trace);
      assert trace == trace + [];
      trace' := trace;
    }

    ghost method SetPhase(i: nat, phase: Phase)
      requires i < |borrows|
      modifies this`borrows
      ensures borrows == old(borrows)[i := old(borrows)[i].(phase := phase)]
    {
      borrows := borrows[i := borrows[i].(phase := phase)];
    }

    // ---- the segments of a borrow ---------------------------------------------------------------

    /** Reads the recorded reader generation, then the owner's, and refuses if a bare reader is running. */
    method CheckReader(ghost i: nat, native: bool, ghost before: State, ghost trace: seq<Event>)
        returns (refused: bool, ghost trace': seq<Event>)
      requires OnRun(before, trace) && OwnLease(i) && borrows[i].phase == SawReady && native == borrows[i].role.NativeReader?
      modifies this, fields, owner
      ensures OnRun(before, trace') && OwnLease(i) && borrows[i] == old(borrows[i]).(phase := if refused then Withdrawing(true) else Cleared)
      ensures native ==> !refused
      ensures refused ==> old(fields.nativeReaderGeneration) == owner.generation != 0
      ensures !native && old(fields.nativeReaderGeneration) == owner.generation != 0 ==> refused
    {
      var reader := fields.nativeReaderGeneration;
      SetPhase(i, StatusRead(reader));
      trace' := Record(before, trace, ReadStatus(i));
      trace' := Others(i, before, trace');
      refused := reader != 0 && reader == owner.generation && !native;
      SetPhase(i, if refused then Withdrawing(true) else Cleared);
      trace' := Record(before, trace', CheckStatus(i));
    }

    /** Asks the manager for a lease. */
    method TakeLease(ghost i: nat, acknowledged: bool, ghost before: State, ghost trace: seq<Event>)
        returns (lease: Option<R.Lease>, ghost trace': seq<Event>)
      requires OnRun(before, trace) && Inv(View()) && OwnLease(i) && borrows[i].phase == Cleared
      modifies this, owner
      ensures OnRun(before, trace') && OwnLease(i) && borrows[i].role == old(borrows[i]).role
      ensures if lease.None? then borrows[i].phase == Withdrawing(true)
              else borrows[i].phase.Leased? && owner.issued[borrows[i].phase.lease] == lease.value
    {
      ghost var k := |owner.issued|;
      lease := owner.Acquire(acknowledged);
      SetPhase(i, if lease.Some? then Leased(k) else Withdrawing(true));
      trace' := Record(before, trace, TryAcquire(i, acknowledged));
    }

    /** Keeps a lease on a browser owner and gives any other back. */
    method KeepBrowserLease(ghost i: nat, lease: R.Lease, acknowledged: bool, ghost before: State, ghost trace: seq<Event>)
        returns (kept: bool, ghost trace': seq<Event>)
      requires OnRun(before, trace) && Inv(View()) && OwnLease(i)
      requires borrows[i].phase.Leased? && owner.issued[borrows[i].phase.lease] == lease
      modifies this, owner
      ensures OnRun(before, trace') && OwnLease(i) && borrows[i].role == old(borrows[i]).role
      ensures kept == (lease.driver == "browser")
      ensures borrows[i].phase == if kept then Holding(old(borrows[i]).phase.lease) else Polling
      ensures kept ==> owner.issued == old(owner.issued)
    {
      ghost var k := borrows[i].phase.lease;
      kept := lease.driver == "browser";
      if !kept { owner.Release(k, true, acknowledged); }
      SetPhase(i, if kept then Holding(k) else Polling);
      trace' := Record(before, trace, CheckDriver(i, acknowledged));
    }

    /** Borrow i holds this unreleased lease on a browser owner. */
    ghost predicate Holds(i: nat, lease: R.Lease)
      reads this, owner
    {
      && i < |borrows| && borrows[i].phase.Holding? && borrows[i].phase.lease < |owner.issued|
      && owner.issued[borrows[i].phase.lease] == lease && !lease.released && lease.driver == "browser"
    }

    ghost predicate CameTo(i: nat, attempt: Attempt)
      reads this, owner
    {
      i < |borrows| &&
      match attempt
      case Again => borrows[i].phase == Polling
      case Refused => borrows[i].phase == Withdrawing(true)
      case Got(lease) => Holds(i, lease)
    }

    /** A ready browser was seen: check the reader, then take a lease and look at its driver. */
    method TryLease(ghost i: nat, native: bool, poll: Poll, ghost before: State, ghost trace: seq<Event>)
        returns (attempt: Attempt, ghost trace': seq<Event>)
      requires OnRun(before, trace) && OwnLease(i) && borrows[i].phase == SawReady && native == borrows[i].role.NativeReader?
      modifies this, fields, owner
      ensures OnRun(before, trace') && OwnLease(i) && CameTo(i, attempt) && borrows[i].role == old(borrows[i]).role
    {
      var refused;
      refused, trace' := CheckReader(i, native, before, trace);
      if refused { return Refused, trace'; }
      trace' := Others(i, before, trace');
      var lease;
      lease, trace' := TakeLease(i, poll.acquireHold, before, trace');
      if lease.None? { return Refused, trace'; }
      trace' := Others(i, before, trace');
      var kept;
      kept, trace' := KeepBrowserLease(i, lease.value, poll.releaseHold, before, trace');
      attempt := if kept then Got(lease.value) else Again;
    }

    /** Gives up polling. */
    ghost method StopPolling(i: nat, before: State, trace: seq<Event>) returns (trace': seq<Event>)
      requires OnRun(before, trace) && i < |borrows| && borrows[i].phase == Polling
      modifies this`borrows
      ensures OnRun(before, trace') && OwnLease(i) && borrows[i] == old(borrows[i]).(phase := Withdrawing(true))
    {
      SetPhase(i, Withdrawing(true));
      trace' := Record(before, trace, Coordinator.GiveUp(i));
    }

    /** Looks at the owner, then at the recorded failure and the caller's patience. */
    method Glance(poll: Poll) returns (sight: Sight)
      requires R.WellFormed(owner.View())
      ensures sight == BrowserReady <==> owner.state == R.Ready && Driver(owner.View()) == "browser"
      ensures sight == Hopeless <==> sight != BrowserReady && (fields.failure != "" || poll.expired)
    {
      if owner.state == R.Ready && owner.current.Some? && owner.owners[owner.current.value].driver == "browser" { return BrowserReady; }
      sight := if fields.failure != "" || poll.expired then Hopeless else NothingYet;
    }

    /** One turn of the polling loop. */
    method PollOnce(ghost i: nat, native: bool, poll: Poll, ghost before: State, ghost trace: seq<Event>)
        returns (sight: Sight, attempt: Attempt, ghost trace': seq<Event>)
      requires OnRun(before, trace) && OwnLease(i) && borrows[i].phase == Polling && native == borrows[i].role.NativeReader?
      modifies this, fields, owner
      ensures OnRun(before, trace') && OwnLease(i) && CameTo(i, attempt) && borrows[i].role == old(borrows[i]).role
      ensures sight == Hopeless ==> attempt == Refused
      ensures sight == NothingYet ==> attempt == Again
    {
      trace' := Others(i, before, trace);
      sight := Glance(poll);
      if sight == BrowserReady {
        SetPhase(i, SawReady);
        trace' := Record(before, trace', SeeReady(i));
        trace' := Others(i, before, trace');
        attempt, trace' := TryLease(i, native, poll, before, trace');
      } else if sight == Hopeless {
        trace' := StopPolling(i, before, trace');
        attempt := Refused;
      } else {
        attempt := Again;
      }
    }

    /** The intent goes back, once. */
    method WithdrawIntent(ghost i: nat, handle: IntentHandle, ghost before: State, ghost trace: seq<Event>)
        returns (ghost trace': seq<Event>)
      requires OnRun(before, trace) && i < |borrows| && borrows[i].phase.Withdrawing?
      requires !handle.spent && handle.collection == CollectionRole(borrows[i].role)
      modifies this, fields, handle
      ensures OnRun(before, trace') && handle.spent && i < |borrows| && borrows[i].role == old(borrows[i]).role
      ensures borrows[i].phase ==
              var f := old(borrows[i]).phase.failed; if borrows[i].role.NativeReader? then Lowering(f) else Settled(f)
    {
      fields.ReleaseIntent(handle);
      ghost var f := borrows[i].phase.failed;
      SetPhase(i, if borrows[i].role.NativeReader? then Lowering(f) else Settled(f));
      trace' := Record(before, trace, Withdraw(i));
    }

    /** Polls until a lease is had, a refusal, or the end of the caller's patience; without a lease the intent goes back. */
    method PollForLease(ghost i: nat, native: bool, handle: IntentHandle, polls: seq<Poll>, ghost before: State, ghost trace: seq<Event>)
        returns (lease: Option<R.Lease>, ghost trace': seq<Event>)
      requires OnRun(before, trace) && OwnLease(i) && borrows[i].phase == Polling && native == borrows[i].role.NativeReader?
      requires !handle.spent && handle.collection == CollectionRole(borrows[i].role)
      modifies this, fields, owner, handle
      ensures OnRun(before, trace') && i < |borrows| && borrows[i].role == old(borrows[i]).role
      ensures lease.Some? ==> Holds(i, lease.value) && !handle.spent
      ensures lease.None? ==> handle.spent && borrows[i].phase == if native then Lowering(true) else Settled(true)
    {
      ghost var role := borrows[i].role;
      trace' := trace;
      var n := 0;
      var attempt := Again;
      while n < |polls| && attempt.Again?
        invariant 0 <= n <= |polls|
        invariant OnRun(before, trace') && OwnLease(i) && CameTo(i, attempt) && borrows[i].role == role && !handle.spent
      {
        var sight;
        sight, attempt, trace' := PollOnce(i, native, polls[n], before, trace');
        n := n + 1;
      }
      if attempt.Got? { return Some(attempt.lease), trace'; }
      if attempt.Again? { trace' := StopPolling(i, before, trace'); }
      trace' := WithdrawIntent(i, handle, before, trace');
      lease := None;
    }

    // ---- whole borrows --------------------------------------------------------------------------

    /**
     An interactive or collection borrow. Every execution is a run; success holds a lease on a
     browser owner of the current generation, and every failure has given the intent back.
     */
    method BorrowBrowser(collection: bool, polls: seq<Poll>)
        returns (lease: Option<R.Lease>, handle: IntentHandle, ghost i: nat, ghost trace: seq<Event>)
      requires Inv(View())
      modifies this, fields, owner
      ensures Runs(old(View()), trace) && View() == After(old(View()), trace) && Inv(View()) && fresh(handle)
      ensures i < |borrows| && borrows[i].role == if collection then Role.Collection else Interactive
      ensures lease.Some? ==> Holds(i, lease.value) && lease.value.generation == owner.generation && !handle.spent
      ensures lease.None? ==> borrows[i].phase == Settled(true) && handle.spent
    {
      ghost var before := View();
      ghost var role := if collection then Role.Collection else Interactive;
      handle := fields.BeginBrowserBorrow(collection);
      i := |borrows|;
      borrows := borrows + [Borrow(role, Polling)];
      trace := Record(before, [], BeginBorrow(role));
      lease, trace := PollForLease(i, false, handle, polls, before, trace);
      RunKeepsInv(before, trace);
    }

    method RaiseReader(ghost before: State) returns (ghost i: nat, ghost trace: seq<Event>)
      requires Inv(before) && View() == before
      modifies this, fields
      ensures OnRun(before, trace) && OwnLease(i) && borrows[i] == Borrow(NativeReader, Raised)
    {
      fields.RaiseNativeReader();
      i := |borrows|;
      borrows := borrows + [Borrow(NativeReader, Raised)];
      trace := Record(before, [], RaiseNative);
    }

    method BeginReaderIntent(ghost i: nat, ghost before: State, ghost trace: seq<Event>)
        returns (handle: IntentHandle, ghost trace': seq<Event>)
      requires OnRun(before, trace) && i < |borrows| && borrows[i] == Borrow(NativeReader, Raised)
      modifies this, fields
      ensures OnRun(before, trace') && OwnLease(i) && borrows[i] == Borrow(NativeReader, Polling)
      ensures fresh(handle) && !handle.spent && !handle.collection
    {
      handle := fields.BeginBrowserBorrow(false);
      SetPhase(i, Polling);
      trace' := Record(before, trace, BeginNativeIntent(i));
    }

    method LowerReader(ghost i: nat, ghost before: State, ghost trace: seq<Event>) returns (ghost trace': seq<Event>)
      requires OnRun(before, trace) && i < |borrows| && borrows[i].phase.Lowering?
      modifies this, fields
      ensures OnRun(before, trace') && i < |borrows| && borrows[i] == old(borrows[i]).(phase := Settled(old(borrows[i]).phase.failed))
    {
      fields.LowerNativeReader();
      SetPhase(i, Settled(borrows[i].phase.failed));
      trace' := Record(before, trace, Lower(i));
    }

    ghost method FailHook(i: nat, before: State, trace: seq<Event>) returns (trace': seq<Event>)
      requires OnRun(before, trace) && i < |borrows| && borrows[i] == Borrow(NativeReader, Polling)
      modifies this`borrows
      ensures OnRun(before, trace') && OwnLease(i) && borrows[i] == Borrow(NativeReader, Withdrawing(true))
    {
      SetPhase(i, Withdrawing(true));
      trace' := Record(before, trace, HookFails(i));
    }

    /** A batch that cannot pause fails the borrow before it polls. */
    method PauseAndPoll(ghost i: nat, hookFails: bool, handle: IntentHandle, polls: seq<Poll>, ghost before: State, ghost trace: seq<Event>)
        returns (lease: Option<R.Lease>, ghost trace': seq<Event>)
      requires OnRun(before, trace) && OwnLease(i) && borrows[i] == Borrow(NativeReader, Polling)
      requires !handle.spent && !handle.collection
      modifies this, fields, owner, handle
      ensures OnRun(before, trace') && i < |borrows| && borrows[i].role == NativeReader
      ensures lease.Some? ==> Holds(i, lease.value) && !handle.spent
      ensures lease.None? ==> handle.spent && borrows[i].phase == Lowering(true)
      ensures hookFails ==> lease.None?
    {
      if hookFails {
        trace' := FailHook(i, before, trace);
        trace' := WithdrawIntent(i, handle, before, trace');
        lease := None;
      } else {
        lease, trace' := PollForLease(i, true, handle, polls, before, trace);
      }
    }

    /** A native reader's borrow: counted first, then an ordinary intent, and uncounted last on failure. */
    method BorrowNativeReader(hookFails: bool, polls: seq<Poll>)
        returns (lease: Option<R.Lease>, handle: IntentHandle, ghost i: nat, ghost trace: seq<Event>)
      requires Inv(View())
      modifies this, fields, owner
      ensures Runs(old(View()), trace) && View() == After(old(View()), trace) && Inv(View()) && fresh(handle)
      ensures i < |borrows| && borrows[i].role == NativeReader
      ensures lease.Some? ==> Holds(i, lease.value) && lease.value.generation == owner.generation && !handle.spent
      ensures lease.None? ==> borrows[i].phase == Settled(true) && handle.spent
    {
      ghost var before := View();
      i, trace := RaiseReader(before);
      trace := Others(i, before, trace);
      handle, trace := BeginReaderIntent(i, before, trace);
      trace := Others(i, before, trace);
      lease, trace := PauseAndPoll(i, hookFails, handle, polls, before, trace);
      if lease.None? {
        trace := Others(i, before, trace);
        trace := LowerReader(i, before, trace);
      }
      RunKeepsInv(before, trace);
    }

    ghost method FinishBorrow(i: nat, before: State) returns (trace: seq<Event>)
      requires Inv(before) && View() == before && i < |borrows| && (borrows[i].phase.Holding? || borrows[i].phase.Announced?)
      modifies this`borrows
      ensures OnRun(before, trace) && i < |borrows| && borrows[i] == old(borrows[i]).(phase := Withdrawing(false))
    {
      SetPhase(i, Withdrawing(false));
      trace := Record(before, [], Coordinator.Finish(i));
    }

    /** The release function of a borrow; calling it again does nothing. */
    method ReturnBorrow(ghost i: nat, native: bool, handle: IntentHandle) returns (ghost trace: seq<Event>)
      requires Inv(View()) && i < |borrows| && native == borrows[i].role.NativeReader?
      requires handle.collection == CollectionRole(borrows[i].role)
      requires !handle.spent ==> borrows[i].phase.Holding? || borrows[i].phase.Announced?
      modifies this, fields, owner, handle
      ensures Runs(old(View()), trace) && View() == After(old(View()), trace) && Inv(View()) && handle.spent
      ensures old(handle.spent) ==> trace == []
      ensures !old(handle.spent) ==> i < |borrows| && borrows[i] == old(borrows[i]).(phase := Settled(false))
    {
      ghost var before := View();
      trace := [];
      if handle.spent { return; }
      trace := FinishBorrow(i, before);
      trace := WithdrawIntent(i, handle, before, trace);
      if native {
        trace := Others(i, before, trace);
        trace := LowerReader(i, before, trace);
      }
      RunKeepsInv(before, trace);
    }

    /** An asynchronous collection intent, which takes no lease itself. */
    method BeginBrowserCollection() returns (handle: IntentHandle, ghost i: nat, ghost trace: seq<Event>)
      requires Inv(View())
      modifies this, fields
      ensures Runs(old(View()), trace) && View() == After(old(View()), trace) && Inv(View()) && fresh(handle)
      ensures i < |borrows| && borrows[i] == Borrow(CollectionIntent, Announced) && !handle.spent && handle.collection
    {
      ghost var before := View();
      handle := fields.BeginBrowserBorrow(true);
      i := |borrows|;
      borrows := borrows + [Borrow(CollectionIntent, Announced)];
      trace := Record(before, [], BeginBorrow(CollectionIntent));
      RunKeepsInv(before, trace);
    }

    /** A mode request; against a retained browser owner, another mode changes nothing that a pass acts on. */
    method RequestMode(mode: string) returns (ghost trace: seq<Event>)
      requires Inv(View())
      modifies fields
      ensures Runs(old(View()), trace) && View() == After(old(View()), trace) && Inv(View())
      ensures old(owner.persistent) && mode != "browser" ==> TargetMode(fields.View()) == old(TargetMode(fields.View())) && fields.failure != ""
      ensures !(old(owner.persistent) && mode != "browser") && fields.interactive == 0 && fields.browserCollection == 0 ==>
                TargetMode(fields.View()) == mode && fields.retry
    {
      ghost var before := View();
      fields.RequestMode(mode, owner.persistent);
      trace := Record(before, [], Request(mode));
      RunKeepsInv(before, trace);
    }

    // ---- the segments of a reconcile pass ---------------------------------------------------------

    /** Any number of steps by others while a pass is under way. */
    method Meanwhile(ghost held: bool, ghost before: State, ghost trace: seq<Event>) returns (ghost trace': seq<Event>)
      requires OnRun(before, trace)
      modifies this, fields, owner
      ensures OnRun(before, trace') && Inv(View()) && loop == old(loop)
      ensures fields.nativeReaderGeneration == old(fields.nativeReaderGeneration)
      ensures held ==> M.Kept(old(owner.View()), owner.View())
      ensures exists steps :: trace' == trace + steps && forall e <- steps :: OutsidePass(e, held)
    {
      RunKeepsInv(before, trace);
      assert trace == trace + [];
      trace' := trace;
    }

    /** The manager has made one step of the operation in flight. */
    ghost method RecordOwner(before: State, trace: seq<Event>, step: R.Event) returns (trace': seq<Event>)
      requires Inv(before) && Runs(before, trace) && R.Enabled(After(before, trace).m, step)
      requires View() == After(before, trace).(m := R.Apply(After(before, trace).m, step))
      ensures OnRun(before, trace')
    {
      trace' := Record(before, trace, Owner(step));
    }

    /** Waits until no operation is in flight; one that is comes to some end first. */
    method AwaitOperation(ghost before: State, ghost trace: seq<Event>) returns (ghost trace': seq<Event>)
      requires OnRun(before, trace)
      modifies this, fields, owner
      ensures OnRun(before, trace') && Inv(View()) && loop == old(loop) && owner.pc == R.Idle
    {
      trace' := Meanwhile(false, before, trace);
      if owner.pc.Preparing? || owner.pc.Terminating? || owner.pc.Dispatching? {
        trace' := AwaitShort(before, trace');
      } else {
        trace' := AwaitClose(before, trace');
        trace' := AwaitLaunch(before, trace');
      }
      RunKeepsInv(before, trace');
    }

    method AwaitShort(ghost before: State, ghost trace: seq<Event>) returns (ghost trace': seq<Event>)
      requires OnRun(before, trace) && Inv(View()) && (owner.pc.Preparing? || owner.pc.Terminating? || owner.pc.Dispatching?)
      modifies owner
      ensures OnRun(before, trace') && owner.pc == R.Idle
    {
      if owner.pc.Preparing? {
        owner.RestoreState(owner.pc.priorState);
        trace' := RecordOwner(before, trace, R.PreparationFails);
      } else if owner.pc.Terminating? {
        owner.CompleteTerminate();
        trace' := RecordOwner(before, trace, R.EndTerminate);
      } else {
        owner.FinishDispatch();
        trace' := RecordOwner(before, trace, R.EndDispatch);
      }
    }

    method AwaitClose(ghost before: State, ghost trace: seq<Event>) returns (ghost trace': seq<Event>)
      requires OnRun(before, trace) && Inv(View())
      requires owner.pc.Idle? || owner.pc.Closing? || owner.pc.CloseDone? || owner.pc.Launching? || owner.pc.Launched?
      modifies owner
      ensures OnRun(before, trace') && Inv(View())
      ensures owner.pc.Idle? || owner.pc.Launching? || owner.pc.Launched?
    {
      trace' := trace;
      if owner.pc.Closing? {
        owner.ObserveClose(false);
        trace' := RecordOwner(before, trace', R.CloseReturns(false));
      }
      if owner.pc.CloseDone? {
        if owner.pc.closedOk {
          var _ := owner.Empty();
          trace' := RecordOwner(before, trace', R.Vacate);
        } else {
          owner.Block(R.BlockAfterClose);
          trace' := RecordOwner(before, trace', R.BlockAfterClose);
        }
      }
      RunKeepsInv(before, trace');
    }

    method AwaitLaunch(ghost before: State, ghost trace: seq<Event>) returns (ghost trace': seq<Event>)
      requires OnRun(before, trace) && Inv(View()) && (owner.pc.Idle? || owner.pc.Launching? || owner.pc.Launched?)
      modifies owner
      ensures OnRun(before, trace') && owner.pc == R.Idle
    {
      trace' := trace;
      if owner.pc.Launching? {
        var failed := R.LaunchResult(true, None, false);
        var _ := owner.ObserveLaunch(failed);
        trace' := RecordOwner(before, trace', R.LaunchReturns(failed));
      }
      if owner.pc.Launched? {
        owner.AdoptNext(owner.pc.next, owner.pc.failed, owner.pc.kind);
        trace' := RecordOwner(before, trace', R.Adopt);
      }
    }

    /** Reads what is wanted, under the coordinator's mutex. */
    method ReadWanted(ghost before: State, ghost trace: seq<Event>)
        returns (mode: string, retry: bool, nativeOnly: bool, launchReader: bool, ghost trace': seq<Event>)
      requires OnRun(before, trace) && loop == Entered
      modifies this`loop
      ensures OnRun(before, trace') && loop == Read(mode, retry, nativeOnly, launchReader)
    {
      mode, retry, nativeOnly, launchReader := fields.ReadIntents(owner.generation);
      loop := Read(mode, retry, nativeOnly, launchReader);
      trace' := Record(before, trace, ReconcileRead);
    }

    /** Whether an owner is left alone, and otherwise whether it is to be recovered. */
    method Judge(retiring: bool, mode: string, retry: bool, nativeOnly: bool, launchReader: bool) returns (leaves: bool, recover: bool)
      requires R.WellFormed(owner.View())
      ensures leaves == LeavesOwner(owner.View(), Read(mode, retry, nativeOnly, launchReader), retiring)
      ensures owner.leases > 0 ==> leaves
      ensures owner.leases <= 0 && owner.state == R.Ready ==> (leaves <==> Driver(owner.View()) == mode && (launchReader || !nativeOnly))
      ensures owner.leases <= 0 && (owner.state == R.Blocked || owner.state == R.Failed) ==>
                (leaves <==> !retry && !retiring && !nativeOnly)
      ensures owner.leases <= 0 && (owner.state == R.Replacing || owner.state == R.Stopped) ==> !leaves
      ensures recover <==> owner.state == R.Blocked || owner.state == R.Failed
    {
      recover := owner.state == R.Blocked || owner.state == R.Failed;
      var driver := if owner.current.Some? then owner.owners[owner.current.value].driver else "";
      leaves := (owner.state == R.Ready && driver == mode && !(nativeOnly && !launchReader)) || owner.leases > 0
                || (recover && !retry && !retiring && !nativeOnly);
    }

    /** Looks at the owner, and leaves it alone or decides how to replace it. */
    method LookAtOwner(retiring: bool, mode: string, retry: bool, nativeOnly: bool, launchReader: bool, ghost before: State, ghost trace: seq<Event>)
        returns (leaves: bool, recover: bool, ghost trace': seq<Event>)
      requires OnRun(before, trace) && Inv(View()) && loop == Read(mode, retry, nativeOnly, launchReader)
      modifies this`loop
      ensures OnRun(before, trace') && loop == if leaves then Asleep else Decided(mode, launchReader, recover)
      ensures owner.leases > 0 ==> leaves
      ensures owner.leases <= 0 && owner.state == R.Ready ==> (leaves <==> Driver(owner.View()) == mode && (launchReader || !nativeOnly))
      ensures owner.leases <= 0 && (owner.state == R.Blocked || owner.state == R.Failed) ==>
                (leaves <==> !retry && !retiring && !nativeOnly)
      ensures recover <==> owner.state == R.Blocked || owner.state == R.Failed
    {
      leaves, recover := Judge(retiring, mode, retry, nativeOnly, launchReader);
      loop := if leaves then Asleep else Decided(mode, launchReader, recover);
      trace' := Record(before, trace, ReconcileDecide(retiring));
    }

    /** Admission of the operation by the manager. */
    method StartOperation(recover: bool, mode: string, launchReader: bool, ghost before: State, ghost trace: seq<Event>)
        returns (refusal: Option<R.Refusal>, previous: Option<nat>, priorState: R.RunState, ghost trace': seq<Event>)
      requires OnRun(before, trace) && Inv(View()) && owner.pc == R.Idle && loop == Decided(mode, launchReader, recover)
      modifies this`loop, owner
      ensures OnRun(before, trace') && loop == Waiting(mode, launchReader)
      ensures refusal.None? <==> if recover then M.Recoverable(old(owner.View())) else M.Replaceable(old(owner.View()))
      ensures if refusal.None? then owner.pc == R.Preparing(KindOf(recover), previous, priorState) && (recover ==> previous.Some?)
              else owner.pc == R.Idle
    {
      if recover {
        refusal, previous, priorState := owner.AdmitRecover();
      } else {
        refusal, previous, priorState := owner.AdmitReplace();
      }
      loop := Waiting(mode, launchReader);
      trace' := Record(before, trace, ReconcileStart);
    }

    /** Readiness, commitment and close; afterwards the owner slot may be emptied, or the operation is over. */
    method CloseOwner(kind: R.Kind, previous: Option<nat>, priorState: R.RunState, a: M.Answers, ghost before: State, ghost trace: seq<Event>)
        returns (proceeds: bool, ghost trace': seq<Event>)
      requires OnRun(before, trace) && loop.Waiting? && owner.pc == R.Preparing(kind, previous, priorState)
      requires kind == R.Recovery ==> previous.Some?
      modifies this, fields, owner
      ensures OnRun(before, trace') && Inv(View()) && loop == old(loop)
      ensures if proceeds then R.Enabled(owner.View(), R.Vacate) && owner.pc.kind == kind else owner.pc == R.Idle
      ensures proceeds ==> a.ready && (previous.Some? ==> a.closed)
      ensures a.ready && (previous.Some? ==> a.closed) && !proceeds ==> owner.stopped
    {
      trace' := Meanwhile(true, before, trace);
      if !a.ready {
        owner.RestoreState(priorState);
        trace' := RecordOwner(before, trace', R.PreparationFails);
        RunKeepsInv(before, trace');
        return false, trace';
      }
      if previous.None? { return true, trace'; }
      var gone := owner.Commit(previous.value);
      trace' := RecordOwner(before, trace', R.MarkIntentional);
      RunKeepsInv(before, trace');
      if gone { return false, trace'; }
      proceeds, trace' := FinishClose(a.closed, before, trace');
    }

    method FinishClose(closed: bool, ghost before: State, ghost trace: seq<Event>) returns (proceeds: bool, ghost trace': seq<Event>)
      requires OnRun(before, trace) && loop.Waiting? && owner.pc.Closing?
      modifies this, fields, owner
      ensures OnRun(before, trace') && Inv(View()) && loop == old(loop) && proceeds == closed
      ensures if proceeds then R.Enabled(owner.View(), R.Vacate) && owner.pc.kind == old(owner.pc.kind) else owner.pc == R.Idle
    {
      trace' := Meanwhile(true, before, trace);
      owner.ObserveClose(closed);
      trace' := RecordOwner(before, trace', R.CloseReturns(closed));
      trace' := Meanwhile(true, before, trace');
      proceeds := closed;
      if !closed {
        owner.Block(R.BlockAfterClose);
        trace' := RecordOwner(before, trace', R.BlockAfterClose);
        RunKeepsInv(before, trace');
      }
    }

    method RecordFactory(mode: string, launchReader: bool, ghost before: State, ghost trace: seq<Event>) returns (ghost trace': seq<Event>)
      requires OnRun(before, trace) && Inv(View()) && loop == Waiting(mode, launchReader) && owner.pc.Launching?
      modifies this, fields, owner
      ensures OnRun(before, trace') && Inv(View()) && loop == old(loop) && owner.pc == old(owner.pc)
      ensures fields.nativeReaderGeneration == Recorded(mode, launchReader, old(owner.pc.launchGeneration))
    {
      fields.RecordLaunch(mode, launchReader, owner.pc.launchGeneration);
      trace' := Record(before, trace, FactoryRecords);
      trace' := Meanwhile(true, before, trace');
    }

    /** The factory launches, records what it launched, and the manager adopts the result. */
    method LaunchAndAdopt(kind: R.Kind, mode: string, launchReader: bool, launch: R.LaunchResult, ghost before: State, ghost trace: seq<Event>)
        returns (ghost trace': seq<Event>)
      requires OnRun(before, trace) && Inv(View()) && loop == Waiting(mode, launchReader) && owner.pc.Launching? && owner.pc.kind == kind
      modifies this, fields, owner
      ensures OnRun(before, trace') && loop == old(loop) && owner.pc == R.Idle
      ensures fields.nativeReaderGeneration == if launch.err then old(fields.nativeReaderGeneration)
                                               else Recorded(mode, launchReader, old(owner.pc.launchGeneration))
      ensures !launch.Failed() ==> owner.state == R.Ready && Driver(owner.View()) == launch.process.value
                                   && owner.generation == old(owner.pc.launchGeneration)
    {
      trace' := trace;
      if !launch.err { trace' := RecordFactory(mode, launchReader, before, trace'); }
      trace' := AdoptLaunch(kind, launch, before, trace');
    }

    /** What the launcher returned is known to the manager from here on, and adopted. */
    method AdoptLaunch(kind: R.Kind, launch: R.LaunchResult, ghost before: State, ghost trace: seq<Event>) returns (ghost trace': seq<Event>)
      requires OnRun(before, trace) && Inv(View()) && owner.pc.Launching? && owner.pc.kind == kind
      modifies this, fields, owner
      ensures OnRun(before, trace') && loop == old(loop) && owner.pc == R.Idle
      ensures fields.nativeReaderGeneration == old(fields.nativeReaderGeneration)
      ensures !launch.Failed() ==> owner.state == R.Ready && Driver(owner.View()) == launch.process.value
                                   && owner.generation == old(owner.generation)
    {
      var next := owner.ObserveLaunch(launch);
      trace' := RecordOwner(before, trace, R.LaunchReturns(launch));
      trace' := Meanwhile(true, before, trace');
      owner.AdoptNext(next, launch.Failed(), kind);
      trace' := RecordOwner(before, trace', R.Adopt);
    }

    /** The operation in full, from the admission on. */
    method Operate(kind: R.Kind, previous: Option<nat>, priorState: R.RunState, mode: string, launchReader: bool, a: M.Answers,
                   ghost before: State, ghost trace: seq<Event>) returns (ok: bool, ghost trace': seq<Event>)
      requires OnRun(before, trace) && loop == Waiting(mode, launchReader) && owner.pc == R.Preparing(kind, previous, priorState)
      requires kind == R.Recovery ==> previous.Some?
      modifies this, fields, owner
      ensures OnRun(before, trace') && loop == old(loop) && owner.pc == R.Idle
      ensures ok ==> a.ready && (previous.Some? ==> a.closed) && !a.launch.Failed() && owner.state == R.Ready
                     && Driver(owner.View()) == a.launch.process.value
                     && fields.nativeReaderGeneration == Recorded(mode, launchReader, owner.generation)
      ensures a.ready && (previous.Some? ==> a.closed) && !a.launch.Failed() && !M.Cancels(a, kind) && !owner.stopped ==> ok
    {
      var proceeds;
      proceeds, trace' := CloseOwner(kind, previous, priorState, a, before, trace);
      if !proceeds { return false, trace'; }
      var _ := owner.Empty();
      trace' := RecordOwner(before, trace', R.Vacate);
      trace' := Meanwhile(true, before, trace');
      if M.Cancels(a, kind) {
        owner.Block(R.CancelBeforeLaunch);
        trace' := RecordOwner(before, trace', R.CancelBeforeLaunch);
        return false, trace';
      }
      trace' := LaunchAndAdopt(kind, mode, launchReader, a.launch, before, trace');
      ok := !a.launch.Failed();
    }

    /** What each ending of a pass means for the fields and needs of the answers. */
    ghost predicate Ended(outcome: Outcome, a: PassAnswers)
      reads fields
    {
      match outcome
      case Retained => true
      case LeftAlone => true
      case Vetoed => a.veto.Some? && fields.failure == a.veto.value.0 && (a.veto.value.1 ==> !fields.retry)
      case Acted(result) =>
        && !fields.retry && fields.failure == (if result == Tried(true) then "" else a.message)
        && (result.Cancelled? <==> a.owner.cancelledAtEntry)
        && (result == Tried(true) ==> a.owner.ready && !a.owner.launch.Failed())
    }

    /** Replaces or recovers the owner and records how it went. */
    method ReplaceOwner(recover: bool, mode: string, launchReader: bool, a: PassAnswers, ghost before: State, ghost trace: seq<Event>)
        returns (result: Result, ghost trace': seq<Event>)
      requires OnRun(before, trace) && loop == Decided(mode, launchReader, recover)
      modifies this, fields, owner
      ensures OnRun(before, trace') && loop == Asleep && Ended(Acted(result), a)
    {
      trace' := AwaitOperation(before, trace);
      if a.owner.cancelledAtEntry {
        result := Cancelled;
      } else {
        result, trace' := AskManager(recover, mode, launchReader, a.owner, before, trace');
      }
      trace' := EndPass(if result == Tried(true) then "" else a.message, before, trace');
    }

    /** Admission and operation; a refusal is the manager's, and a good operation succeeds unless the runtime is stopped. */
    method AskManager(recover: bool, mode: string, launchReader: bool, a: M.Answers, ghost before: State, ghost trace: seq<Event>)
        returns (result: Result, ghost trace': seq<Event>)
      requires OnRun(before, trace) && Inv(View()) && owner.pc == R.Idle && loop == Decided(mode, launchReader, recover)
      modifies this, fields, owner
      ensures OnRun(before, trace') && loop.Waiting? && owner.pc == R.Idle && !result.Cancelled?
      ensures result.Tried? <==> if recover then M.Recoverable(old(owner.View())) else M.Replaceable(old(owner.View()))
      ensures result == Tried(true) ==> a.ready && !a.launch.Failed() && owner.state == R.Ready && Driver(owner.View()) == a.launch.process.value
      ensures result == Tried(false) && a.ready && a.closed && !a.launch.Failed() && !a.cancelledBeforeLaunch ==> owner.stopped
    {
      var refusal, previous, priorState;
      refusal, previous, priorState, trace' := StartOperation(recover, mode, launchReader, before, trace);
      if refusal.Some? { return Declined(refusal.value), trace'; }
      var ok;
      ok, trace' := Operate(KindOf(recover), previous, priorState, mode, launchReader, a, before, trace');
      result := Tried(ok);
    }

    method EndPass(message: string, ghost before: State, ghost trace: seq<Event>) returns (ghost trace': seq<Event>)
      requires OnRun(before, trace) && (loop.Waiting? || loop.Decided?)
      modifies this, fields, owner
      ensures OnRun(before, trace') && loop == Asleep && !fields.retry && fields.failure == message
    {
      trace' := Meanwhile(false, before, trace);
      fields.FinishPass(message);
      loop := Asleep;
      trace' := Record(before, trace', ReconcileReturn(message));
    }

    /**
     One reconcile pass. Every execution, whatever interleaves with it, is a run of the protocol,
     so all that holds of runs holds of it.
     */
    method ReconcilePass(a: PassAnswers) returns (outcome: Outcome, ghost trace: seq<Event>)
      requires Inv(View()) && loop == Asleep
      modifies this, fields, owner
      ensures Runs(old(View()), trace) && View() == After(old(View()), trace) && Inv(View()) && loop == Asleep
      ensures outcome.Retained? <==> old(owner.persistent)
      ensures outcome.Retained? ==> trace == []
      ensures Ended(outcome, a)
    {
      ghost var before := View();
      trace := [];
      if owner.persistent { return Retained, trace; }
      loop := Entered;
      trace := Record(before, trace, ReconcileEnter);
      trace := Meanwhile(false, before, trace);
      var mode, retry, nativeOnly, launchReader, leaves, recover;
      mode, retry, nativeOnly, launchReader, trace := ReadWanted(before, trace);
      trace := Meanwhile(false, before, trace);
      leaves, recover, trace := LookAtOwner(a.retiring, mode, retry, nativeOnly, launchReader, before, trace);
      outcome := LeftAlone;
      if !leaves { outcome, trace := Act(mode, launchReader, recover, a, before, trace); }
      RunKeepsInv(before, trace);
    }

    /** A headless mode may be vetoed by its assets or its transport; otherwise the owner is replaced. */
    method Act(mode: string, launchReader: bool, recover: bool, a: PassAnswers, ghost before: State, ghost trace: seq<Event>)
        returns (outcome: Outcome, ghost trace': seq<Event>)
      requires OnRun(before, trace) && loop == Decided(mode, launchReader, recover)
      modifies this, fields, owner
      ensures OnRun(before, trace') && loop == Asleep && Ended(outcome, a) && !outcome.Retained?
      ensures outcome.Vetoed? <==> mode == "headless" && a.veto.Some?
    {
      trace' := Meanwhile(false, before, trace);
      if mode == "headless" && a.veto.Some? {
        fields.Veto(a.veto.value.0, a.veto.value.1);
        loop := Asleep;
        trace' := Record(before, trace', ReconcileVeto(a.veto.value.0, a.veto.value.1));
        outcome := Vetoed;
      } else {
        var result;
        result, trace' := ReplaceOwner(recover, mode, launchReader, a, before, trace');
        outcome := Acted(result);
      }
    }
  }
}
