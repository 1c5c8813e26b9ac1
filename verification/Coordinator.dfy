/**
 The collection coordinator on top of the capture runtime: borrow intents, the polling borrow
 calls and the reconcile loop, interleaved with every step of the manager.

 A step is one critical section of the coordinator's mutex, one call into the manager, or one
 answer of the environment. This is the ordinary route, without a concurrent session.
 */
module Coordinator {
  import opened Common
  import R = CaptureRuntime

  datatype Role = Interactive | NativeReader | Collection | CollectionIntent

  datatype Phase =
    | Raised                       // a native reader before its browser intent
    | Announced                    // a collection intent that never takes a lease itself
    | Polling
    | SawReady
    | StatusRead(readerGeneration: nat)
    | Cleared
    | Leased(lease: nat)
    | Holding(lease: nat)
    | Withdrawing(failed: bool)
    | Lowering(failed: bool)       // a native reader after its browser intent
    | Settled(failed: bool)

  datatype Borrow = Borrow(role: Role, phase: Phase)

  datatype Fields = Fields(
    requested: string,
    interactive: int,
    nativeReaders: int,
    browserCollection: int,
    collectionFailures: map<string, string>,
    nativeReaderGeneration: nat,
    failure: string,
    retry: bool)

  datatype Reconcile =
    | Asleep
    | Entered
    | Read(mode: string, retry: bool, nativeOnly: bool, launchReader: bool)
    | Decided(mode: string, launchReader: bool, recover: bool)
    | Waiting(mode: string, launchReader: bool)

  datatype State = State(m: R.Model, f: Fields, borrows: seq<Borrow>, loop: Reconcile)

  datatype Event =
    | Owner(step: R.Event)
    | Request(mode: string)
    | Retry
    | SetCollectionFailure(leaseId: string, message: string)
    | RaiseNative
    | BeginBorrow(role: Role)
    | BeginNativeIntent(i: nat)
    | HookFails(i: nat)
    | SeeReady(i: nat)
    | ReadStatus(i: nat)
    | CheckStatus(i: nat)
    | TryAcquire(i: nat, holdAcknowledged: bool)
    | CheckDriver(i: nat, holdAcknowledged: bool)
    | GiveUp(i: nat)
    | Finish(i: nat)
    | Withdraw(i: nat)
    | Lower(i: nat)
    | ReconcileEnter
    | ReconcileRead
    | ReconcileDecide(retiring: bool)
    | ReconcileVeto(message: string, clearRetry: bool)
    | ReconcileStart
    | FactoryRecords
    | ReconcileReturn(message: string)

  function Init(driver: string): State {
    State(R.Init(driver), Fields("browser", 0, 0, 0, map[], 0, "", false), [], Asleep)
  }

  // ---- critical sections of the coordinator --------------------------------------------------

  function Driver(m: R.Model): string {
    if m.current.Some? && m.current.value < |m.owners| then m.owners[m.current.value].driver else ""
  }

  function Requested(f: Fields, mode: string, persistent: bool): Fields {
    if persistent && mode != "browser" then f.(failure := "headless replacement is unavailable")
    else f.(requested := mode, retry := true, failure := "")
  }

  function NativeRaised(f: Fields): Fields { f.(nativeReaders := f.nativeReaders + 1) }

  function NativeLowered(f: Fields): Fields { f.(nativeReaders := f.nativeReaders - 1, retry := true) }

  function IntentBegun(f: Fields, collection: bool): Fields {
    var f1 := f.(retry := true, failure := "");
    if collection then f1.(browserCollection := f.browserCollection + 1)
    else f1.(interactive := f.interactive + 1)
  }

  function IntentReleased(f: Fields, collection: bool): Fields {
    if collection then
      f.(browserCollection := f.browserCollection - 1,
         collectionFailures := if f.browserCollection - 1 == 0 then map[] else f.collectionFailures)
    else f.(interactive := f.interactive - 1)
  }

  function FailureRecorded(f: Fields, leaseId: string, message: string): Fields {
    if message == "" then f.(collectionFailures := f.collectionFailures - {leaseId})
    else if f.browserCollection == 0 then f
    else f.(collectionFailures := f.collectionFailures[leaseId := message])
  }

  /** The mode that one reconcile pass works towards. */
  function TargetMode(f: Fields): string {
    if f.interactive > 0 || f.browserCollection > 0 then "browser" else f.requested
  }

  predicate NativeOnly(f: Fields, generation: nat) {
    f.nativeReaderGeneration != 0 && f.nativeReaderGeneration == generation
  }

  /** Whether a browser launched by this pass is to be a bare native reader. */
  predicate LaunchReader(f: Fields) {
    f.requested == "headless" && f.nativeReaders > 0 && f.interactive == f.nativeReaders && f.browserCollection == 0
  }

  function LaunchRecorded(f: Fields, mode: string, launchReader: bool, generation: nat): Fields {
    f.(nativeReaderGeneration := if mode == "browser" && launchReader then generation else 0)
  }

  /** Whether the pass returns without touching the owner. */
  predicate LeavesOwner(m: R.Model, loop: Reconcile, retiring: bool)
    requires loop.Read?
  {
    || (m.state == R.Ready && Driver(m) == loop.mode && !(loop.nativeOnly && !loop.launchReader))
    || m.leases > 0
    || ((m.state == R.Blocked || m.state == R.Failed) && !loop.retry && !retiring && !loop.nativeOnly)
  }

  // ---- steps -------------------------------------------------------------------------------

  predicate At(c: State, i: nat, phase: Phase) { i < |c.borrows| && c.borrows[i].phase == phase }

  predicate Enabled(c: State, e: Event) {
    match e
    case Owner(step) => R.Enabled(c.m, step)
    case Request(_) => true
    case Retry => true
    case SetCollectionFailure(_, _) => true
    case RaiseNative => true
    case BeginBorrow(role) => !role.NativeReader?
    case BeginNativeIntent(i) => At(c, i, Raised)
    case HookFails(i) => At(c, i, Polling) && c.borrows[i].role.NativeReader?
    case SeeReady(i) => At(c, i, Polling) && c.m.state == R.Ready && Driver(c.m) == "browser"
    case ReadStatus(i) => At(c, i, SawReady)
    case CheckStatus(i) => i < |c.borrows| && c.borrows[i].phase.StatusRead?
    case TryAcquire(i, ack) => At(c, i, Cleared) && R.Enabled(c.m, R.AcquireLease(ack))
    case CheckDriver(i, ack) =>
      && i < |c.borrows| && c.borrows[i].phase.Leased?
      && R.Enabled(c.m, R.ReleaseLease(c.borrows[i].phase.lease, ack))
    case GiveUp(i) => At(c, i, Polling)
    case Finish(i) => i < |c.borrows| && (c.borrows[i].phase.Holding? || c.borrows[i].phase.Announced?)
    case Withdraw(i) => i < |c.borrows| && c.borrows[i].phase.Withdrawing?
    case Lower(i) => i < |c.borrows| && c.borrows[i].phase.Lowering?
    case ReconcileEnter => c.loop.Asleep? && !c.m.persistent
    case ReconcileRead => c.loop.Entered?
    case ReconcileDecide(_) => c.loop.Read?
    case ReconcileVeto(_, _) => c.loop.Decided? && c.loop.mode == "headless"
    case ReconcileStart => c.loop.Decided? && R.Enabled(c.m, if c.loop.recover then R.BeginRecover else R.BeginReplace)
    case FactoryRecords => c.loop.Waiting? && c.m.pc.Launching?
    case ReconcileReturn(_) => c.loop.Waiting? || c.loop.Decided?   // cancelled before the manager was asked
  }

  function Move(c: State, i: nat, phase: Phase): State
    requires i < |c.borrows|
  {
    c.(borrows := c.borrows[i := c.borrows[i].(phase := phase)])
  }

  /** A bare native reader is running, which serves nobody else. */
  predicate StatusRefuses(b: Borrow, generation: nat)
    requires b.phase.StatusRead?
  {
    b.phase.readerGeneration != 0 && b.phase.readerGeneration == generation && !b.role.NativeReader?
  }

  predicate CollectionRole(role: Role) { role.Collection? || role.CollectionIntent? }

  function FirstPhase(role: Role): Phase { if role.CollectionIntent? then Announced else Polling }

  function Acquiring(c: State, i: nat, ack: bool): State
    requires Enabled(c, TryAcquire(i, ack))
  {
    var m' := R.Apply(c.m, R.AcquireLease(ack));
    var phase := if |m'.issued| > |c.m.issued| then Leased(|c.m.issued|) else Withdrawing(true);
    Move(c, i, phase).(m := m')
  }

  function DriverChecked(c: State, i: nat, ack: bool): State
    requires Enabled(c, CheckDriver(i, ack))
  {
    var k := c.borrows[i].phase.lease;
    if c.m.issued[k].driver == "browser" then Move(c, i, Holding(k))
    else Move(c, i, Polling).(m := R.Apply(c.m, R.ReleaseLease(k, ack)))
  }

  function Withdrawn(c: State, i: nat): State
    requires Enabled(c, Withdraw(i))
  {
    var b := c.borrows[i];
    var f' := IntentReleased(c.f, CollectionRole(b.role));
    Move(c, i, if b.role.NativeReader? then Lowering(b.phase.failed) else Settled(b.phase.failed)).(f := f')
  }

  function Apply(c: State, e: Event): State
    requires Enabled(c, e)
  {
    match e
    case Owner(step) => c.(m := R.Apply(c.m, step))
    case Request(mode) => c.(f := Requested(c.f, mode, c.m.persistent))
    case Retry => c.(f := c.f.(retry := true, failure := ""))
    case SetCollectionFailure(id, message) => c.(f := FailureRecorded(c.f, id, message))
    case RaiseNative => c.(f := NativeRaised(c.f), borrows := c.borrows + [Borrow(NativeReader, Raised)])
    case BeginBorrow(role) =>
      c.(f := IntentBegun(c.f, CollectionRole(role)), borrows := c.borrows + [Borrow(role, FirstPhase(role))])
    case BeginNativeIntent(i) => Move(c, i, Polling).(f := IntentBegun(c.f, false))
    case HookFails(i) => Move(c, i, Withdrawing(true))
    case SeeReady(i) => Move(c, i, SawReady)
    case ReadStatus(i) => Move(c, i, StatusRead(c.f.nativeReaderGeneration))
    case CheckStatus(i) =>
      if StatusRefuses(c.borrows[i], c.m.generation) then Move(c, i, Withdrawing(true)) else Move(c, i, Cleared)
    case TryAcquire(i, ack) => Acquiring(c, i, ack)
    case CheckDriver(i, ack) => DriverChecked(c, i, ack)
    case GiveUp(i) => Move(c, i, Withdrawing(true))
    case Finish(i) => Move(c, i, Withdrawing(false))
    case Withdraw(i) => Withdrawn(c, i)
    case Lower(i) => Move(c, i, Settled(c.borrows[i].phase.failed)).(f := NativeLowered(c.f))
    case ReconcileEnter => c.(loop := Entered)
    case ReconcileRead =>
      c.(loop := Read(TargetMode(c.f), c.f.retry, NativeOnly(c.f, c.m.generation), LaunchReader(c.f)))
    case ReconcileDecide(retiring) =>
      if LeavesOwner(c.m, c.loop, retiring) then c.(loop := Asleep)
      else c.(loop := Decided(c.loop.mode, c.loop.launchReader, c.m.state == R.Blocked || c.m.state == R.Failed))
    case ReconcileVeto(message, clearRetry) =>
      c.(f := c.f.(failure := message, retry := !clearRetry && c.f.retry), loop := Asleep)
    case ReconcileStart =>
      c.(m := R.Apply(c.m, if c.loop.recover then R.BeginRecover else R.BeginReplace),
         loop := Waiting(c.loop.mode, c.loop.launchReader))
    case FactoryRecords =>
      c.(f := LaunchRecorded(c.f, c.loop.mode, c.loop.launchReader, c.m.pc.launchGeneration))
    case ReconcileReturn(message) => c.(f := c.f.(failure := message, retry := false), loop := Asleep)
  }

  predicate Runs(c: State, events: seq<Event>)
    decreases |events|
  {
    events == [] || (Enabled(c, events[0]) && Runs(Apply(c, events[0]), events[1..]))
  }

  function After(c: State, events: seq<Event>): State
    requires Runs(c, events)
    decreases |events|
  {
    if events == [] then c else After(Apply(c, events[0]), events[1..])
  }

  lemma {:induction false} RunsExtend(c: State, events: seq<Event>, e: Event)
    requires Runs(c, events) && Enabled(After(c, events), e)
    ensures Runs(c, events + [e]) && After(c, events + [e]) == Apply(After(c, events), e)
    decreases |events|
  {
    if events == [] {
      assert ([e])[1..] == [];
    } else {
      RunsExtend(Apply(c, events[0]), events[1..], e);
      assert (events + [e])[1..] == events[1..] + [e];
    }
  }

  // ---- the invariant -----------------------------------------------------------------------

  /** The borrow's intent has been announced and not yet given back. */
  predicate HasIntent(b: Borrow) { !b.phase.Raised? && !b.phase.Lowering? && !b.phase.Settled? }

  predicate InteractiveIntent(b: Borrow) { HasIntent(b) && !CollectionRole(b.role) }

  predicate CollectingIntent(b: Borrow) { HasIntent(b) && CollectionRole(b.role) }

  predicate NativeCounted(b: Borrow) { b.role.NativeReader? && !b.phase.Settled? }

  predicate BorrowInv(m: R.Model, b: Borrow) {
    && (b.phase.Raised? || b.phase.Lowering? ==> b.role.NativeReader?)
    && (b.phase.Leased? ==> b.phase.lease < |m.issued|)
    && (b.phase.Holding? ==> b.phase.lease < |m.issued| && m.issued[b.phase.lease].driver == "browser")
  }

  predicate CountersMatch(f: Fields, borrows: seq<Borrow>) {
    && f.interactive == Count(borrows, InteractiveIntent)
    && f.browserCollection == Count(borrows, CollectingIntent)
    && f.nativeReaders == Count(borrows, NativeCounted)
  }

  predicate Inv(c: State) {
    && R.Inv(c.m)
    && CountersMatch(c.f, c.borrows)
    && (forall i :: 0 <= i < |c.borrows| ==> BorrowInv(c.m, c.borrows[i]))
    && (c.f.browserCollection == 0 ==> c.f.collectionFailures == map[])
  }

  lemma CountsAfterMove(borrows: seq<Borrow>, i: nat, b: Borrow)
    requires i < |borrows|
    ensures var s := borrows[i := b];
            && Count(s, InteractiveIntent) + (if InteractiveIntent(borrows[i]) then 1 else 0)
               == Count(borrows, InteractiveIntent) + (if InteractiveIntent(b) then 1 else 0)
            && Count(s, CollectingIntent) + (if CollectingIntent(borrows[i]) then 1 else 0)
               == Count(borrows, CollectingIntent) + (if CollectingIntent(b) then 1 else 0)
            && Count(s, NativeCounted) + (if NativeCounted(borrows[i]) then 1 else 0)
               == Count(borrows, NativeCounted) + (if NativeCounted(b) then 1 else 0)
  {
    CountUpdate(borrows, i, b, InteractiveIntent);
    CountUpdate(borrows, i, b, CollectingIntent);
    CountUpdate(borrows, i, b, NativeCounted);
  }

  lemma CountsAfterBegin(borrows: seq<Borrow>, b: Borrow)
    ensures var s := borrows + [b];
            && Count(s, InteractiveIntent) == Count(borrows, InteractiveIntent) + (if InteractiveIntent(b) then 1 else 0)
            && Count(s, CollectingIntent) == Count(borrows, CollectingIntent) + (if CollectingIntent(b) then 1 else 0)
            && Count(s, NativeCounted) == Count(borrows, NativeCounted) + (if NativeCounted(b) then 1 else 0)
  {
    CountAppend(borrows, b, InteractiveIntent);
    CountAppend(borrows, b, CollectingIntent);
    CountAppend(borrows, b, NativeCounted);
  }

  /** The manager step that a coordinator step performs, if it performs one. */
  function ManagerStep(c: State, e: Event): Option<R.Event>
    requires Enabled(c, e)
  {
    match e
    case Owner(step) => Some(step)
    case TryAcquire(_, ack) => Some(R.AcquireLease(ack))
    case CheckDriver(i, ack) =>
      var k := c.borrows[i].phase.lease;
      if c.m.issued[k].driver == "browser" then None else Some(R.ReleaseLease(k, ack))
    case ReconcileStart => Some(if c.loop.recover then R.BeginRecover else R.BeginReplace)
    case _ => None
  }

  lemma StepProjects(c: State, e: Event)
    requires Enabled(c, e)
    ensures match ManagerStep(c, e)
            case None => Apply(c, e).m == c.m
            case Some(step) => R.Enabled(c.m, step) && Apply(c, e).m == R.Apply(c.m, step)
  {
  }

  lemma ManagerStepKeepsBorrows(m: R.Model, step: R.Event, b: Borrow)
    requires R.Inv(m) && R.Enabled(m, step) && BorrowInv(m, b)
    ensures R.Inv(R.Apply(m, step)) && BorrowInv(R.Apply(m, step), b)
  {
    R.StepKeepsInv(m, step);
    if b.phase.Leased? || b.phase.Holding? { R.StepKeepsLeaseHistory(m, step, b.phase.lease); }
  }

  lemma AllBorrowsKept(c: State, e: Event)
    requires Inv(c) && Enabled(c, e)
    ensures R.Inv(Apply(c, e).m)
    ensures forall i :: 0 <= i < |c.borrows| ==> BorrowInv(Apply(c, e).m, c.borrows[i])
  {
    StepProjects(c, e);
    var step := ManagerStep(c, e);
    if step.Some? {
      R.StepKeepsInv(c.m, step.value);
      forall i | 0 <= i < |c.borrows| ensures BorrowInv(Apply(c, e).m, c.borrows[i]) {
        ManagerStepKeepsBorrows(c.m, step.value, c.borrows[i]);
      }
    }
  }

  /** The events that move exactly one borrow. */
  function Moved(e: Event): Option<nat> {
    match e
    case BeginNativeIntent(i) => Some(i)
    case HookFails(i) => Some(i)
    case SeeReady(i) => Some(i)
    case ReadStatus(i) => Some(i)
    case CheckStatus(i) => Some(i)
    case TryAcquire(i, _) => Some(i)
    case CheckDriver(i, _) => Some(i)
    case GiveUp(i) => Some(i)
    case Finish(i) => Some(i)
    case Withdraw(i) => Some(i)
    case Lower(i) => Some(i)
    case _ => None
  }

  lemma MoveKeepsCounters(c: State, e: Event)
    requires Inv(c) && Enabled(c, e) && Moved(e).Some?
    ensures CountersMatch(Apply(c, e).f, Apply(c, e).borrows)
  {
    var i := Moved(e).value;
    var b, b' := c.borrows[i], Apply(c, e).borrows[i];
    assert BorrowInv(c.m, b);
    CountsAfterMove(c.borrows, i, b');
    MoveChangesFields(c, e);
  }

  function One(intent: bool): nat { if intent then 1 else 0 }

  /** A moved borrow changes the counters by what it announces and gives back. */
  lemma MoveChangesFields(c: State, e: Event)
    requires Inv(c) && Enabled(c, e) && Moved(e).Some?
    ensures var b, b', f, f' := c.borrows[Moved(e).value], Apply(c, e).borrows[Moved(e).value], c.f, Apply(c, e).f;
      && Apply(c, e).borrows == c.borrows[Moved(e).value := b']
      && f'.interactive + One(InteractiveIntent(b)) == f.interactive + One(InteractiveIntent(b'))
      && f'.browserCollection + One(CollectingIntent(b)) == f.browserCollection + One(CollectingIntent(b'))
      && f'.nativeReaders + One(NativeCounted(b)) == f.nativeReaders + One(NativeCounted(b'))
  {
    assert BorrowInv(c.m, c.borrows[Moved(e).value]);
  }

  lemma MoveKeepsFailures(c: State, e: Event)
    requires Inv(c) && Enabled(c, e) && Moved(e).Some?
    ensures Apply(c, e).f.browserCollection == 0 ==> Apply(c, e).f.collectionFailures == map[]
  {
  }

  lemma MoveKeepsBorrow(c: State, e: Event)
    requires Inv(c) && Enabled(c, e) && Moved(e).Some?
    ensures BorrowInv(Apply(c, e).m, Apply(c, e).borrows[Moved(e).value])
    ensures forall j :: 0 <= j < |c.borrows| && j != Moved(e).value ==> Apply(c, e).borrows[j] == c.borrows[j]
    ensures |Apply(c, e).borrows| == |c.borrows|
  {
    assert BorrowInv(c.m, c.borrows[Moved(e).value]);
  }

  lemma OtherKeepsCounters(c: State, e: Event)
    requires Inv(c) && Enabled(c, e) && Moved(e).None?
    ensures CountersMatch(Apply(c, e).f, Apply(c, e).borrows)
    ensures Apply(c, e).f.browserCollection == 0 ==> Apply(c, e).f.collectionFailures == map[]
    ensures forall j :: |c.borrows| <= j < |Apply(c, e).borrows| ==> BorrowInv(Apply(c, e).m, Apply(c, e).borrows[j])
    ensures |Apply(c, e).borrows| >= |c.borrows| && Apply(c, e).borrows[..|c.borrows|] == c.borrows
  {
    if e.RaiseNative? {
      CountsAfterBegin(c.borrows, Borrow(NativeReader, Raised));
    } else if e.BeginBorrow? {
      CountsAfterBegin(c.borrows, Borrow(e.role, FirstPhase(e.role)));
    } else {
      assert Apply(c, e).borrows == c.borrows;
    }
  }

  lemma StepKeepsInv(c: State, e: Event)
    requires Inv(c) && Enabled(c, e)
    ensures Inv(Apply(c, e))
  {
    var c' := Apply(c, e);
    AllBorrowsKept(c, e);
    if Moved(e).Some? {
      MoveKeepsCounters(c, e);
      MoveKeepsFailures(c, e);
      MoveKeepsBorrow(c, e);
    } else {
      OtherKeepsCounters(c, e);
      assert forall j :: 0 <= j < |c.borrows| ==> c'.borrows[j] == c'.borrows[..|c.borrows|][j];
    }
  }

  lemma {:induction false} RunKeepsInv(c: State, events: seq<Event>)
    requires Inv(c) && Runs(c, events)
    ensures Inv(After(c, events))
    decreases |events|
  {
    if events == [] {
    } else {
      StepKeepsInv(c, events[0]);
      RunKeepsInv(Apply(c, events[0]), events[1..]);
    }
  }

  lemma InitInv(driver: string)
    ensures Inv(Init(driver))
  {
    R.InitInv(driver);
  }

  // ---- every run -----------------------------------------------------------------------------

  /** A run of the coordinator projects onto a run of the manager. */
  lemma {:induction false} RunProjects(c: State, events: seq<Event>) returns (steps: seq<R.Event>)
    requires Runs(c, events)
    ensures R.Runs(c.m, steps) && R.After(c.m, steps) == After(c, events).m
    decreases |events|
  {
    if events == [] {
      steps := [];
    } else {
      StepProjects(c, events[0]);
      var rest := RunProjects(Apply(c, events[0]), events[1..]);
      match ManagerStep(c, events[0])
      case None => steps := rest;
      case Some(step) =>
        steps := [step] + rest;
        assert steps[1..] == rest;
    }
  }

  /** The three counters are exactly the outstanding handles. */
  lemma CountersAreOutstandingHandles(driver: string, events: seq<Event>)
    requires Runs(Init(driver), events)
    ensures var c := After(Init(driver), events);
            && c.f.interactive == Count(c.borrows, InteractiveIntent)
            && c.f.browserCollection == Count(c.borrows, CollectingIntent)
            && c.f.nativeReaders == Count(c.borrows, NativeCounted)
            && (c.f.browserCollection == 0 ==> c.f.collectionFailures == map[])
  {
    InitInv(driver);
    RunKeepsInv(Init(driver), events);
  }

  /** Once every borrow has settled, failed or not, no intent is left behind. */
  lemma SettledBorrowsGiveEverythingBack(driver: string, events: seq<Event>)
    requires Runs(Init(driver), events)
    requires forall b <- After(Init(driver), events).borrows :: b.phase.Settled?
    ensures var f := After(Init(driver), events).f;
            f.interactive == 0 && f.nativeReaders == 0 && f.browserCollection == 0 && f.collectionFailures == map[]
  {
    InitInv(driver);
    RunKeepsInv(Init(driver), events);
    var bs := After(Init(driver), events).borrows;
    CountZero(bs, InteractiveIntent);
    CountZero(bs, CollectingIntent);
    CountZero(bs, NativeCounted);
  }

  /**
   A borrow that returned a lease holds a browser owner, and whatever runs afterwards, reconcile
   passes included, that owner and its generation stay until the lease is released.
   */
  lemma BorrowedBrowserStaysPut(driver: string, events: seq<Event>, i: nat, more: seq<Event>)
    requires Runs(Init(driver), events)
    requires var c := After(Init(driver), events);
             i < |c.borrows| && c.borrows[i].phase.Holding? && Runs(c, more)
    ensures var c := After(Init(driver), events);
            var c' := After(c, more);
            var k := c.borrows[i].phase.lease;
            && k < |c.m.issued| && c.m.issued[k].driver == "browser"
            && k < |c'.m.issued|
            && (!c'.m.issued[k].released ==>
                  && Driver(c'.m) == "browser"
                  && c'.m.current == c.m.current
                  && c'.m.generation == c.m.generation == c.m.issued[k].generation)
  {
    InitInv(driver);
    RunKeepsInv(Init(driver), events);
    var c := After(Init(driver), events);
    var c' := After(c, more);
    RunKeepsInv(c, more);
    assert BorrowInv(c.m, c.borrows[i]);
    var k := c.borrows[i].phase.lease;
    var steps := RunProjects(c, more);
    LeaseHistoryOverRun(c.m, steps, k);
    if !c'.m.issued[k].released { R.HeldLeaseFreezesOwner(c.m, steps, k); }
  }

  lemma {:induction false} LeaseHistoryOverRun(m: R.Model, steps: seq<R.Event>, k: nat)
    requires R.Inv(m) && R.Runs(m, steps) && k < |m.issued|
    ensures k < |R.After(m, steps).issued|
    ensures R.After(m, steps).issued[k].(released := m.issued[k].released) == m.issued[k]
    decreases |steps|
  {
    if steps == [] {
    } else {
      R.StepKeepsInv(m, steps[0]);
      R.StepKeepsLeaseHistory(m, steps[0], k);
      LeaseHistoryOverRun(R.Apply(m, steps[0]), steps[1..], k);
    }
  }

  // ---- what a reconcile pass may decide -------------------------------------------------------

  /** A pass aims away from the browser only at an instant when nobody has an intent on it. */
  lemma LeavingBrowserMeansNoIntent(driver: string, events: seq<Event>)
    requires Runs(Init(driver), events)
    requires TargetMode(After(Init(driver), events).f) != "browser"
    ensures forall b <- After(Init(driver), events).borrows :: !HasIntent(b)
  {
    InitInv(driver);
    RunKeepsInv(Init(driver), events);
    var c := After(Init(driver), events);
    CountZero(c.borrows, InteractiveIntent);
    CountZero(c.borrows, CollectingIntent);
    forall b | b in c.borrows ensures !HasIntent(b) {
      assert !InteractiveIntent(b) && !CollectingIntent(b);
    }
  }

  predicate PlainIntent(b: Borrow) { InteractiveIntent(b) && !b.role.NativeReader? }

  predicate NativeIntent(b: Borrow) { InteractiveIntent(b) && b.role.NativeReader? }

  /** A native reader between its two counter updates, on the way in or on the way out. */
  predicate InGap(b: Borrow) { b.role.NativeReader? && (b.phase.Raised? || b.phase.Lowering?) }

  /**
   A pass that decides to launch a bare native reader is right, every outstanding intent being a
   native reader's, if and only if no native reader is between its two counter updates.
   */
  lemma ReaderLaunchIsRightIffNoGap(driver: string, events: seq<Event>)
    requires Runs(Init(driver), events) && LaunchReader(After(Init(driver), events).f)
    ensures var bs := After(Init(driver), events).borrows;
            (forall b <- bs :: HasIntent(b) ==> b.role.NativeReader?) <==> (forall b <- bs :: !InGap(b))
  {
    InitInv(driver);
    RunKeepsInv(Init(driver), events);
    var bs := After(Init(driver), events).borrows;
    CountSum(bs, InteractiveIntent, NativeIntent, PlainIntent);
    CountSum(bs, NativeCounted, NativeIntent, InGap);
    CountZero(bs, PlainIntent);
    CountZero(bs, InGap);
    CountZero(bs, CollectingIntent);
    assert Count(bs, PlainIntent) == Count(bs, InGap);
    assert (forall b <- bs :: !InGap(b)) <==> Count(bs, InGap) == 0;
    assert (forall b <- bs :: !PlainIntent(b)) <==> Count(bs, PlainIntent) == 0;
    assert forall b <- bs :: !CollectingIntent(b);
    assert forall b <- bs :: HasIntent(b) ==> (PlainIntent(b) <==> !b.role.NativeReader?);
  }

  /** The wrong decision is reachable: a reader just counted, next to an ordinary borrow. */
  lemma ReaderLaunchCanBeWrong()
    ensures var events := [Request("headless"), RaiseNative, BeginBorrow(Interactive)];
            && Runs(Init("browser"), events)
            && LaunchReader(After(Init("browser"), events).f)
            && exists b <- After(Init("browser"), events).borrows :: HasIntent(b) && !b.role.NativeReader?
  {
    var events := [Request("headless"), RaiseNative, BeginBorrow(Interactive)];
    var c0 := Init("browser");
    var c1 := Apply(c0, events[0]);
    var c2 := Apply(c1, events[1]);
    var c3 := Apply(c2, events[2]);
    assert events[1..][1..] == [BeginBorrow(Interactive)];
    assert events[1..][1..][1..] == [];
    assert Runs(c3, []) && Runs(c2, events[1..][1..]) && Runs(c1, events[1..]);
    assert After(c0, events) == c3;
    assert c3.borrows[1] == Borrow(Interactive, Polling) && c3.borrows[1] in c3.borrows;
  }
}
