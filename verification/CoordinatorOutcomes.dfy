/**
 What the coordinator's passes and borrows come to: which owner a pass leaves, where an undisturbed
 pass and an undisturbed borrow end, and what asks for a retry.
 */
module CoordinatorOutcomes {
  import opened Common
  import opened Coordinator
  import R = CaptureRuntime
  import O = CaptureOutcomes

  lemma {:induction false} RunsConcat(c: State, first: seq<Event>, second: seq<Event>)
    requires Runs(c, first) && Runs(After(c, first), second)
    ensures Runs(c, first + second) && After(c, first + second) == After(After(c, first), second)
    decreases |first|
  {
    if first == [] {
      assert first + second == second;
    } else {
      RunsConcat(Apply(c, first[0]), first[1..], second);
      assert (first + second)[1..] == first[1..] + second;
    }
  }

  function Owners(steps: seq<R.Event>): seq<Event> { seq(|steps|, i requires 0 <= i < |steps| => Owner(steps[i])) }

  /** A run of the manager alone is a run of the whole, and moves nothing else. */
  lemma {:induction false} OwnerRunLifts(c: State, steps: seq<R.Event>)
    requires R.Runs(c.m, steps)
    ensures Runs(c, Owners(steps)) && After(c, Owners(steps)) == c.(m := R.After(c.m, steps))
    decreases |steps|
  {
    if steps == [] {
      assert Owners(steps) == [];
    } else {
      assert Owners(steps)[1..] == Owners(steps[1..]) && Owners(steps)[0] == Owner(steps[0]);
      OwnerRunLifts(Apply(c, Owner(steps[0])), steps[1..]);
    }
  }

  // ---- what a pass leaves alone -------------------------------------------------------------------------

  /** The driver that is wanted: a browser while anybody has an intent, else what was requested. */
  function Wanted(f: Fields): string { if f.interactive > 0 || f.browserCollection > 0 then "browser" else f.requested }

  /** A bare native reader runs in this generation. */
  predicate BareReader(f: Fields, generation: nat) { f.nativeReaderGeneration > 0 && f.nativeReaderGeneration == generation }

  /** Only native readers have an intent, and headless was requested. */
  predicate ReadersOnly(f: Fields) {
    f.requested == "headless" && f.interactive > 0 && f.interactive == f.nativeReaders && f.browserCollection == 0
  }

  /** What one look decides. */
  predicate Leaves(c: State, retiring: bool) {
    var reader := BareReader(c.f, c.m.generation);
    || c.m.leases > 0
    || (c.m.state == R.Ready && c.m.current.Some? && c.m.current.value < |c.m.owners|
        && c.m.owners[c.m.current.value].driver == Wanted(c.f) && (reader ==> ReadersOnly(c.f)))
    || ((c.m.state == R.Blocked || c.m.state == R.Failed) && !c.f.retry && !retiring && !reader)
  }

  function Look(retiring: bool): seq<Event> { [ReconcileEnter, ReconcileRead, ReconcileDecide(retiring)] }

  lemma RunOfThree(c: State, x: Event, y: Event, z: Event)
    requires Enabled(c, x) && Enabled(Apply(c, x), y) && Enabled(Apply(Apply(c, x), y), z)
    ensures Runs(c, [x, y, z]) && After(c, [x, y, z]) == Apply(Apply(Apply(c, x), y), z)
  {
    RunsExtend(c, [], x);
    RunsExtend(c, [x], y);
    RunsExtend(c, [x, y], z);
    assert [] + [x] == [x] && [x] + [y] == [x, y] && [x, y] + [z] == [x, y, z];
  }

  /**
   An undisturbed pass leaves the owner exactly if it has leases, or is ready with the wanted driver
   and no unwanted bare reader, or is in trouble without a reason to try again. Otherwise it decides
   to recover an owner in trouble and to replace any other.
   */
  lemma PassLeavesOwnerIff(c: State, retiring: bool)
    requires Inv(c) && c.loop == Asleep && !c.m.persistent
    ensures Runs(c, Look(retiring))
    ensures After(c, Look(retiring)) == c.(loop :=
      if Leaves(c, retiring) then Asleep else Decided(Wanted(c.f), ReadersOnly(c.f), c.m.state == R.Blocked || c.m.state == R.Failed))
  {
    RunOfThree(c, ReconcileEnter, ReconcileRead, ReconcileDecide(retiring));
  }

  // ---- an undisturbed pass ---------------------------------------------------------------------------------

  /** An idle runtime that a pass may replace or recover. */
  predicate Movable(c: State) {
    && Inv(c) && c.loop == Asleep && c.m.pc == R.Idle && !c.m.persistent && !c.m.stopped && c.m.leases == 0 && c.m.current.Some?
    && (c.m.state == R.Blocked || c.m.state == R.Failed || (c.m.state == R.Ready && !c.m.launchBlocked))
  }

  /** The pass up to the point where the previous owner is released and the slot is empty. */
  lemma PassClosesOwner(c: State, retiring: bool) returns (events: seq<Event>, r: State)
    requires Movable(c) && !Leaves(c, retiring)
    ensures Runs(c, events) && r == After(c, events) && Inv(r)
    ensures r.f == c.f && r.borrows == c.borrows && r.loop == Waiting(Wanted(c.f), ReadersOnly(c.f))
    ensures r.m.pc.Launching? && r.m.generation == c.m.generation + 1 == r.m.pc.launchGeneration
    ensures |r.m.owners| == |c.m.owners| && c.m.current.value in r.m.released && r.m.state == R.Replacing && r.m.leases == 0 && !r.m.persistent
    ensures (r.m.launchBlocked && r.m.pc.kind == R.Replacement) ==> c.m.launchBlocked && c.m.state == R.Ready
    ensures r.m.watch == c.m.watch
  {
    PassLeavesOwnerIff(c, retiring);
    var c3 := After(c, Look(retiring));
    var recover := c.m.state == R.Blocked || c.m.state == R.Failed;
    var begin := if recover then R.BeginRecover else R.BeginReplace;
    var steps, launching := O.ClosedUndisturbed(c.m, begin);
    RunsExtend(c, Look(retiring), ReconcileStart);
    var c4 := Apply(c3, ReconcileStart);
    assert steps[1..] == O.Handover(true);
    OwnerRunLifts(c4, O.Handover(true));
    RunsConcat(c, Look(retiring) + [ReconcileStart], Owners(O.Handover(true)));
    events := Look(retiring) + [ReconcileStart] + Owners(O.Handover(true));
    r := After(c, events);
    RunKeepsInv(c, events);
  }

  /**
   An undisturbed pass with good answers ends on the owner it launched: ready, of the next
   generation and with the wanted driver; the factory has recorded whether it is a bare reader, and
   neither failure nor retry is left.
   */
  lemma UndisturbedPassSwitches(c: State, retiring: bool) returns (events: seq<Event>)
    requires Movable(c) && !Leaves(c, retiring)
    ensures Runs(c, events) && Inv(After(c, events))
    ensures var r := After(c, events);
      && r.loop == Asleep && r.m.state == R.Ready && Driver(r.m) == Wanted(c.f) && r.m.generation == c.m.generation + 1
      && r.m.pc == R.Idle && !r.m.launchBlocked && !r.m.persistent && c.m.current.value in r.m.released
      && r.borrows == c.borrows
      && r.f == c.f.(failure := "", retry := false,
                     nativeReaderGeneration := if ReadersOnly(c.f) then c.m.generation + 1 else 0)
  {
    var closing, r1 := PassClosesOwner(c, retiring);
    RunsExtend(c, closing, FactoryRecords);
    var recorded, r2 := closing + [FactoryRecords], Apply(r1, FactoryRecords);
    var good := R.LaunchResult(false, Some(Wanted(c.f)), false);
    var launched := [R.LaunchReturns(good), R.Adopt];
    var all := O.LaunchUndisturbed(r2.m, [], good);
    assert all == launched;
    OwnerRunLifts(r2, launched);
    RunsConcat(c, recorded, Owners(launched));
    RunsExtend(c, recorded + Owners(launched), ReconcileReturn(""));
    events := recorded + Owners(launched) + [ReconcileReturn("")];
    RunKeepsInv(c, events);
  }

  /** And the next pass leaves that owner: passes converge. */
  lemma PassesConverge(c: State, retiring: bool, retiringNext: bool) returns (events: seq<Event>)
    requires Movable(c) && !Leaves(c, retiring)
    ensures Runs(c, events) && Driver(After(c, events).m) == Wanted(c.f) && After(c, events).m.state == R.Ready
    ensures Runs(After(c, events), Look(retiringNext)) && After(After(c, events), Look(retiringNext)) == After(c, events)
  {
    events := UndisturbedPassSwitches(c, retiring);
    var r := After(c, events);
    PassLeavesOwnerIff(r, retiringNext);
  }

  // ---- borrows ------------------------------------------------------------------------------------------------

  /** The steps of a borrow that finds a ready browser. */
  function BorrowSteps(role: Role, i: nat): seq<Event> {
    [BeginBorrow(role), SeeReady(i), ReadStatus(i), CheckStatus(i), TryAcquire(i, true), CheckDriver(i, true)]
  }

  predicate ReadyBrowser(m: R.Model) {
    m.state == R.Ready && m.current.Some? && m.current.value < |m.owners| && m.owners[m.current.value].driver == "browser"
  }

  /** Steps of borrow i until its status has been read. */
  lemma StatusUndisturbed(c: State, i: nat) returns (r: State)
    requires Inv(c) && At(c, i, Polling) && ReadyBrowser(c.m)
    ensures Runs(c, [SeeReady(i), ReadStatus(i), CheckStatus(i)]) && r == After(c, [SeeReady(i), ReadStatus(i), CheckStatus(i)]) && Inv(r)
    ensures var refused := BareReader(c.f, c.m.generation) && !c.borrows[i].role.NativeReader?;
            r == c.(borrows := c.borrows[i := c.borrows[i].(phase := if refused then Withdrawing(true) else Cleared)])
  {
    RunOfThree(c, SeeReady(i), ReadStatus(i), CheckStatus(i));
    r := After(c, [SeeReady(i), ReadStatus(i), CheckStatus(i)]);
    RunKeepsInv(c, [SeeReady(i), ReadStatus(i), CheckStatus(i)]);
    assert r.borrows == c.borrows[i := r.borrows[i]];
  }

  lemma RunOfTwo(c: State, x: Event, y: Event)
    requires Enabled(c, x) && Enabled(Apply(c, x), y)
    ensures Runs(c, [x, y]) && After(c, [x, y]) == Apply(Apply(c, x), y)
  {
    RunsExtend(c, [], x);
    RunsExtend(c, [x], y);
    assert [] + [x] == [x] && [x] + [y] == [x, y];
  }

  lemma AcquireUndisturbed(c: State, i: nat)
    requires Inv(c) && At(c, i, Cleared) && ReadyBrowser(c.m)
    ensures Enabled(c, TryAcquire(i, true))
    ensures Apply(c, TryAcquire(i, true)) ==
      c.(borrows := c.borrows[i := c.borrows[i].(phase := Leased(|c.m.issued|))],
         m := c.m.(leases := c.m.leases + 1, issued := c.m.issued + [R.Lease(c.m.generation, "browser", false)]))
  {
    O.LeaseIsIssuedIff(c.m, true);
  }

  /** A cleared borrow of a ready browser takes a lease and keeps it. */
  lemma LeaseUndisturbed(c: State, i: nat) returns (r: State)
    requires Inv(c) && At(c, i, Cleared) && ReadyBrowser(c.m)
    ensures Runs(c, [TryAcquire(i, true), CheckDriver(i, true)]) && r == After(c, [TryAcquire(i, true), CheckDriver(i, true)])
    ensures r.borrows == c.borrows[i := c.borrows[i].(phase := Holding(|c.m.issued|))] && r.f == c.f
    ensures r.m == c.m.(leases := c.m.leases + 1, issued := c.m.issued + [R.Lease(c.m.generation, "browser", false)])
  {
    AcquireUndisturbed(c, i);
    RunOfTwo(c, TryAcquire(i, true), CheckDriver(i, true));
    r := After(c, [TryAcquire(i, true), CheckDriver(i, true)]);
  }

  /**
   An undisturbed borrow of a ready browser holds a lease on it, except that an ordinary borrow is
   refused exactly while a bare native reader runs.
   */
  lemma UndisturbedBorrow(c: State, i: nat) returns (events: seq<Event>)
    requires Inv(c) && At(c, i, Polling) && ReadyBrowser(c.m)
    ensures Runs(c, events)
    ensures var r, b := After(c, events), c.borrows[i];
      && |r.borrows| == |c.borrows| && r.f == c.f
      && if BareReader(c.f, c.m.generation) && !b.role.NativeReader? then r.borrows[i] == b.(phase := Withdrawing(true)) && r.m == c.m
         else r.borrows[i] == b.(phase := Holding(|c.m.issued|)) && r.m.leases == c.m.leases + 1
              && |r.m.issued| == |c.m.issued| + 1 && r.m.issued[|c.m.issued|] == R.Lease(c.m.generation, "browser", false)
  {
    var status := StatusUndisturbed(c, i);
    events := [SeeReady(i), ReadStatus(i), CheckStatus(i)];
    if status.borrows[i].phase == Cleared {
      var held := LeaseUndisturbed(status, i);
      RunsConcat(c, events, [TryAcquire(i, true), CheckDriver(i, true)]);
      events := events + [TryAcquire(i, true), CheckDriver(i, true)];
    }
  }

  /** A lease on any other driver is given back at once and polling goes on. */
  lemma ForeignLeaseIsReturned(c: State, i: nat, acknowledged: bool)
    requires Inv(c) && i < |c.borrows| && c.borrows[i].phase.Leased? && Enabled(c, CheckDriver(i, acknowledged))
    ensures var k, r := c.borrows[i].phase.lease, Apply(c, CheckDriver(i, acknowledged));
      if c.m.issued[k].driver == "browser" then r.m == c.m && r.borrows[i].phase == Holding(k)
      else r.m.issued[k].released && r.borrows[i].phase == Polling
  {
  }

  // ---- requests, retries and failures ---------------------------------------------------------------------------

  /** A request, a retry, a new intent, and a native reader's end ask the next pass to try again. */
  predicate AsksForRetry(c: State, e: Event) {
    match e
    case Request(mode) => !c.m.persistent || mode == "browser"
    case Retry => true
    case BeginBorrow(_) => true
    case BeginNativeIntent(_) => true
    case Lower(_) => true
    case _ => false
  }

  /** A pass that came to an end, or found the assets wanting, has spent its retry. */
  predicate SpendsRetry(e: Event) { e.ReconcileReturn? || (e.ReconcileVeto? && e.clearRetry) }

  lemma RetryStep(c: State, e: Event)
    requires Enabled(c, e)
    ensures Apply(c, e).f.retry <==> AsksForRetry(c, e) || (c.f.retry && !SpendsRetry(e))
  {
  }

  /** A retry is pending after a run exactly if one was asked for that no later step has spent. */
  lemma {:induction false} RetryIsPendingIff(c: State, events: seq<Event>)
    requires Runs(c, events)
    ensures After(c, events).f.retry <==> (c.f.retry && Unspent(events, 0)) || exists i: nat :: AskedAt(c, events, i)
    decreases |events|
  {
    if events == [] {
      assert After(c, events) == c;
    } else {
      var c1, rest := Apply(c, events[0]), events[1..];
      RetryStep(c, events[0]);
      RetryIsPendingIff(c1, rest);
      UnspentTail(events, 0);
      assert Unspent(events, 0) <==> !SpendsRetry(events[0]) && Unspent(events, 1);
      assert AskedAt(c, events, 0) <==> AsksForRetry(c, events[0]) && Unspent(events, 1);
      forall i: nat ensures AskedAt(c, events, i + 1) <==> AskedAt(c1, rest, i) { UnspentTail(events, i + 1); }
      if i: nat :| AskedAt(c, events, i) { assert i == 0 || AskedAt(c1, rest, i - 1) by { if i > 0 { assert AskedAt(c, events, (i - 1) + 1); } } }
      if i: nat :| AskedAt(c1, rest, i) { assert AskedAt(c, events, i + 1); }
    }
  }

  /** The state before event i of a run. */
  function StateAt(c: State, events: seq<Event>, i: nat): State
    requires Runs(c, events) && i <= |events|
    decreases |events|
  {
    if i == 0 then c else StateAt(Apply(c, events[0]), events[1..], i - 1)
  }

  predicate Unspent(events: seq<Event>, from: nat) { forall j :: from <= j < |events| ==> !SpendsRetry(events[j]) }

  predicate AskedAt(c: State, events: seq<Event>, i: nat)
    requires Runs(c, events)
  {
    i < |events| && AsksForRetry(StateAt(c, events, i), events[i]) && Unspent(events, i + 1)
  }

  lemma UnspentTail(events: seq<Event>, from: nat)
    requires events != []
    ensures Unspent(events, from + 1) <==> Unspent(events[1..], from)
  {
    var rest := events[1..];
    assert forall j :: 0 <= j < |rest| ==> rest[j] == events[j + 1];
    if Unspent(rest, from) {
      forall j | from + 1 <= j < |events| ensures !SpendsRetry(events[j]) { assert events[j] == rest[j - 1]; }
    }
  }

  /** Which message a step leaves: passes and refused requests report, requests and intents clear it. */
  lemma FailureStep(c: State, e: Event)
    requires Enabled(c, e)
    ensures var failure := Apply(c, e).f.failure;
      && (e.ReconcileReturn? ==> failure == e.message) && (e.ReconcileVeto? ==> failure == e.message)
      && (e.Request? && c.m.persistent && e.mode != "browser" ==> failure == "headless replacement is unavailable")
      && (e.Request? && !(c.m.persistent && e.mode != "browser") ==> failure == "")
      && (e.Retry? || e.BeginBorrow? || e.BeginNativeIntent? ==> failure == "")
      && (!e.ReconcileReturn? && !e.ReconcileVeto? && !e.Request? && !e.Retry? && !e.BeginBorrow? && !e.BeginNativeIntent? ==>
            failure == c.f.failure)
  {
  }

  /** Only an admitted request changes what is requested, and only a recording factory the bare reader's generation. */
  lemma RequestedStep(c: State, e: Event)
    requires Enabled(c, e)
    ensures Apply(c, e).f.requested ==
              if e.Request? && !(c.m.persistent && e.mode != "browser") then e.mode else c.f.requested
    ensures Apply(c, e).f.nativeReaderGeneration ==
              if !e.FactoryRecords? then c.f.nativeReaderGeneration
              else if c.loop.launchReader && c.loop.mode == "browser" then c.m.pc.launchGeneration else 0
  {
  }

  /** One collection lease's report or success touches no other lease's; all go with the last collection intent, and only then. */
  lemma CollectionFailureStep(c: State, e: Event, id: string)
    requires Inv(c) && Enabled(c, e)
    ensures var before, after := c.f.collectionFailures, Apply(c, e).f.collectionFailures;
      if e.SetCollectionFailure? && e.leaseId == id then
        (id in after <==> e.message != "" && (c.f.browserCollection > 0 || id in before))
        && (id in after && c.f.browserCollection > 0 ==> after[id] == e.message)
      else if e.Withdraw? && Apply(c, e).f.browserCollection == 0 then id !in after
      else (id in after <==> id in before) && (id in after ==> after[id] == before[id])
  {
    if e.Withdraw? { assert BorrowInv(c.m, c.borrows[e.i]); }
  }

  /** Requests, retries, reports and new intents are possible at any moment. */
  lemma NobodyWaits(c: State, mode: string, role: Role, id: string, message: string)
    requires Inv(c)
    ensures Enabled(c, Request(mode)) && Enabled(c, Retry) && Enabled(c, SetCollectionFailure(id, message)) && Enabled(c, RaiseNative)
    ensures role != NativeReader ==> Enabled(c, BeginBorrow(role))
    ensures forall i: nat :: Enabled(c, GiveUp(i)) <==> At(c, i, Polling)
    ensures forall i: nat :: Enabled(c, SeeReady(i)) <==> At(c, i, Polling) && ReadyBrowser(c.m)
    ensures Enabled(c, ReconcileEnter) <==> c.loop == Asleep && !c.m.persistent
  {
  }
}
