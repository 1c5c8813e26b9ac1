/**
 What the capture runtime's operations come to: what admits them, where an undisturbed one ends, and
 what every failure leaves behind.
 */
module CaptureOutcomes {
  import opened Common
  import opened CaptureRuntime

  /** A replacement is admitted exactly to an unretained, running, unlatched runtime without leases. */
  lemma ReplacementIsAdmittedIff(m: Model)
    requires Inv(m) && m.pc == Idle
    ensures var m', admitted := Apply(m, BeginReplace), !m.persistent && !m.stopped && !m.launchBlocked && m.leases == 0;
            m' == if admitted then m.(state := Replacing, pc := Preparing(Replacement, m.current, m.state)) else m
    ensures var why := ReplaceRefusal(m);
      && (why == Some(ErrPersistent) <==> m.persistent)
      && (why == Some(ErrStopped) <==> !m.persistent && m.stopped)
      && (why == Some(ErrUnavailable) <==> !m.persistent && !m.stopped && m.launchBlocked)
      && (why == Some(ErrBusy) <==> !m.persistent && !m.stopped && !m.launchBlocked && m.leases != 0)
  {
  }

  /** A recovery is admitted exactly to an unretained, running, blocked or failed runtime with an owner and no leases. */
  lemma RecoveryIsAdmittedIff(m: Model)
    requires Inv(m) && m.pc == Idle
    ensures var m' := Apply(m, BeginRecover);
            var admitted := !m.persistent && !m.stopped && m.leases == 0 && m.current.Some? && (m.state == Blocked || m.state == Failed);
            m' == if admitted then m.(state := Replacing, pc := Preparing(Recovery, m.current, m.state)) else m
    ensures RecoverRefusal(m) == Some(ErrPersistent) <==> m.persistent
    ensures RecoverRefusal(m) != Some(ErrStopped) && RecoverRefusal(m) != Some(ErrBusy)
  {
  }

  /** A readiness check that fails undisturbed leaves everything as it was. */
  lemma FailedPreparationUndoes(m: Model, begin: Event)
    requires Inv(m) && m.pc == Idle && (begin == BeginReplace || begin == BeginRecover)
    requires Apply(m, begin).pc.Preparing?
    ensures Runs(m, [begin, PreparationFails]) && After(m, [begin, PreparationFails]) == m
  {
    StepKeepsInv(m, begin);
    RunOfTwo(m, begin, PreparationFails);
  }

  lemma RunOfTwo(m: Model, a: Event, b: Event)
    requires Enabled(m, a) && Enabled(Apply(m, a), b)
    ensures Runs(m, [a, b]) && After(m, [a, b]) == Apply(Apply(m, a), b)
  {
    RunsExtend(m, [], a);
    RunsExtend(m, [a], b);
    assert [] + [a] == [a] && [a] + [b] == [a, b];
  }

  /** The steps between admission and launch, or to the block after a failed close. */
  function Handover(ok: bool): seq<Event> { [MarkIntentional, CloseReturns(ok), if ok then Vacate else BlockAfterClose] }

  /** What an admitted operation finds when its owner's close was verified and the slot is empty. */
  lemma ClosedUndisturbed(m: Model, begin: Event) returns (events: seq<Event>, r: Model)
    requires Inv(m) && m.pc == Idle && m.current.Some? && (begin == BeginReplace || begin == BeginRecover)
    requires Apply(m, begin).pc.Preparing?
    ensures events == [begin] + Handover(true) && Runs(m, events) && r == After(m, events) && Inv(r)
    ensures var i := m.current.value;
      r == m.(owners := m.owners[i := m.owners[i].(intentional := true)], current := None, state := Replacing,
              generation := m.generation + 1, released := m.released + {i},
              pc := Launching(if begin == BeginRecover then Recovery else Replacement, m.generation + 1))
  {
    StepKeepsInv(m, begin);
    var a := Apply(m, begin);
    StepKeepsInv(a, MarkIntentional);
    var b := Apply(a, MarkIntentional);
    StepKeepsInv(b, CloseReturns(true));
    var c := Apply(b, CloseReturns(true));
    events := [begin] + Handover(true);
    RunOfTwo(m, begin, MarkIntentional);
    RunsExtend(m, [begin, MarkIntentional], CloseReturns(true));
    RunsExtend(m, [begin, MarkIntentional, CloseReturns(true)], Vacate);
    assert events == [begin, MarkIntentional] + [CloseReturns(true)] + [Vacate];
    assert [begin, MarkIntentional] + [CloseReturns(true)] == [begin, MarkIntentional, CloseReturns(true)];
    r := After(m, events);
    RunKeepsInv(m, events);
  }

  /** What a launch leaves, in a runtime whose slot was emptied for it. */
  function Settled(r: Model, kind: Kind, result: LaunchResult): Model {
    match result.process
    case None => r.(state := Blocked, launchBlocked := true, pc := Idle)
    case Some(driver) =>
      var n := |r.owners|;
      if result.err || result.noDoneChannel then
        r.(owners := r.owners + [Owner(driver, true)], watch := r.watch + [Unwatched], current := Some(n),
           state := Blocked, launchBlocked := true, pc := Idle)
      else
        r.(owners := r.owners + [Owner(driver, false)], watch := r.watch + [Watching], current := Some(n),
           state := Ready, launchBlocked := r.launchBlocked && kind == Replacement, pc := Idle)
  }

  /**
   An undisturbed launch adopts a good process as ready, watched owner and lifts the latch of a
   recovery; a failed launch latches, blocks, and keeps any process it returned as owner.
   */
  lemma LaunchUndisturbed(m: Model, events: seq<Event>, result: LaunchResult) returns (all: seq<Event>)
    requires Inv(m) && Runs(m, events) && After(m, events).pc.Launching?
    ensures all == events + [LaunchReturns(result), Adopt] && Runs(m, all)
    ensures After(m, all) == Settled(After(m, events), After(m, events).pc.kind, result)
  {
    RunKeepsInv(m, events);
    var r := After(m, events);
    RunsExtend(m, events, LaunchReturns(result));
    StepKeepsInv(r, LaunchReturns(result));
    RunsExtend(m, events + [LaunchReturns(result)], Adopt);
    all := events + [LaunchReturns(result)] + [Adopt];
    assert all == events + [LaunchReturns(result), Adopt];
  }

  /**
   An admitted, undisturbed replacement or recovery of an owner with a good launch ends ready on the
   new owner: next generation, watched, the old owner released.
   */
  lemma UndisturbedOperationSucceeds(m: Model, begin: Event, driver: string) returns (events: seq<Event>)
    requires Inv(m) && m.pc == Idle && m.current.Some? && (begin == BeginReplace || begin == BeginRecover)
    requires Apply(m, begin).pc.Preparing?
    ensures Runs(m, events)
    ensures var r, i, n := After(m, events), m.current.value, |m.owners|;
      && r.state == Ready && r.pc == Idle && r.generation == m.generation + 1 && i in r.released
      && r.current == Some(n) && |r.owners| == n + 1 && r.owners[n] == Owner(driver, false) && r.watch == m.watch + [Watching]
      && r.launchBlocked == (m.launchBlocked && begin == BeginReplace) && r.leases == 0 && !r.stopped
  {
    var before, r := ClosedUndisturbed(m, begin);
    events := LaunchUndisturbed(m, before, LaunchResult(false, Some(driver), false));
  }

  /** A failed close keeps the owner and its generation, blocked, and recovery may try again. */
  lemma FailedCloseCanBeRecovered(m: Model, begin: Event) returns (events: seq<Event>)
    requires Inv(m) && m.pc == Idle && m.current.Some? && (begin == BeginReplace || begin == BeginRecover)
    requires Apply(m, begin).pc.Preparing?
    ensures events == [begin] + Handover(false) && Runs(m, events)
    ensures var r, i := After(m, events), m.current.value;
      && r == m.(owners := m.owners[i := m.owners[i].(intentional := true)], state := Blocked)
      && Enabled(r, BeginRecover) && Apply(r, BeginRecover).pc.Preparing?
  {
    StepKeepsInv(m, begin);
    var a := Apply(m, begin);
    StepKeepsInv(a, MarkIntentional);
    var b := Apply(a, MarkIntentional);
    events := [begin] + Handover(false);
    RunOfTwo(m, begin, MarkIntentional);
    RunsExtend(m, [begin, MarkIntentional], CloseReturns(false));
    RunsExtend(m, [begin, MarkIntentional, CloseReturns(false)], BlockAfterClose);
    assert [begin, MarkIntentional] + [CloseReturns(false)] == [begin, MarkIntentional, CloseReturns(false)];
    assert events == [begin, MarkIntentional, CloseReturns(false)] + [BlockAfterClose];
    RunKeepsInv(m, events);
  }

  /** A cancellation between close and launch leaves no owner: recovery is refused, another replacement is not. */
  lemma CancelledLaunchCanBeReplaced(m: Model) returns (events: seq<Event>)
    requires Inv(m) && m.pc == Idle && m.current.Some? && Apply(m, BeginReplace).pc.Preparing?
    ensures Runs(m, events)
    ensures var r := After(m, events);
      && Inv(r) && r.pc == Idle && r.state == Blocked && r.current.None? && !r.launchBlocked
      && Apply(r, BeginRecover) == r && Apply(r, BeginReplace).pc.Preparing?
  {
    var before, r := ClosedUndisturbed(m, BeginReplace);
    RunsExtend(m, before, CancelBeforeLaunch);
    events := before + [CancelBeforeLaunch];
    RunKeepsInv(m, events);
  }

  /** A crashed owner that was not the first browser can be recovered, unless it was retained. */
  lemma CrashCanBeRecovered(m: Model, i: nat)
    requires Inv(m) && m.pc == Idle && m.leases == 0 && !m.persistent && Enabled(m, WatchExit(i)) && Fault(m, WatchExit(i))
    ensures var r := Apply(m, WatchExit(i));
      r.state == Failed && r.current == Some(i) && Enabled(r, BeginRecover) && Apply(r, BeginRecover).pc.Preparing?
  {
  }

  /** The unexpected death of the first browser owner shuts the application down, once. */
  lemma FirstBrowserDeathShutsDown(m: Model, i: nat)
    requires Inv(m) && Enabled(m, WatchExit(i)) && m.current == Some(i) && !m.owners[i].intentional && !m.stopped
    requires m.owners[i].driver != "headless" && m.generation == 1
    ensures Runs(m, [WatchExit(i), WatchFinish(i)])
    ensures var r := After(m, [WatchExit(i), WatchFinish(i)]); r.state == Failed && r.stopped && r.finished && r.doneMessages == 1
  {
    StepKeepsInv(m, WatchExit(i));
    RunOfTwo(m, WatchExit(i), WatchFinish(i));
  }

  /** An exit that is expected, or of an owner that is not current, changes nothing but its watch. */
  lemma ExpectedExitChangesNothing(m: Model, i: nat)
    requires Inv(m) && Enabled(m, WatchExit(i)) && (m.current != Some(i) || m.owners[i].intentional || m.stopped)
    ensures Apply(m, WatchExit(i)) == m.(watch := m.watch[i := WatchOver])
  {
  }

  /**
   A lease is issued exactly by a running, ready runtime with an owner that acknowledges its idle
   hold where it has to: a headless owner, for the first lease.
   */
  lemma LeaseIsIssuedIff(m: Model, acknowledged: bool)
    requires Inv(m)
    ensures var m' := Apply(m, AcquireLease(acknowledged));
      var ready := !m.stopped && m.state == Ready && m.current.Some?;
      if ready && (m.leases > 0 || acknowledged || m.owners[m.current.value].driver != "headless")
      then m' == m.(leases := m.leases + 1, issued := m.issued + [Lease(m.generation, m.owners[m.current.value].driver, false)])
      else if ready then m' == m.(state := Blocked, launchBlocked := true)
      else m' == m
  {
  }

  /** A release counts once; the last one ends the idle hold, and only a headless owner can fail to acknowledge that. */
  lemma ReleaseCountsOnce(m: Model, k: nat, acknowledged: bool)
    requires Inv(m) && k < |m.issued|
    ensures var m', less := Apply(m, ReleaseLease(k, acknowledged)),
                            m.(leases := m.leases - 1, issued := m.issued[k := m.issued[k].(released := true)]);
      if m.issued[k].released then m' == m
      else if m.leases == 1 && m.state == Ready && !acknowledged && m.owners[m.current.value].driver == "headless"
      then m' == less.(state := Blocked, launchBlocked := true)
      else m' == less
  {
  }

  /** Retention is granted exactly to a ready browser owner that runs and is not retained yet, and changes nothing else. */
  lemma RetentionIsGrantedIff(m: Model)
    requires Inv(m) && m.pc == Idle
    ensures var granted := !m.persistent && !m.stopped && m.state == Ready && m.current.Some? && m.owners[m.current.value].driver == "browser";
            Apply(m, Retain) == if granted then m.(persistent := true) else m
  {
  }

  /** Work is accepted exactly by a ready runtime in the generation that the work is stamped with, from its adoption on. */
  lemma CurrentGenerationIsAccepted(m: Model, g: nat)
    requires Inv(m)
    ensures Accepts(m, g) <==> m.state == Ready && g == m.generation
    ensures m.pc.Launched? && !m.pc.failed ==> Accepts(Apply(m, Adopt), m.generation)
  {
  }

  /** A stopped runtime refuses every operation and every lease. */
  lemma StoppedRefusesEverything(m: Model, acknowledged: bool)
    requires Inv(m) && m.pc == Idle && m.stopped
    ensures Apply(m, BeginReplace) == m && Apply(m, BeginRecover) == m && Apply(m, Retain) == m
    ensures Apply(m, BeginDispatch) == m && Apply(m, AcquireLease(acknowledged)) == m
  {
  }

  /** Termination stops the runtime in place and signals exactly once, however often it is asked. */
  lemma TerminationIsFinal(m: Model)
    requires Inv(m) && m.pc == Idle
    ensures Runs(m, [BeginTerminate, EndTerminate])
    ensures var r := After(m, [BeginTerminate, EndTerminate]);
      r.pc == Idle && r.stopped && r.state == Stopped && r.finished && r.doneMessages == 1 && r.current == m.current
  {
    StepKeepsInv(m, BeginTerminate);
    RunOfTwo(m, BeginTerminate, EndTerminate);
  }

  /** The processes are not otherwise touched: a dispatch holds the operation and gives it back. */
  lemma DispatchIsNeutral(m: Model)
    requires Inv(m) && m.pc == Idle
    ensures var m' := Apply(m, BeginDispatch);
      m' == if m.state == Ready && m.current.Some? then m.(pc := Dispatching) else m
    ensures m.state == Ready ==> Runs(m, [BeginDispatch, EndDispatch]) && After(m, [BeginDispatch, EndDispatch]) == m
  {
    if m.state == Ready {
      StepKeepsInv(m, BeginDispatch);
      RunOfTwo(m, BeginDispatch, EndDispatch);
    }
  }

  /**
   Nothing but the operation mutex makes anybody wait: leases, releases and exits of watched owners
   are possible at any moment, and a new operation exactly when none is in flight.
   */
  lemma OnlyOperationsWait(m: Model, acknowledged: bool)
    requires Inv(m)
    ensures Enabled(m, AcquireLease(acknowledged))
    ensures forall k: nat :: Enabled(m, ReleaseLease(k, acknowledged)) <==> k < |m.issued|
    ensures forall i: nat :: Enabled(m, WatchExit(i)) <==> i < |m.watch| && m.watch[i] == Watching
    ensures Enabled(m, BeginReplace) <==> m.pc == Idle
    ensures Enabled(m, BeginRecover) <==> m.pc == Idle
    ensures Enabled(m, BeginTerminate) <==> m.pc == Idle
    ensures Enabled(m, Retain) <==> m.pc == Idle
  {
  }
}
