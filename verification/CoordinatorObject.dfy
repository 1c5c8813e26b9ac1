/**
 The coordinator object: the critical sections of its mutex as methods over mutable fields.
 Handles are modelled by their once guard: a release acts only the first time it is called.
 */
module CoordinatorObject {
  import opened Coordinator

  /** The release function that a borrow hands out. */
  class IntentHandle {
    const collection: bool
    var spent: bool

    constructor (collection: bool)
      ensures this.collection == collection && !spent
    {
      this.collection := collection;
      spent := false;
    }
  }

  class CoordinatorFields {
    var requested: string
    var interactive: int
    var nativeReaders: int
    var browserCollection: int
    var collectionFailures: map<string, string>
    var nativeReaderGeneration: nat
    var failure: string
    var retry: bool

    ghost function View(): Fields
      reads this
    {
      Fields(requested, interactive, nativeReaders, browserCollection, collectionFailures,
             nativeReaderGeneration, failure, retry)
    }

    constructor ()
      ensures View() == Init("browser").f
    {
      requested, interactive, nativeReaders, browserCollection := "browser", 0, 0, 0;
      collectionFailures, nativeReaderGeneration, failure, retry := map[], 0, "", false;
    }

    method RequestMode(mode: string, persistent: bool)
      modifies this
      ensures View() == Requested(old(View()), mode, persistent)
    {
      if persistent && mode != "browser" {
        failure := "headless replacement is unavailable";
        return;
      }
      requested := mode;
      retry := true;
      failure := "";
    }

    method RaiseNativeReader()
      modifies this
      ensures View() == NativeRaised(old(View()))
    {
      nativeReaders := nativeReaders + 1;
    }

    method LowerNativeReader()
      modifies this
      ensures View() == NativeLowered(old(View()))
    {
      nativeReaders := nativeReaders - 1;
      retry := true;
    }

    method BeginBrowserBorrow(collection: bool) returns (handle: IntentHandle)
      modifies this
      ensures View() == IntentBegun(old(View()), collection)
      ensures fresh(handle) && handle.collection == collection && !handle.spent
    {
      if collection { browserCollection := browserCollection + 1; } else { interactive := interactive + 1; }
      retry := true;
      failure := "";
      handle := new IntentHandle(collection);
    }

    /** However often it is called, one handle gives back exactly one intent. */
    method ReleaseIntent(handle: IntentHandle)
      modifies this, handle
      ensures handle.spent
      ensures View() == if old(handle.spent) then old(View()) else IntentReleased(old(View()), handle.collection)
      ensures browserCollection > 0 || !handle.collection ==> collectionFailures == old(collectionFailures)
    {
      if handle.spent { return; }
      handle.spent := true;
      if handle.collection {
        browserCollection := browserCollection - 1;
        if browserCollection == 0 { collectionFailures := map[]; }
      } else {
        interactive := interactive - 1;
      }
    }

    method SetBrowserCollectionFailure(leaseId: string, message: string)
      modifies this
      ensures View() == FailureRecorded(old(View()), leaseId, message)
    {
      if message == "" {
        collectionFailures := collectionFailures - {leaseId};
        return;
      }
      if browserCollection == 0 { return; }
      collectionFailures := collectionFailures[leaseId := message];
    }

    /** The first critical section of a reconcile pass. */
    method ReadIntents(generation: nat) returns (mode: string, wantRetry: bool, nativeOnly: bool, launchReader: bool)
      ensures mode == TargetMode(View()) && wantRetry == retry
      ensures nativeOnly == NativeOnly(View(), generation) && launchReader == LaunchReader(View())
    {
      mode := requested;
      if interactive > 0 || browserCollection > 0 { mode := "browser"; }
      wantRetry := retry;
      nativeOnly := nativeReaderGeneration != 0 && nativeReaderGeneration == generation;
      launchReader := requested == "headless" && nativeReaders > 0 && interactive == nativeReaders && browserCollection == 0;
    }

    /** The factory's bookkeeping after a successful launch. */
    method RecordLaunch(mode: string, launchReader: bool, generation: nat)
      modifies this
      ensures View() == LaunchRecorded(old(View()), mode, launchReader, generation)
    {
      nativeReaderGeneration := 0;
      if mode == "browser" && launchReader { nativeReaderGeneration := generation; }
    }

    /** A pass stops before touching the owner. */
    method Veto(message: string, clearRetry: bool)
      modifies this
      ensures View() == old(View()).(failure := message, retry := !clearRetry && old(retry))
    {
      failure := message;
      if clearRetry { retry := false; }
    }

    /** A pass is over; its retry is spent whatever came of it. */
    method FinishPass(message: string)
      modifies this
      ensures View() == old(View()).(failure := message, retry := false)
    {
      failure, retry := message, false;
    }
  }
}
