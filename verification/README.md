# Ownership, evidence and ordering: a verified model

The program keeps one authenticated browser profile alive across launches, hand-overs and crashes.
Most of its difficulty is one question: can two processes own that profile at once? This project
models the code that answers it and four further algorithms that promise one canonical answer,
and proves what they promise. `dafny verify dfyconfig.toml` checks everything.

## How the model is built

| file | what it holds |
|---|---|
| `CaptureRuntime.dfy` | the manager's ownership protocol as a transition system, its invariant and the safety theorems |
| `CaptureOutcomes.dfy`, `ShellOutcomes.dfy`, `CoordinatorOutcomes.dfy`, `TransportOutcomes.dfy` | for each protocol: what admits an operation, where an undisturbed one ends, what every failure leaves |
| `CaptureManager.dfy` | the manager object: every critical section as a method, whole operations as runs of the protocol |
| `Coordinator.dfy`, `CoordinatorObject.dfy`, `CoordinatorRun.dfy` | borrow intents and the reconcile loop composed with the manager; whole borrows and passes as runs |
| `ShellSession.dfy`, `ShellObjects.dfy` | the application shell's replacement loop and its startup handshake |
| `Framing.dfy`, `Transport.dfy` | NUL framing, and the pending table of the private DevTools transport |
| `DirectContext.dfy`, `ContextLaws.dfy`, `ContextCapacity.dfy` | merging captured relations, whose fields survive, and the capacity cut |
| `BlockDetails.dfy`, `Reconcile.dfy`, `ReconcileLaws.dfy`, `ReconcileOutcomes.dfy`, `ReconcileLimits.dfy`, `ReconcileProcedure.dfy` | reconciliation of repeated captures: its laws, which captures it touches and who names them, and that the conditions are exact |
| `IssueTokens.dfy`, `IssueOwners.dfy`, `IssueEvidence.dfy`, `IssueProcedure.dfy` | tokenizer, owner mentions, clauses and the proofs of issues, with the loops that find them |
| `IssueNearest.dfy`, `IssueClauses.dfy`, `IssueLaws.dfy`, `IssueOutcomes.dfy` | which mention owns an issue, and that exactly those are proved |
| `RelatedScore.dfy`, `RelatedOutcomes.dfy` | admission of related records, and what the two sides share |
| `Versions.dfy`, `VersionParsing.dfy`, `VersionSelection.dfy` | version precedence and the selection loop |
| `Backoff.dfy` | load pacing |

Protocols. A step is one critical section of the mutex that guards the state, or one answer of the
environment. Readiness, close, launch, exit, write and cancellation results are arguments of the
events, so each theorem holds for every choice of them and every interleaving. A theorem over runs
starts in the initial state, or in any state that satisfies the invariant, which every run keeps.
The classes hold the same fields as the source; a short method is one critical section and its
contract is one event. A whole operation calls `Others` (`Meanwhile` in a pass) wherever the source
does not hold the mutex. Its contract allows any number of concurrent steps and is all that its
callers may use, so the result that every execution is a run of the protocol holds under
interference.

Algorithms. The loops of the source are methods with invariants, each proved equal to a
specification function; the laws are lemmas about that function. Where a specification decides
something, a law says when in terms of the inputs alone, so that the decision is stated apart from
the function that takes it. Case folding, white space, URL
and timestamp parsing, and word lists are parameters: the laws hold for all of them.

## What the proofs found

- A runtime can be `Ready` although its owner has exited. It is so exactly after a readiness check
  that failed, found the runtime failed meanwhile and restored it to ready (`ReadyMeansWatchedIff`).
  Such a runtime refuses replacement and recovery; termination ends it, and a headless owner also
  leaves it through an idle hold that it does not acknowledge. A runtime that has latched may
  conversely have a live owner (`LatchedButWatchedIsReachable`).
- A reconcile pass can decide to launch a bare native reader next to an ordinary borrow, because the
  two counters of a native reader are updated in two critical sections. It is right if and only if
  no native reader is between them (`ReaderLaunchIsRightIffNoGap`).
- Reconciliation can take away a native identity when a block carries blank but non-empty ids: of the
  blocks with a signature, those with an identity or no id at all are exactly the safe ones
  (`NativeIdentityIsKept`, `UnanchoredBlocksBreakIdentity`).
- A second pass of reconciliation can change a platform id when ids are blank. It can also do so, and
  the first pass can move a block to another signature, because a signature joins author and text
  with a NUL that an author may contain. The captures for which neither happens are known exactly (`SignatureIsKept`,
  `ReconciliationIsIdempotentOnIdentity`, `UntidyBlocksBreakIdempotence`,
  `InconsistentContentsBreakBothLaws`).
- Version comparison departs from Semantic Versioning for numbers of 2^63 and more, which it compares
  as text, and for a zero behind a hyphen, which it reads as a number. All other identifiers are safe,
  and each of these has a partner on which the order is wrong (`ComparisonIsSemVerPrecedence`,
  `UnusualIdentifierIsMisordered`).
- The backoff loop is min(base * 2^(k-1), max) for every k if and only if no doubling of the base
  equals max - 1. Every even maximum qualifies (`BackoffIsExactIff`). A further failure can admit a
  capture earlier, because its jitter is drawn anew (`FurtherFailureNeverHurriesIff`).

## Model

| member | source | states |
|---|---|---|
| `CaptureRuntime.LaunchOnlyAfterEveryRelease` | internal/captureruntime/manager.go:192-296 | in every interleaving, when the launcher runs every process ever handed over has had its close verified, no lease is outstanding, and the runtime is neither stopped nor retained |
| `CaptureRuntime.UnreleasedOwnersNeverOverlap` | internal/captureruntime/manager.go:125-382 | in every reachable state at most one known process has an unverified release |
| `CaptureRuntime.OutstandingLeasePinsOwner` | internal/captureruntime/profile_lease.go:46-79 | in every reachable state the lease counter is the number of unreleased leases, each of these names the current generation and driver, and while there is one no close, generation step, launch or adoption is possible |
| `CaptureRuntime.HeldLeaseFreezesOwner` | internal/captureruntime/manager.go:214-221 | from any state that satisfies the invariant, until a lease is released its owner and generation stay, even if the process dies |
| `CaptureRuntime.FailedLaunchWithoutProcessLatches` | internal/captureruntime/manager.go:280-289 | a launch that returns no process leaves no owner and a latched runtime |
| `CaptureRuntime.LaunchLatchIsPermanent` | internal/captureruntime/manager.go:202-213 | from there no continuation ever launches again |
| `CaptureRuntime.RetainedOwnerIsPermanent` | internal/captureruntime/manager.go:386-396 | after retention no continuation changes owner or generation, or launches |
| `CaptureRuntime.FaultQuarantines` | internal/captureruntime/profile_lease.go:17-34 | an unacknowledged idle hold of a headless owner, or the death of a replaceable one, latches the runtime and issues no lease |
| `CaptureRuntime.QuarantineUntilRecovery` | internal/captureruntime/manager.go:307-327 | until a recovery starts, a latched runtime that is not ready issues no lease and launches nothing |
| `CaptureRuntime.GenerationNeverReturns` | internal/captureruntime/manager.go:183-187 | generations only grow, a later launch has a strictly newer one, and work stamped with an older one is never accepted again |
| `CaptureRuntime.StrandedIsReachable` | internal/captureruntime/manager.go:223-242 | a run that ends ready with an exited owner |
| `CaptureRuntime.StrandedUntilLeft` | internal/captureruntime/manager.go:202-213 | a ready runtime with an exited owner stays so, keeps owner and generation and launches nothing, until it is terminated or a headless owner misses an idle hold |
| `CaptureRuntime.ReadyMeansWatchedIff` | internal/captureruntime/manager.go:125-146 | a reachable ready runtime has a current owner whose exit is still watched, if and only if no failing readiness check restored a failed runtime to ready since |
| `CaptureRuntime.StrandedIff` | internal/captureruntime/manager.go:223-242 | over every run from any state that satisfies the invariant: exactly when it ends ready with an exited owner |
| `CaptureRuntime.StrandedStep` | internal/captureruntime/manager.go:223-242 | exactly which steps lead to such a state, by the guard of the failing branch, and which ones keep it |
| `CaptureRuntime.LeavingStranded` | internal/captureruntime/profile_lease.go:17-34 | what leaving it means: stopped, or blocked with a headless owner that recovery admits |
| `CaptureRuntime.LatchedButWatchedIsReachable` | internal/captureruntime/manager.go:290-294 | a run that ends ready and latched with a live owner, so the latch is not the condition |
| `CaptureRuntime.StepKeepsInv` | internal/captureruntime/manager.go:116-449 | every step keeps the ownership, lease, operation, shutdown-signal and readiness invariants |
| `CaptureRuntime.RunKeepsInv` | internal/captureruntime/manager.go:116-449 | so does every run |
| `CaptureOutcomes.ReplacementIsAdmittedIff` | internal/captureruntime/manager.go:200-221 | in every idle state with the invariant: which replacements are admitted, and which refusal the others get |
| `CaptureOutcomes.RecoveryIsAdmittedIff` | internal/captureruntime/manager.go:316-327 | recovery is admitted exactly to an unretained, running, blocked or failed runtime with an owner and no leases; elsewhere it changes nothing |
| `CaptureOutcomes.CrashCanBeRecovered` | internal/captureruntime/manager.go:125-146 | after the death of a replaceable owner without leases the runtime is failed and recovery is admitted |
| `CaptureOutcomes.UndisturbedOperationSucceeds` | internal/captureruntime/manager.go:192-382 | an admitted replacement or recovery of an owner has a run that ends ready on the new owner, in the next generation, watched, with the old one released; a recovery has lifted the latch, a replacement has not touched it |
| `CaptureOutcomes.LaunchUndisturbed` | internal/captureruntime/manager.go:280-294 | what each launch result leaves, latch, owner and state: only a good one is ready, a failed one keeps the process it returned as intentional owner |
| `CaptureOutcomes.FailedPreparationUndoes` | internal/captureruntime/manager.go:223-242 | a readiness check that fails undisturbed leaves the runtime exactly as it was |
| `CaptureOutcomes.FailedCloseCanBeRecovered` | internal/captureruntime/manager.go:254-261 | a failed close keeps owner and generation, blocked, and recovery of that same owner is admitted |
| `CaptureOutcomes.CancelledLaunchCanBeReplaced` | internal/captureruntime/manager.go:267-276 | a cancellation between close and launch leaves no owner and no latch: recovery is refused, a replacement is admitted |
| `CaptureOutcomes.FirstBrowserDeathShutsDown` | internal/captureruntime/manager.go:125-150 | the unexpected death of the first browser owner stops the runtime and signals shutdown once |
| `CaptureOutcomes.LeaseIsIssuedIff` | internal/captureruntime/profile_lease.go:46-62 | exactly which runtimes issue a lease, and that a missing acknowledgement latches |
| `CaptureOutcomes.TerminationIsFinal` | internal/captureruntime/manager.go:431-449 | termination stops the runtime in place and has signalled exactly once, however often it is asked |
| `CaptureManager.Manager.constructor` | internal/captureruntime/manager.go:116-123 | the first process is adopted as generation one |
| `CaptureManager.Manager.Replace` | internal/captureruntime/manager.go:192-296 | every execution, under any interference and any answers, is a run of the protocol and keeps its invariant; success needs readiness, a verified close of the previous owner and a good launch, and leaves a ready owner of the next generation with every earlier owner released; conversely an admissible call with good answers that is not cancelled succeeds unless the runtime was stopped meanwhile |
| `CaptureManager.Manager.Recover` | internal/captureruntime/manager.go:307-382 | the same for recovery, which also lifts the latch: it succeeds whenever a blocked or failed, unretained runtime with an owner and no leases gets good answers and is not stopped meanwhile |
| `CaptureManager.Manager.Terminate` | internal/captureruntime/manager.go:431-449 | the same for termination, which stops the runtime and has signalled shutdown exactly once |
| `CaptureManager.ConcurrentStepsKeep` | internal/captureruntime/manager.go:125-146 | watchers and leases, however many steps they take, change neither owner, generation nor the operation in flight |
| `CaptureManager.Manager.AdmitReplace` | internal/captureruntime/manager.go:200-221 | admitted exactly an unretained, running, unlatched runtime without leases; the refusals come in the source's order |
| `CaptureManager.Manager.AdmitRecover` | internal/captureruntime/manager.go:316-327 | admitted exactly an unretained, running, blocked or failed runtime with an owner and no leases |
| `CaptureManager.Manager.AdoptNext` | internal/captureruntime/manager.go:280-294 | a failed launch latches and keeps a returned process as intentional owner; a good one is current, ready and watched |
| `CaptureManager.Manager.OnExit` | internal/captureruntime/manager.go:125-146 | what an observed exit changes, and when it signals shutdown |
| `CaptureManager.Manager.RetainForProcess` | internal/captureruntime/manager.go:386-396 | retention is granted exactly to a ready browser owner that is not retained yet |
| `CaptureManager.Manager.StartDispatch` | internal/captureruntime/manager.go:416-429 | a recovery action is dispatched exactly to a ready owner, and holds the operation meanwhile |
| `CaptureManager.Manager.Acquire` | internal/captureruntime/profile_lease.go:46-62 | a lease carries the current generation and driver; an unacknowledged idle hold gives none and latches |
| `CaptureManager.Manager.Release` | internal/captureruntime/profile_lease.go:67-79 | the first release lowers the counter and may end the idle hold; later ones do nothing |
| `CaptureManager.Manager.AcceptsGeneration` | internal/captureruntime/manager.go:183-187 | the generation fence |
| `Coordinator.CountersAreOutstandingHandles` | internal/collection/coordinator.go:434-580 | in every run the three counters equal the outstanding handles of their kind, and failures are recorded only while a collection intent is outstanding |
| `Coordinator.SettledBorrowsGiveEverythingBack` | internal/collection/coordinator.go:498-550 | when every borrow has returned, failed or not, no intent is left |
| `Coordinator.BorrowedBrowserStaysPut` | internal/collection/coordinator.go:325-429 | a returned lease is on a browser owner, and no continuation, reconcile passes included, changes that owner or generation until the lease is released |
| `Coordinator.RunProjects` | internal/collection/coordinator.go:325-429 | a run of coordinator and manager projects onto a run of the manager, so all its theorems apply |
| `Coordinator.LeavingBrowserMeansNoIntent` | internal/collection/coordinator.go:331-347 | a pass aims away from the browser only when no intent is outstanding at that instant |
| `Coordinator.ReaderLaunchIsRightIffNoGap` | internal/collection/coordinator.go:346-346 | a pass that decides for a bare native reader is right, all intents being native readers', if and only if no native reader is between its two counter updates |
| `Coordinator.ReaderLaunchCanBeWrong` | internal/collection/coordinator.go:448-450 | a run in which it is wrong |
| `Coordinator.StepKeepsInv` | internal/collection/coordinator.go:195-580 | every step keeps counters, borrow phases and the manager's invariant |
| `CoordinatorOutcomes.PassLeavesOwnerIff` | internal/collection/coordinator.go:325-364 | an undisturbed pass leaves the owner if and only if it has leases, or is ready with the wanted driver and is no unwanted bare reader, or is blocked or failed without retry, retirement or bare reader; otherwise it decides to recover a blocked or failed owner and to replace any other |
| `CoordinatorOutcomes.UndisturbedPassSwitches` | internal/collection/coordinator.go:325-429 | where it does not leave an idle owner, a pass with good answers has a run that ends ready on a new owner with the wanted driver, in the next generation, with the old one released, no failure and no retry left, and the bare reader recorded |
| `CoordinatorOutcomes.PassesConverge` | internal/collection/coordinator.go:325-429 | and the next pass leaves that owner alone |
| `CoordinatorOutcomes.UndisturbedBorrow` | internal/collection/coordinator.go:498-550 | an undisturbed poll of a ready browser ends holding a lease on its generation, except that an ordinary borrow is refused exactly while a bare native reader runs |
| `CoordinatorOutcomes.RetryIsPendingIff` | internal/collection/coordinator.go:195-580 | over every run a retry is pending exactly if some step asked for one that no later pass has spent |
| `CoordinatorOutcomes.CollectionFailureStep` | internal/collection/coordinator.go:285-299 | a report or success of one collection lease touches no other's, and all are cleared with the last collection intent and only then |
| `CoordinatorObject.CoordinatorFields.BeginBrowserBorrow` | internal/collection/coordinator.go:552-580 | one intent is counted and one unspent handle is returned |
| `CoordinatorObject.CoordinatorFields.ReleaseIntent` | internal/collection/coordinator.go:563-580 | however often it is called, a handle gives back exactly one intent, and the last collection intent clears the recorded failures |
| `CoordinatorObject.CoordinatorFields.SetBrowserCollectionFailure` | internal/collection/coordinator.go:285-299 | failures are set and cleared per lease, and set only while a collection intent is outstanding |
| `CoordinatorObject.CoordinatorFields.ReadIntents` | internal/collection/coordinator.go:331-347 | the mode, retry flag and reader decision that one pass works with |
| `CoordinatorRun.Collection.BorrowBrowser` | internal/collection/coordinator.go:498-550 | every execution of a borrow, under any interference, is a run of the protocol; success holds an unreleased lease on a browser owner of the current generation, and every failure has given its intent back |
| `CoordinatorRun.Collection.BorrowNativeReader` | internal/collection/coordinator.go:434-468 | the same for a native reader, which on failure has given back both its intent and its count |
| `CoordinatorRun.Collection.PollOnce` | internal/collection/coordinator.go:518-549 | one turn of the polling loop ends polling again, refused, or holding a browser lease; without a ready browser it is refused exactly on a recorded failure or a time-out |
| `CoordinatorRun.Collection.KeepBrowserLease` | internal/collection/coordinator.go:530-534 | a lease on any other driver is released at once and polling goes on |
| `CoordinatorRun.Collection.ReturnBorrow` | internal/collection/coordinator.go:451-462 | the release function settles its borrow and does nothing when it is called again |
| `CoordinatorRun.Collection.RequestMode` | internal/collection/coordinator.go:195-212 | a request for another mode against a retained owner changes nothing that a pass acts on; otherwise, without intents, the next pass aims at the requested mode |
| `CoordinatorRun.Collection.LookAtOwner` | internal/collection/coordinator.go:351-364 | an owner with leases is left; without leases a ready one is left exactly if its driver is the wanted one and it is no unwanted bare reader, a blocked or failed one exactly without retry, retirement and bare reader; exactly the latter are recovered |
| `CoordinatorRun.Collection.ReconcilePass` | internal/collection/coordinator.go:325-429 | every execution of a pass, launch factory and manager operation included, is a run of the protocol; exactly a retained owner is not looked at; a pass that acted has spent the retry, and has cleared the failure exactly if the operation succeeded |
| `CoordinatorRun.Collection.AskManager` | internal/collection/coordinator.go:388-416 | the manager is driven exactly if it admits the operation; success is a ready owner with the driver that the launch returned, and with good answers only a stop can prevent it |
| `ShellSession.ShellLaunchesOnlyAfterVerifiedClose` | internal/appshell/session.go:102-176 | over every run a shell is launched only after every earlier window's close succeeded, retried cleanups included, and never when blocked |
| `ShellSession.UnverifiedCleanupLatches` | internal/appshell/session.go:59-178 | from a blocked session no continuation launches again; `ShellOutcomes.BlockedIff` says when a session is blocked |
| `ShellSession.RetryNeverBlocks` | internal/appshell/startup.go:77-110 | the retry mailbox holds at most one request and only while a retry is pending, it has room whenever a retry is accepted, and launches never exceed one plus the accepted retries |
| `ShellSession.AttemptsAcknowledgeOnce` | internal/appshell/startup.go:55-75 | no token is acknowledged twice |
| `ShellSession.StaleTokenIsDead` | internal/appshell/startup.go:55-101 | a token issued before an accepted retry is never acknowledged later |
| `ShellSession.RunKeepsInv` | internal/appshell/session.go:59-178 | every run keeps the window, mailbox and token invariants |
| `ShellOutcomes.BlockedIff` | internal/appshell/session.go:163-171 | over every run the session is blocked exactly if some launch in it reported unverified cleanup, or it was blocked before |
| `ShellOutcomes.NoLaunchAfterUnverifiedCleanup` | internal/appshell/session.go:122-127 | in no run is a launch that reported unverified cleanup followed by another launch |
| `ShellOutcomes.PlainLaunchErrorCanBeRetried` | internal/appshell/session.go:163-171 | after any other launch error a further click leads to another launch and an open window |
| `ShellOutcomes.UndisturbedRetrySucceeds` | internal/appshell/session.go:102-176 | a retry at rest, not blocked, has a run that releases the previous window, opens a new one with exactly one launch, and leaves a fresh token to acknowledge |
| `ShellOutcomes.FailedCloseIsRetried` | internal/appshell/session.go:131-148 | a failed close launches nothing and keeps the window, and the next click closes that same window |
| `ShellOutcomes.BlockedClickIsRefused` | internal/appshell/session.go:122-127 | a click on a blocked session ends at rest with a failed retry and no launch |
| `ShellOutcomes.FreshAttemptCanBeAcknowledged` | internal/appshell/startup.go:55-101 | a fresh attempt is not ready, and its token is acknowledged exactly when it is presented itself, and once, unless the startup was stopped |
| `ShellOutcomes.DeadTokenStaysDead` | internal/appshell/startup.go:55-110 | a drawn token that is not current any more, after a failed attempt, a retry or a stop, is never acknowledged again |
| `ShellOutcomes.RetiringSteps` | internal/appshell/startup.go:77-129 | which steps void the token, and what the user is told |
| `ShellOutcomes.StoppedIsFinal` | internal/appshell/startup.go:118-129 | once stopped, no token is acknowledged and no retry accepted in any continuation |
| `ShellObjects.StartupObject.Acknowledge` | internal/appshell/startup.go:55-75 | exactly the authentic request with the current token of an unfinished, unready attempt is acknowledged, and it spends the token |
| `ShellObjects.StartupObject.RequestRetry` | internal/appshell/startup.go:77-88 | an accepted retry voids the token and puts one request into an empty mailbox |
| `ShellObjects.SessionObject.FinishClose` | internal/appshell/session.go:131-148 | a failed close keeps the window for a later cleanup, a verified one releases it |
| `ShellObjects.SessionObject.Replace` | internal/appshell/session.go:128-176 | closing and reopening is a run of the protocol under any interference; a failed close launches nothing and keeps the window, and with good answers exactly one launch happens, whose error blocks exactly if cleanup was unverified |
| `ShellObjects.SessionObject.Turn` | internal/appshell/session.go:68-176 | one turn of the loop is a run of the protocol; which wake-ups end the session, and which retries launch |
| `ShellObjects.SessionObject.Run` | internal/appshell/session.go:59-178 | the event loop, over any wake-ups and any interference, is a run of the protocol and keeps its invariant |
| `Framing.EncodedFramesReadBack` | internal/appshell/capture_protocol.go:244-271 | any sequence of NUL-free frames is read back frame by frame; an over-long one costs only itself |
| `Framing.RequestsFitTheFrameLimit` | internal/appshell/capture_protocol.go:130-134 | every request of at most 8388608 bytes, which is what may be sent, is read back, and the reader takes exactly frames below 16777216 bytes |
| `Framing.ReadCaptureFrame` | internal/appshell/capture_protocol.go:244-271 | for every chunking, exactly the bytes up to the next NUL or an oversize flag, and reading resumes right after that NUL |
| `Framing.ReadLoop` | internal/appshell/capture_protocol.go:211-242 | for every chunking, all results of the stream |
| `Framing.WriteCaptureFrame` | internal/appshell/capture_protocol.go:197-209 | success means exactly the frame was written, failure a prefix of it, and willing short writes always succeed |
| `Framing.SendAndReceive` | internal/appshell/capture_protocol.go:197-271 | a written batch is read back as itself for every chunking on both sides |
| `Transport.RepliesAreSingle` | internal/appshell/capture_protocol.go:98-195 | in every interleaving ids are fresh, at most 32 requests are pending and no reply channel gets a second message |
| `Transport.SendsNeverBlock` | internal/appshell/capture_protocol.go:273-301 | whenever the reader or a failure sends, the reply channel is empty |
| `Transport.CallsGetTheirOwnReply` | internal/appshell/capture_protocol.go:176-195 | a finished call has no table entry, and a response it returns is for its own id |
| `Transport.FailureEmptiesPendingForever` | internal/appshell/capture_protocol.go:291-301 | after the first failure the table is empty in every continuation |
| `Transport.OneWriterAtATime` | internal/appshell/capture_protocol.go:148-175 | at most one call uses the pipe, a writer whose caller has left included |
| `Transport.StepKeepsInv` | internal/appshell/capture_protocol.go:98-301 | every step keeps the call, table, reader and gate invariants |
| `TransportOutcomes.UndisturbedCallIsAnswered` | internal/appshell/capture_protocol.go:98-195 | with a working, free transport a call has a run that returns the response to its own request and leaves table, gate and reader as they were |
| `TransportOutcomes.FailureAnswersPending` | internal/appshell/capture_protocol.go:291-301 | the first failure sends one rejection to every pending call and nothing to any other; a later one does nothing |
| `TransportOutcomes.AbandonedCallLeaves` | internal/appshell/capture_protocol.go:148-195 | a cancelled call can leave, takes its table entry with it, and gives back exactly the gate that it held itself |
| `TransportOutcomes.GateIsNeverLost` | internal/appshell/capture_protocol.go:148-175 | whoever holds the gate can take the steps that give it back |
| `TransportOutcomes.ReplyIsRouted` | internal/appshell/capture_protocol.go:273-281 | a reply for a pending id goes to the call with that id; any other changes nothing |
| `Transport.TransportObject.DrawId` | internal/appshell/capture_protocol.go:110-121 | a fresh id, or a refusal when failed or full |
| `Transport.TransportObject.RegisterChannel` | internal/appshell/capture_protocol.go:135-146 | the channel enters the table unless it is failed or full |
| `Transport.TransportObject.ResolveReply` | internal/appshell/capture_protocol.go:273-281 | the channel leaves the table and gets the reply into its empty buffer; an unknown id changes nothing |
| `Transport.TransportObject.RemovePending` | internal/appshell/capture_protocol.go:283-287 | one entry leaves the table |
| `Transport.TransportObject.FailAll` | internal/appshell/capture_protocol.go:291-301 | every pending channel gets exactly one rejection and the table is emptied, once |
| `DirectContext.MergedTargetKeepsFreshestBody` | internal/domain/direct_context.go:174-224 | for valid relations every stable key has one merged relation, whose target is an input's, has a body exactly when some input with that key has one, and then carries the latest known capture time |
| `DirectContext.AbsorbAllRepresents` | internal/domain/direct_context.go:177-224 | the same for the whole merged list, which has exactly the keys of the inputs, each once |
| `DirectContext.ArrivalOrderIsIrrelevant` | internal/domain/direct_context.go:174-224 | exchanging the two lists changes neither whether a key has a body nor its capture time |
| `DirectContext.MergeObjectKeepsLatestBody` | internal/domain/direct_context.go:247-268 | of two valid targets with one identity the merge returns one, exactly the later of two bodies, or the one body there is |
| `ContextLaws.OwnFieldsAreFirstLatest` | internal/domain/direct_context.go:177-224 | over every list a merged relation carries the own fields of the first among the latest arrivals with its key; without a stable key it is its first arrival in full |
| `ContextLaws.CombineKeepsFresherFields` | internal/domain/direct_context.go:200-217 | of two arrivals the strictly later one keeps its own fields, else the one that was there |
| `ContextLaws.WordsAreNeverLost` | internal/domain/direct_context.go:174-224 | a merged target has words or media exactly if some arrival with its key had |
| `ContextLaws.SameRelationIff` | internal/domain/direct_context.go:148-192 | two relations share a key exactly if kind, actor and target identity agree, and for unidentified targets also the words |
| `ContextLaws.CommentIdentity` | internal/domain/direct_context.go:148-170 | a comment's id names it with or without its prefix, its permalink only without an id |
| `ContextLaws.PostIdentity` | internal/domain/direct_context.go:148-170 | the same for a post and its status id |
| `ContextCapacity.MergeIsBounded` | internal/domain/direct_context.go:225-244 | exactly min(8, n) relations with distinct keys in their merged order; a comment body is missing only if all eight retained are comment bodies |
| `ContextCapacity.SurvivorsAre` | internal/domain/direct_context.go:225-244 | which eight positions survive, of comment bodies and of others the earliest |
| `ContextCapacity.Cut` | internal/domain/direct_context.go:225-244 | the ordering, truncation and re-sorting compute that cut |
| `ContextCapacity.AbsorbOne` | internal/domain/direct_context.go:181-223 | one loop turn with its key table is one absorption |
| `ContextCapacity.MergeDirectContext` | internal/domain/direct_context.go:174-245 | the whole procedure computes the specified merge |
| `BlockDetails.MergedLinksDiffer` | internal/capture/reconcile.go:233-257 | merged links have distinct keys, are at most ten, and below that bound lose only links whose key is kept |
| `BlockDetails.MergedAttachmentsDiffer` | internal/capture/reconcile.go:259-276 | the same for attachments, at most three and never without a URL |
| `BlockDetails.MergedListsAreComplete` | internal/capture/reconcile.go:163-207 | merged lists begin with the previous ones, and below their bounds hold every current link and attachment or one with its key |
| `BlockDetails.MergeLinks` | internal/capture/reconcile.go:233-257 | the loop computes that merge |
| `BlockDetails.MergeAttachments` | internal/capture/reconcile.go:259-276 | the loop computes that merge |
| `ReconcileLaws.ReconciliationKeepsShape` | internal/capture/reconcile.go:76-103 | snapshots, block counts and feed positions are kept |
| `ReconcileLaws.SnapshotsReconcileAsOneList` | internal/capture/reconcile.go:15-103 | snapshot by snapshot is block by block over the whole capture |
| `ReconcileLaws.OneIdentityPerSignature` | internal/capture/reconcile.go:46-103 | ambiguous signatures, as `ReconcileOutcomes.AmbiguousIff` knows them, are untouched; all blocks of an unambiguous one with a stable block get one evidence key and one permalink |
| `ReconcileOutcomes.AmbiguousIff` | internal/capture/reconcile.go:20-51 | a signature is ambiguous if and only if two of its captures name different native identities, or a later capture differs from the first in a kind or an exact publication time that both know while some capture names no identity |
| `ReconcileOutcomes.AmbiguousCapturesAreUntouched` | internal/capture/reconcile.go:46-103 | every capture of such a signature is returned unchanged |
| `ReconcileOutcomes.CompatibleIff` | internal/capture/reconcile.go:105-132 | two captures are compatible exactly if no kind and no exact time that both know differs |
| `ReconcileOutcomes.LastStableCaptureNamesAll` | internal/capture/reconcile.go:53-103 | in an unambiguous signature every block takes the evidence key of its last stable capture, and the permalink and platform id where that has them |
| `ReconcileOutcomes.NothingToAdopt` | internal/capture/reconcile.go:53-103 | where no capture of a signature has an evidence key every block is returned unchanged |
| `ReconcileOutcomes.SignedIff` | internal/capture/reconcile.go:138-147 | captures without an author or with fewer than 80 bytes of normalised text have no signature and stay as they are; all others have one |
| `ReconcileOutcomes.SameIdentityIff` | internal/capture/reconcile.go:153-161 | two captures have one native identity exactly if their platform ids agree up to case and blanks, or, without any, their permalinks up to blanks |
| `ReconcileOutcomes.LaterContentsWin` | internal/capture/reconcile.go:163-207 | of two captures each content field is the later one's where it has any, and the text is the longer |
| `ReconcileLaws.NativeIdentityIsKept` | internal/capture/reconcile.go:153-161 | a block that had a trimmed native identity keeps it, if every block with a signature but without an identity has no id at all |
| `ReconcileLimits.UnanchoredBlocksBreakIdentity` | internal/capture/reconcile.go:149-161 | every block with a signature that breaks that condition has companions that keep it and with which an identity is lost |
| `ReconcileLaws.SignatureIsKept` | internal/capture/reconcile.go:138-147 | reconciling moves no block to another signature, if captures of one signature have one normalised author or texts of one length |
| `ReconcileLimits.InconsistentContentsBreakBothLaws` | internal/capture/reconcile.go:138-147 | any two contents that break this make a list of tidy captures on which the first pass moves a signature and the second pass changes a platform id |
| `ReconcileLimits.NulAuthorsCollide` | internal/capture/reconcile.go:138-147 | a NUL in an author makes such contents, if the norms fix the four strings used |
| `ReconcileLaws.PlainAuthorsAreConsistent` | internal/capture/reconcile.go:138-147 | authors without a NUL never do |
| `ReconcileLaws.ReconciliationIsIdempotentOnIdentity` | internal/capture/reconcile.go:46-103 | a second pass changes no evidence key, permalink or platform id, if captures of one signature have one author or texts of one length and blocks are tidy: no blank permalink without a platform id, no blank platform id without an evidence key |
| `ReconcileLimits.UntidyBlocksBreakIdempotence` | internal/capture/reconcile.go:91-98 | every block with a signature that is not tidy has tidy companions with which a second pass changes a platform id |
| `ReconcileProcedure.Observe` | internal/capture/reconcile.go:20-45 | one turn of the first pass extends the tables of identities, first captures, conflicts and fallbacks by one capture |
| `ReconcileProcedure.Consider` | internal/capture/reconcile.go:53-74 | one turn of the second pass extends the table of best captures |
| `ReconcileProcedure.Run` | internal/capture/reconcile.go:15-103 | the three passes compute the reconciliation that the laws are about, and so leave exactly the captures of ambiguous signatures of `AmbiguousIff` alone |
| `IssueTokens.TokensAreWellFormed` | internal/contentcontext/engine.go:1207-1251 | tokens are non-empty, in bounds, ordered and disjoint, and spell the text at their offsets |
| `IssueTokens.TokensAreTheMaximalRuns` | internal/contentcontext/engine.go:1207-1251 | exactly the maximal runs of letters or digits of at most 48 characters become tokens |
| `IssueTokens.RelatedTokens` | internal/contentcontext/engine.go:1207-1251 | the scanning loop finds those tokens |
| `IssueTokens.BoundedTwiceIsPrefix` | internal/contentcontext/engine.go:634-644 | offsets into a bounded field stay valid when the field is trimmed again |
| `IssueTokens.BreaksAre` | internal/contentcontext/engine.go:1207-1251 | a token stands behind a break exactly if only gap characters separate it from a break character before it |
| `IssueTokens.BoundedIs` | internal/contentcontext/engine.go:634-644 | a bounded field is the text without its outer blanks, cut to 1600 characters |
| `IssueOwners.MentionsAreSound` | internal/contentcontext/engine.go:664-737 | mentions are in bounds, non-empty, ordered and disjoint, carry only definitions and boundary names, and cover every place where a definition matches |
| `IssueOwners.IssueOwnerMentions` | internal/contentcontext/engine.go:664-737 | the scan and the grouping loop find those mentions |
| `IssueOwners.FindMention` | internal/contentcontext/engine.go:667-719 | the first longest definition with its aliases, else a boundary name, else nothing |
| `IssueOwners.NearestIsWithinReach` | internal/contentcontext/engine.go:752-776 | an explicit owner is at most 8 tokens ahead or 16 tokens back |
| `IssueOwners.NearestIssueOwner` | internal/contentcontext/engine.go:752-776 | the loop finds that owner |
| `IssueNearest.NearestIs` | internal/contentcontext/engine.go:752-776 | among ordered disjoint mentions the owner found is a mention if and only if it is the nearest ahead, within 8 tokens and with nothing behind the issue or a preposition leading to it, or, where no such one is, the nearest behind within 16; none is found exactly if there is neither |
| `IssueClauses.OwnerInClauseIs` | internal/contentcontext/engine.go:557-604 | the same in terms of the mentions of the whole field: the owner is the mention that counts in the issue's own clause |
| `IssueLaws.EvidenceIsJustified` | internal/contentcontext/engine.go:528-632 | every proof names a definition, its issue starts outside all mentions, its span lies in its field, an explicit owner is the mention that counts for that issue: in its clause, the nearest ahead within 8 tokens or else the nearest behind within 16; an inherited one was named before the issue in a clause that mentions nobody itself, and a summary proves only technical terms of a primary owner |
| `IssueLaws.BoundariesOwnNothing` | internal/contentcontext/engine.go:600-608 | a boundary name owns no proof unless a definition spells it, and there are at most 64 proofs |
| `IssueLaws.EvidenceIsComplete` | internal/contentcontext/engine.go:551-631 | conversely, in a record with at most 64 proofs every issue that a clause attributes to a name is among the evidence for that name |
| `IssueLaws.FieldEvidenceIsComplete` | internal/contentcontext/engine.go:557-629 | the same for every field, without the bound |
| `IssueOutcomes.NearestOwnersAreProved` | internal/contentcontext/engine.go:528-632 | conversely each definition named by the mention that counts for an issue has a proof of it, in a record with at most 64 |
| `IssueOutcomes.PrimaryAreMentioned` | internal/contentcontext/engine.go:537-556 | every primary owner is mentioned by some field other than a summary |
| `IssueOutcomes.MentionedArePrimary` | internal/contentcontext/engine.go:537-556 | and every name that such a field mentions is one |
| `IssueOutcomes.LongestDefinitionWins` | internal/contentcontext/engine.go:667-719 | where definitions match, the mention is named first by the first of the longest and spans it |
| `IssueOutcomes.HadIssueIff` | internal/contentcontext/engine.go:589-595 | a clause counts as one with an issue exactly if a token of it names an issue, is not excluded and is in no mention |
| `IssueProcedure.AddClauseProofs` | internal/contentcontext/engine.go:589-626 | the token loop of a clause, with its early exit at 64 proofs |
| `IssueProcedure.CollectEvidence` | internal/contentcontext/engine.go:537-632 | the field loop computes the evidence of a record |
| `IssueProcedure.RelatedIssueEvidence` | internal/contentcontext/engine.go:528-632 | the whole builder, with at most 32 definitions, does so |
| `RelatedScore.SharedMeansProvedTwice` | internal/contentcontext/engine.go:510-526 | two records share an issue of an owner exactly when each has a proof of it |
| `RelatedScore.SharedOwnedIssues` | internal/contentcontext/engine.go:510-526 | one term per common issue, as many terms as common issues |
| `RelatedScore.BestIsStrongest` | internal/contentcontext/engine.go:403-427 | no eligible name has a stronger match than the one admitted; `RelatedScore.BestIsACandidate` adds that it is the first of the strongest |
| `RelatedScore.BestIsACandidate` | internal/contentcontext/engine.go:403-427 | the match admitted is that of an eligible name, and every earlier eligible name is strictly weaker |
| `RelatedScore.AdmissionIsWitnessed` | internal/contentcontext/engine.go:363-447 | every identity or subject match is on a name of both records, and one owner and one issue are justified by the text of the query and of the candidate |
| `RelatedScore.AdmissionIsExact` | internal/contentcontext/engine.go:363-447 | exactly when a candidate is admitted, lane by lane |
| `RelatedScore.PhraseNeedsUnnamedCandidate` | internal/contentcontext/engine.go:428-447 | a phrase alone admits a query with owning subjects only if the candidate has no owning subject and no model identity; it never admits a query with a model identity |
| `RelatedOutcomes.PhraseAdmitsIff` | internal/contentcontext/engine.go:428-447 | a query with owning subjects and no identity is answered by a phrase exactly if no subject admits, the candidate shares and names nothing and a shared phrase has a feature word |
| `RelatedOutcomes.SharedSubjectsAre` | internal/contentcontext/engine.go:387-390 | a shared subject is an owning subject of the query that the candidate owns too or names in its texts |
| `RelatedOutcomes.SharedFocusIs` | internal/contentcontext/engine.go:383-389 | the shared focus is what both records focus on, before subjects of either are taken out |
| `RelatedOutcomes.SharedTermsAre` | internal/contentcontext/engine.go:510-526 | the shared terms are those of the first proof on each common issue, in their order |
| `RelatedOutcomes.FirstsAre` | internal/contentcontext/engine.go:510-526 | these positions are exactly the first proofs of the owner on issues that the other side proves of it too |
| `RelatedOutcomes.OwningSubjectsAre` | internal/contentcontext/engine.go:476-498 | a subject owns issues exactly if neither it nor a word of it is an issue or a technical term |
| `RelatedScore.ScoreRelatedCandidate` | internal/contentcontext/engine.go:363-447 | the procedure computes that decision |
| `Versions.VersionsAreTotallyPreordered` | internal/codexruntime/version.go:14-52 | comparison is sign-antisymmetric and transitive on all parsed versions, invalid ones included |
| `Versions.ComparisonIsSemVerPrecedence` | internal/codexruntime/version.go:14-110 | on valid versions whose identifiers are ordinary it is the precedence of section 11 of Semantic Versioning 2.0.0, where a number is any string of digits |
| `Versions.OrdinaryMeansReadAlike` | internal/codexruntime/version.go:104-110 | ordinary are exactly the identifiers that the integer parser and the standard read alike: numbers below 2^63, and texts that are not a signed number it accepts |
| `Versions.UnusualIdentifierIsMisordered` | internal/codexruntime/version.go:83-102 | every other identifier has an ordinary partner that the comparison puts on the wrong side or holds equal |
| `Versions.LongNumbersAreMisordered` | internal/codexruntime/version.go:83-102 | two numbers of at least 2^63 compare as text, so in the wrong order when the larger one begins with the smaller digit |
| `Versions.LongNumbersExist` | internal/codexruntime/version.go:104-110 | such a pair: 10000000000000000000 and 9999999999999999999 |
| `VersionParsing.ParseReadsBack` | internal/codexruntime/version.go:54-81 | whatever precedes it and whatever white space follows, a well-formed version is read as it is spelled and its build is ignored; exactly a core number beyond 63 bits makes it invalid |
| `VersionParsing.MalformedCoreIsInvalid` | internal/codexruntime/version.go:54-81 | a text whose core has not exactly three parts, or one that is not digits, is invalid |
| `VersionParsing.EmptyPrereleaseIsInvalid` | internal/codexruntime/version.go:54-81 | so is one with a hyphen and nothing behind it |
| `VersionSelection.ComparePrereleases` | internal/codexruntime/version.go:40-51 | the identifier loop computes that comparison |
| `VersionSelection.CompareCodexVersions` | internal/codexruntime/version.go:14-52 | the whole comparison does |
| `VersionSelection.SelectHighestVersion` | internal/codexruntime/discovery.go:139-165 | the first candidate maximal by version and then file time among those that validate, with one attempt record per rejected candidate in order |
| `VersionSelection.FirstMaximalIsUnique` | internal/codexruntime/discovery.go:139-165 | that candidate is unique |
| `VersionSelection.SelectedIsNewest` | internal/codexruntime/discovery.go:139-165 | it has the highest version, the latest file time among those, and is the first of the rest |
| `VersionSelection.AttemptsAreTheRejected` | internal/codexruntime/discovery.go:139-165 | the attempts are the rejected candidates, all of them, in order |
| `Backoff.BackoffIsExactIff` | internal/batchbehavior/policy.go:53-68 | the loop computes min(base * 2^(k-1), max) for every run length if and only if no doubling of the base equals max - 1, as every even maximum guarantees |
| `Backoff.BackoffInRange` | internal/batchbehavior/policy.go:53-68 | no intermediate value exceeds the maximum |
| `Backoff.DelayIsBoundedAndMonotone` | internal/batchbehavior/policy.go:31-79 | the delay grows with the run of failures and lies between the interval and max(interval, maximum) plus jitter |
| `Backoff.AdmissionNeverReverts` | internal/batchbehavior/policy.go:31-79 | for a history the decision turns from refusal to admission at most once, at the computed instant, and never back; disabled policies and empty histories always admit, running captures never do |
| `Backoff.FurtherFailureHurriesIff` | internal/batchbehavior/policy.go:44-74 | one more temporary failure admits earlier exactly when the jitter, drawn from the newest id, shrinks by more than the failure postpones |
| `Backoff.FurtherFailureNeverHurriesIff` | internal/batchbehavior/policy.go:44-74 | it never does, whatever the samples, if and only if it postpones by at least the configured jitter |
| `Backoff.AdmittedFailureNeverHurries` | internal/batchbehavior/policy.go:69-79 | the failure of a capture that was itself admitted never does |
| `Backoff.FurtherFailureCanHurry` | internal/batchbehavior/policy.go:44-74 | a history in which it does, from instant 120 to 61 |
| `Backoff.RunBackoff` | internal/batchbehavior/policy.go:53-68 | the loop over the leading run of temporary failures |
| `Backoff.LeadingRunIsMaximal` | internal/batchbehavior/policy.go:54-57 | the run counted is the longest prefix of temporary failures |
| `Backoff.BudgetCodesAreTemporary` | internal/batchbehavior/policy.go:88-98 | each of the five codes, behind either route prefix or both in order, is temporary if it may be retried |
| `Backoff.TemporaryCodesAreBudgetCodes` | internal/batchbehavior/policy.go:88-98 | and nothing else is |
| `Backoff.JitterIsCut` | internal/batchbehavior/policy.go:44-50 | a sample that is no number or negative gives no jitter, one above 1 the whole jitter, any other its share |
| `Backoff.ShareIsWhole` | internal/batchbehavior/policy.go:73-73 | that share is the product with the sample, cut to whole units |
| `Backoff.Decide` | internal/batchbehavior/policy.go:31-79 | when a capture is admitted, when it may be and why not |

## Left out

- Generations, request ids and counters are unbounded; the 64-bit wrap-around of the source is not modelled.
- `Others` and `Meanwhile` take no step themselves; their contracts stand for the other goroutines, and callers rely on the contracts alone.
- Processes, windows, jobs and pipes are foreign code: they appear only through the results they return.
- Random startup tokens are numbered in the order they are drawn, so two draws never coincide; the constant-time comparison is an equality.
- `ShellObjects.StartupObject.Acknowledge`: the checks on method, origin, host and fetch-site are one flag.
- The concurrent and synthetic session hooks of the coordinator, status texts, exit and timing observers, and polling intervals are not modelled; a time-out is a step that may happen at any moment.
- The transport's `Call` is a sequence of steps of the transition system; the object's methods are its critical sections and are not composed into one call.
- The JSON envelopes of the transport are not modelled: a reply is its id. An error reply is a reply.
- `Framing.SendAndReceive`: frames are NUL-free, as JSON text is.
- Merge keys of relations are tuples; the source joins the parts with newlines, so that parts containing newlines can collide there.
- `DirectContext.MergedTargetKeepsFreshestBody`: needs the availability rules of validation (internal/domain/direct_context.go:122-127); the other validation rules are single checks and are left out.
- The laws of reconciliation hold for any merge of the details that carry no identity; `Reconcile.WithDetails` names the actual one.
- Extraction of model identities, subjects and focus phrases, measurement marking, retrieval ranking and the wording of match reasons are not modelled; the extraction is a parameter of the admission.
- `IssueLaws.EvidenceIsComplete`: a record with more than 64 proofs keeps the first 64, and nothing is stated about the others.
- `Versions.ComparisonIsSemVerPrecedence`: identifiers that the standard forbids, such as empty ones and numbers with leading zeros, are accepted by the source and compared like the others.
- `VersionSelection.SelectHighestVersion`: resolving and validating a candidate is an input, and its version is already parsed.
- `Backoff.Decide`: the jitter fraction is a real number or not a number; rounding of the floating-point product is not modelled.
- Acquisition planning, stores, configuration, credentials, executable discovery on disk, AI text detection and the user interface are not part of this model.
