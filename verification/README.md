# A model of the Lean RPC bridge's runtime bookkeeping

The bridge lets Lean programs use Cap'n Proto RPC: Lean holds 32-bit ids, and one worker thread keeps the tables
behind them. This project models those tables, the queue in front of the worker, the dispatch of calls to Lean
handlers, the in-process vat network and the registry of payload references, and proves what the tables promise over
whole runs.

Most modules have the same shape. The operations are specified as functions on a `State`, errors being results and
not exceptions; the lemmas are about these functions and about runs of them. Beside them stands a class with the
fields of the code, whose methods follow the code's branches and loops and are proved equal to the functions. `Abs()`
is the state a class stands for. What only an observer knows (histories, logs, who else holds a reference) is ghost
or named as such.

| module | what it models |
|---|---|
| `Words` | 32-bit words, results, opaque capabilities |
| `IdAllocator` | the wrap-around id search that every table uses |
| `TargetTable`, `TargetRuns`, `TargetOrigins`, `RuntimeTargets`, `RuntimeRuns` | capability ids and the connections they keep alive: meaning, runs, what an id stands for, the reference-counted code, and its runs |
| `PromiseCapabilities`, `PromiseSettlements` | promise capabilities with resolves held back and flushed, and what settles them |
| `MapSums` | sums of multisets over the values of a map |
| `KjPromises`, `KjUses`, `KjOutcomes` | KJ promise ids as linear resources, good for one use, and what the combinators wait for |
| `WorkQueue`, `WorkOutcomes` | enqueue, worker, tasks and shutdown as a state machine, and what completions are set to |
| `LittleEndian`, `CapTable` | byte forms of capability tables, pipeline paths and traces |
| `RemoteExceptions`, `HandlerActions` | exception types and their tags, and the decoder of an advanced handler's nested result |
| `Dispatch`, `DispatchAnswers`, `DispatchServers` | calls to plain, tail-call and advanced handlers: their outcomes, which request ids survive them, and the servers |
| `DeferredTasks` | cancellation of deferred Lean tasks |
| `VatNetwork`, `VatConnections`, `ThirdParty`, `Rendezvous`, `Handoff` | vats in one process, their connections over time, forwarding of introductions, exchanges by token, and the whole of a handoff |
| `MultiVat`, `Restorers` | named peers, their sturdy refs and their restorers |
| `PayloadRefs`, `PayloadContents` | payload refs, the Lean reference counts behind them, and what is kept under an id |

Most classes have a `Valid()` that their methods keep.

Ids have 32 bits and wrap. Where a promise needs that they have not wrapped, the lemma says so by a bound on the
number of ids issued. Five promises do not hold as one might expect. Each is stated with its exact condition, and with
a run or an input that fails it:

- the counts of connections after the id counter has wrapped (`RuntimeRuns.RightAlongIff`,
  `RuntimeRuns.ReusedOwnerIdLosesConnection`),
- the completeness of the connection index (`VatNetwork.ConnectKeepsCompleteIff`, `VatNetwork.IndexMissesAnOldEnd`),
- the failing of queued operations (`WorkQueue.FailPendingExact`, `WorkQueue.UnhandledOperationStaysOpen`),
- the cleanup of request ids when a call is deferred (`Dispatch.CallLeavesRequestIdsIff`, `Dispatch.SomeCallsLeak`),
- the order of an action's wrappers (`HandlerActions.OrderFreeIff`, `HandlerActions.WrapperOrderMatters`).

`dafny verify dfyconfig.toml` checks the project.

## Model

| member | source | states |
|---|---|---|
| `IdAllocator.NextFreeExists` | ffi/rpc_bridge_runtime.cpp:4275-4282 | the id search has something to find from every counter value, wrap-around included, whenever fewer than 2^32 ids are in use (pigeonhole over the counter's cycle) |
| `IdAllocator.Allocate` | ffi/rpc_bridge_runtime.cpp:4275-4282 | the post-increment loop ends; it returns the first unused id at or cyclically after the counter, and leaves the counter one past it |
| `IdAllocator.NextFreeUnwrapped` | ffi/rpc_bridge_runtime.cpp:4275-4282 | while all ids in use lie below the counter, the counter itself is the next id |
| `TargetTable.ReleaseManyExact` | ffi/rpc_bridge_runtime.cpp:5479-5488 | releasing a list drops exactly the nonzero ids before the first unknown or repeated one, and fails exactly when there is such an id, naming it |
| `TargetTable.DropAllTwice` | ffi/rpc_bridge_runtime.cpp:5451-5458 | releases commute: only the union of the released ids matters, for targets and connections alike |
| `TargetTable.DropKeepsValid` | ffi/rpc_bridge_runtime.cpp:5451-5458 | after any release the connections on file are exactly those some live id still keeps |
| `TargetRuns.PeerOpenIffDescendantLive` | ffi/rpc_bridge_runtime.cpp:3537-3576 | over any run issuing fewer than 2^32 - 1 ids, a connection is open exactly while some live id descends, by any chain of retains and tail calls, from the id it was opened under, also after that first id is gone |
| `TargetRuns.RunKeepsInv` | ffi/rpc_bridge_runtime.cpp:5451-5488 | every run of registrations, connects, retains, tail calls and releases, failing ones included, keeps the ownership maps equal to what the history of the run says |
| `TargetRuns.DescendsIffRoot` | ffi/rpc_bridge_runtime.cpp:5460-5471 | the owner kept per id stands for the whole chain of retains that led to it |
| `TargetRuns.FreshIdHasNoPeer` | ffi/rpc_bridge_runtime.cpp:4275-4282 | before the counter wraps, a new id has no connection filed under it, which adopting a connection relies on |
| `TargetOrigins.LiveIdsStandForTheirOrigin` | ffi/rpc_bridge_runtime.cpp:4963-4976 | over any run issuing fewer than 2^32 - 1 ids: an id is live exactly if it was issued and not released since, and stands for the capability its oldest ancestor was registered with, inside one forwarder per tail call on the way, whichever of its ancestors are live |
| `TargetOrigins.IssuedCap` | ffi/rpc_bridge_runtime.cpp:5460-5471 | what each kind of registration files under its new id: the given capability, the source's own for a retain, a forwarder to the source's for a tail call |
| `RuntimeTargets.RetainKeepsCounted` | ffi/rpc_bridge_runtime.cpp:3537-3552 | one more id for an owner raises its count by one, the count stays the number of ids it owns unless it is at 2^32 - 1, and fewer than 2^32 - 1 owned ids keep it below that |
| `RuntimeTargets.ReleaseKeepsCounted` | ffi/rpc_bridge_runtime.cpp:3554-3576 | one id fewer lowers the owner's count, which was at least one; with the last id the owner and its connection go, and only then |
| `RuntimeTargets.RetainInRefines` | ffi/rpc_bridge_runtime.cpp:3537-3552 | while the counts are exact, what the code does to its maps means the derivation of an id, and leaves them exact if and only if the owner's count is not full, the 32-bit overflow included |
| `RuntimeTargets.ReleaseInRefines` | ffi/rpc_bridge_runtime.cpp:3554-3576 | while the counts are exact, what the code does to its maps is the removal of an id, and leaves them exact |
| `RuntimeTargets.AdoptInExactIff` | ffi/rpc_bridge_runtime.cpp:6210-6212 | filing a new connection keeps the counts exact if and only if none is filed under the id yet; the id search alone does not check that |
| `RuntimeTargets.ReleaseAllInRefines` | ffi/rpc_bridge_runtime.cpp:5479-5488 | releasing a list, failing part-way or not, agrees with the specification and keeps the counts exact |
| `RuntimeRuns.RightAlongIff` | ffi/rpc_bridge_runtime.cpp:3537-3576 | wherever the id counter stands and however often it has wrapped: the maps are right after every step of a run if and only if no connection is opened under an id that one is on file under and no count overflows, and then the run does to the table what the specification says |
| `RuntimeTargets.OverflowTakesAllIds` | ffi/rpc_bridge_runtime.cpp:3537-3552 | a count can overflow only when no more than one of the 2^32 ids is free |
| `RuntimeRuns.CountsAreExact` | ffi/rpc_bridge_runtime.cpp:3537-3576 | over any run issuing fewer than 2^32 - 1 ids the code's maps stand for the specified table, and every reference count is the number of ids its owner has |
| `RuntimeRuns.ReusedOwnerIdLosesConnection` | ffi/rpc_bridge_runtime.cpp:4275-4282 | a run from the start, once round the id counter, in which the search reissues an owner id: two ids own one connection, one is counted, and releasing the other closes it under a live id |
| `RuntimeRuns.MoveCounter` | ffi/rpc_bridge_runtime.cpp:4275-4282 | runs that register and release move the id counter by any amount and change nothing else, so that every counter value is met |
| `RuntimeTargets.PeerOwnership.Retain` | ffi/rpc_bridge_runtime.cpp:3537-3552 | the new maps for old maps of any content, exact or not |
| `RuntimeTargets.PeerOwnership.Release` | ffi/rpc_bridge_runtime.cpp:3554-3576 | the new maps for old maps of any content; the connection goes with the last id counted |
| `RuntimeTargets.PeerOwnership.Adopt` | ffi/rpc_bridge_runtime.cpp:6210-6212 | three insertions that leave entries which are there; exact counts stay exact if and only if no connection is on file under the id |
| `RuntimeTargets.TargetStore.AddTarget` | ffi/rpc_bridge_runtime.cpp:4275-4282 | a new id, unused before, filed for the capability, all other ids as they were; connections unchanged |
| `RuntimeTargets.TargetStore.RegisterLoopbackTarget` | ffi/rpc_bridge_runtime.cpp:6189-6214 | a new id that owns a new loopback connection; the maps stay right exactly if no connection is filed under that id |
| `RuntimeTargets.TargetStore.RegisterLoopbackBootstrapTarget` | ffi/rpc_bridge_runtime.cpp:6221-6228 | the same for a bootstrap target that has to be known; unknown ones change nothing |
| `RuntimeTargets.TargetStore.ConnectTargetPeer` | ffi/rpc_bridge_runtime.cpp:5738-5753 | a new id that owns a new network connection; the maps stay right exactly if no connection is filed under that id |
| `RuntimeTargets.TargetStore.RetainTarget` | ffi/rpc_bridge_runtime.cpp:5460-5471 | a new id filed for the very same capability, with the same connections, or an error that changes nothing; the maps stay right exactly unless a count overflows |
| `RuntimeTargets.TargetStore.RegisterTailCallTarget` | ffi/rpc_bridge_runtime.cpp:4963-4976 | a new id filed for a forwarder to the target's capability, which keeps the connections of the target, or an error that changes nothing; the maps stay right exactly unless a count overflows |
| `RuntimeTargets.TargetStore.DropTargetIfPresent` | ffi/rpc_bridge_runtime.cpp:5451-5458 | exactly one id is dropped from targets and both ownership triples |
| `RuntimeTargets.TargetStore.ReleaseTarget` | ffi/rpc_bridge_runtime.cpp:5473-5477 | the same, with an error for an unknown id |
| `RuntimeTargets.TargetStore.ReleaseTargets` | ffi/rpc_bridge_runtime.cpp:5479-5488 | the release loop equals the list release of the specification, on the error path too |
| `PromiseCapabilities.HoldThenFlushIsFulfillNow` | ffi/rpc_bridge_runtime.cpp:5537-5590 | from nothing held, the same requests get the same verdicts with hold on as with hold off, and one flush then leaves the same fulfillers and the same settlements in the same order; new promises, new targets and flushes may come between |
| `PromiseCapabilities.EveryRunIsSound` | ffi/rpc_bridge_runtime.cpp:5515-5628 | over any run issuing fewer than 2^32 - 1 ids, the held queue has no fulfiller twice, its ids are exactly the id set, all are pending, none waits for null or itself, and every fulfiller is settled at most once |
| `PromiseCapabilities.FlushExact` | ffi/rpc_bridge_runtime.cpp:5580-5590 | a flush settles the queue in order up to the first entry whose target is gone, loses that entry alone with its fulfiller still pending, and keeps the rest of the queue in order |
| `PromiseCapabilities.FlushSucceedsIff` | ffi/rpc_bridge_runtime.cpp:5580-5590 | a flush succeeds exactly when every held target is still registered |
| `PromiseCapabilities.StepAgrees` | ffi/rpc_bridge_runtime.cpp:5537-5628 | each single operation, failing ones included, keeps queue, id set and fulfiller table in agreement |
| `PromiseCapabilities.WithoutFirstExact` | ffi/rpc_bridge_runtime.cpp:5567-5578 | dropping a held resolve removes that fulfiller's entry and no other |
| `PromiseSettlements.EveryPromiseIsPendingOrSettledOnce` | ffi/rpc_bridge_runtime.cpp:5515-5628 | over any run issuing fewer than 2^32 - 1 ids every promise made is still pending or has been settled exactly once, and never both |
| `PromiseSettlements.StepSettles` | ffi/rpc_bridge_runtime.cpp:5515-5628 | which settlements each request makes, in order, and that the promises they settle, and no others, leave the table |
| `PromiseSettlements.RejectExact` | ffi/rpc_bridge_runtime.cpp:5598-5616 | a pending promise is rejected with the given type, message and detail, leaves the table and loses its held resolve, the rest of the queue in order; an unknown one is an error that changes nothing |
| `PromiseSettlements.ReleaseExact` | ffi/rpc_bridge_runtime.cpp:5618-5628 | a release rejects a pending promise as disconnected; an unknown one is no error and changes nothing |
| `PromiseSettlements.FulfillExact` | ffi/rpc_bridge_runtime.cpp:5537-5565 | accepted exactly for a pending fulfiller with nothing held and a live target that is neither null nor its own; then held, or fulfilled with the target's capability at once |
| `PromiseSettlements.FulfillError` | ffi/rpc_bridge_runtime.cpp:5515-5565 | which error refuses a resolve, in the order checked |
| `PromiseSettlements.RejectedForGood` | ffi/rpc_bridge_runtime.cpp:5598-5616 | whatever follows, a rejection stays where it is in the record, and the promise is neither resolved nor rejected again |
| `PromiseCapabilities.RuntimePromises.NewPromiseCapability` | ffi/rpc_bridge_runtime.cpp:5490-5498 | two new ids, with the fulfiller knowing its own promise's target |
| `PromiseCapabilities.RuntimePromises.PromiseCapabilityFulfillNow` | ffi/rpc_bridge_runtime.cpp:5515-5535 | checks in the code's order; settles exactly one fulfiller or changes nothing |
| `PromiseCapabilities.RuntimePromises.PromiseCapabilityFulfill` | ffi/rpc_bridge_runtime.cpp:5537-5565 | held, settled at once, or refused |
| `PromiseCapabilities.RuntimePromises.DropHeldPromiseCapabilityResolve` | ffi/rpc_bridge_runtime.cpp:5567-5578 | the search loop removes exactly the fulfiller's entry |
| `PromiseCapabilities.RuntimePromises.FlushHeldPromiseCapabilityResolves` | ffi/rpc_bridge_runtime.cpp:5580-5590 | the flush loop equals the flush of the specification, also when it throws part-way |
| `PromiseCapabilities.RuntimePromises.PromiseCapabilityReject` | ffi/rpc_bridge_runtime.cpp:5598-5616 | reads the type's tag, rejects a pending promise with exactly this exception and takes it out of the table; nothing is settled for an unknown one |
| `PromiseCapabilities.RuntimePromises.PromiseCapabilityRelease` | ffi/rpc_bridge_runtime.cpp:5618-5628 | an unknown fulfiller is no error; a pending one is rejected as released |
| `KjPromises.PromisesAreLinear` | ffi/rpc_bridge_runtime.cpp:4311-4471 | over any run, wrapped ids included, each primitive promise occurs at most once across all trees of live ids, task sets and promises handed to waiters, and live and retired ids are disjoint and together all ids issued |
| `KjPromises.CombineExact` | ffi/rpc_bridge_runtime.cpp:4382-4435 | a combination succeeds exactly if all its ids are live and pairwise distinct, retires them and adds one unused id for the combined tree; a failing one retires exactly the valid prefix, adds nothing, and says whether the id it stopped at was used up or never known |
| `KjPromises.CombineConserves` | ffi/rpc_bridge_runtime.cpp:4382-4435 | a successful combination keeps every primitive promise; a failing one loses exactly those of the promises taken before it failed |
| `KjPromises.BuildKeepsLeaves` | ffi/rpc_bridge_runtime.cpp:4382-4435 | a combined promise is made of exactly the primitive promises of its parts, for then, catch, all and race |
| `KjUses.UsedOnce` | ffi/rpc_bridge_runtime.cpp:4328-4463 | an id is good for one use: once a wait, a release, a combination or a task set has had its promise, every later combination and task set is refused it, and waiting for it or releasing it again does nothing, for as long as ids do not wrap |
| `KjUses.AwaitExact` | ffi/rpc_bridge_runtime.cpp:4344-4357 | waiting retires a live id and hands its primitives to the waiter; a used id is accepted, one never issued is an error, and nothing else changes |
| `KjUses.ReleaseExact` | ffi/rpc_bridge_runtime.cpp:4370-4380 | releasing retires a live id and drops its promise; a used id is accepted, one never issued is an error, and nothing else changes |
| `KjUses.AddTaskExact` | ffi/rpc_bridge_runtime.cpp:4455-4463 | a live promise joins the set's tasks at the end and its id is retired; otherwise nothing changes, and the error says why |
| `KjUses.TaskSetEmptied` | ffi/rpc_bridge_runtime.cpp:4448-4471 | a clear leaves the set without its tasks, a release takes it away, and both drop exactly the primitives of its tasks |
| `KjOutcomes.CombineMeans` | ffi/rpc_bridge_runtime.cpp:4382-4435 | given when and how every primitive promise ends: then succeeds if both parts do and ends with the first if that fails, catch succeeds if either does and waits for its fallback only if needed, all waits for every part and succeeds if all do, a race ends as the first part to end |
| `KjPromises.AddTaskConserves` | ffi/rpc_bridge_runtime.cpp:4455-4463 | moving a promise into a task set neither loses nor copies a primitive promise |
| `KjPromises.StepKeepsInv` | ffi/rpc_bridge_runtime.cpp:4311-4471 | each single operation keeps linearity and the partition of the issued ids |
| `KjPromises.KjAsyncPromises.AddKjAsyncPromise` | ffi/rpc_bridge_runtime.cpp:4311-4319 | a new id, taken out of the retired ones if it was there |
| `KjPromises.KjAsyncPromises.TakeKjAsyncPromise` | ffi/rpc_bridge_runtime.cpp:4328-4342 | live ids are retired and handed over; the error tells used ids from unknown ones |
| `KjPromises.KjAsyncPromises.AwaitKjAsyncPromise` | ffi/rpc_bridge_runtime.cpp:4344-4357 | a live promise is taken for waiting, a retired id is accepted and waits for nothing |
| `KjPromises.KjAsyncPromises.ReleaseKjAsyncPromise` | ffi/rpc_bridge_runtime.cpp:4370-4380 | a live promise is retired, a retired id is accepted |
| `KjPromises.KjAsyncPromises.KjAsyncPromiseThenStart` | ffi/rpc_bridge_runtime.cpp:4382-4391 | takes left to right; equals the two-id combination |
| `KjPromises.KjAsyncPromises.KjAsyncPromiseCatchStart` | ffi/rpc_bridge_runtime.cpp:4393-4406 | takes left to right; equals the two-id combination |
| `KjPromises.KjAsyncPromises.KjAsyncPromiseAllStart` | ffi/rpc_bridge_runtime.cpp:4408-4417 | the loop equals the combination of any number of ids, none included |
| `KjPromises.KjAsyncPromises.KjAsyncPromiseRaceStart` | ffi/rpc_bridge_runtime.cpp:4419-4435 | the loop of exclusive joins equals the combination of one id or more; an empty list is refused |
| `KjPromises.KjAsyncPromises.KjAsyncTaskSetNew` | ffi/rpc_bridge_runtime.cpp:4437-4446 | a new empty task set under an unused id |
| `KjPromises.KjAsyncPromises.KjAsyncTaskSetRelease` | ffi/rpc_bridge_runtime.cpp:4448-4453 | the set goes with its tasks; an unknown id is an error |
| `KjPromises.KjAsyncPromises.KjAsyncTaskSetAddPromise` | ffi/rpc_bridge_runtime.cpp:4455-4463 | the set is checked before the promise is taken |
| `KjPromises.KjAsyncPromises.KjAsyncTaskSetClear` | ffi/rpc_bridge_runtime.cpp:4465-4471 | the set stays without its tasks |
| `WorkQueue.ExitLeavesNothingOpen` | ffi/rpc_bridge_runtime.cpp:6258-6314 | over any interleaving: once the worker has left its loop, queue, tasks, promises and active cancelers are empty, everything accepted was handled, in the order accepted, and every completion ever handed out is set exactly once, to a refusal exactly if its operation came after the stop |
| `WorkQueue.NoCompletionIsSetTwice` | ffi/rpc_bridge_runtime.cpp:2512-2526 | in every reachable state no completion is set twice and handled, current and queued operations are the accepted ones in order |
| `WorkQueue.StopIsFinal` | ffi/rpc_bridge_runtime.cpp:2490-2502 | after the stop nothing is accepted any more, whatever steps follow |
| `WorkQueue.WorkIsBounded` | ffi/rpc_bridge_runtime.cpp:6300-6330 | after the stop the pops, handlings and task ends of any run are limited by what was queued, in hand and scheduled at the stop |
| `WorkQueue.WorkFalls` | ffi/rpc_bridge_runtime.cpp:6300-6330 | the measure, three per queued operation, two for the one in hand, one per task, falls at each of the worker's steps and is raised by no step after the stop |
| `WorkQueue.WorkerCanLeave` | ffi/rpc_bridge_runtime.cpp:6300-6314 | from every reachable state after the stop there are steps, no more than the measure and one, after which the worker has left |
| `WorkQueue.StepKeepsInv` | ffi/rpc_bridge_runtime.cpp:6258-6330 | every step keeps: one place per completion, order of handling, and each active canceler owned by a task |
| `WorkQueue.FailPendingExact` | ffi/rpc_bridge_runtime.cpp:8217-8507 | failing the queued operations answers those before the first of the two kinds without a case and none from there on, so it answers all if and only if the queue holds no such operation |
| `WorkQueue.UnhandledOperationStaysOpen` | ffi/rpc_bridge_runtime.cpp:8217-8507 | a run in which that happens: an operation of such a kind is queued, and neither it nor the one behind it is answered |
| `WorkQueue.NothingToFail` | ffi/rpc_bridge_runtime.cpp:8183 | after the normal exit failing the queued operations does nothing |
| `WorkOutcomes.AwaitExact` | ffi/rpc_bridge_runtime.cpp:7364-7379 | a promise awaited leaves the table for a task of the completion, with an active canceler; awaiting an unknown one fails the completion and changes nothing else |
| `WorkOutcomes.ReleaseExact` | ffi/rpc_bridge_runtime.cpp:4887-4899 | a release takes a pending promise, else the canceler of one being awaited, and succeeds; with neither it fails and changes nothing else |
| `WorkOutcomes.OthersExact` | ffi/rpc_bridge_runtime.cpp:6331-6375 | a started promise enters the table, a call goes on as a task, and every other operation completes at once as it ended |
| `WorkOutcomes.FinishExact` | ffi/rpc_bridge_runtime.cpp:6258-6298 | a task's end sets its completion to just that outcome and takes its canceler along |
| `WorkOutcomes.EnqueueExact` | ffi/rpc_bridge_runtime.cpp:2512-2526 | queued last with its completion open before the stop, refused after it |
| `WorkOutcomes.OutcomeIsFinal` | ffi/rpc_bridge_runtime.cpp:6258-6330 | what a completion was set to it stays, in any run |
| `WorkOutcomes.AwaitedOnce` | ffi/rpc_bridge_runtime.cpp:7364-7379 | after one await or release of a promise, in any run, every later await of it fails for good unless it was started anew |
| `WorkQueue.RuntimeQueue.EnqueueWithCompletion` | ffi/rpc_bridge_runtime.cpp:2512-2526 | the critical section of every enqueue: refused with the completion set, or queued last |
| `WorkQueue.RuntimeQueue.Shutdown` | ffi/rpc_bridge_runtime.cpp:2490-2502 | sets the stop flag once |
| `WorkQueue.RuntimeQueue.TakeOperation` | ffi/rpc_bridge_runtime.cpp:6300-6314 | the worker's critical section: pop the front, leave exactly when stopping with queue and tasks empty, or go on waiting |
| `WorkQueue.RuntimeQueue.AwaitPromise` | ffi/rpc_bridge_runtime.cpp:7364-7379 | an unknown promise fails the completion; a known one leaves the table, its canceler becomes active and a task owns the completion |
| `WorkQueue.RuntimeQueue.ReleasePromise` | ffi/rpc_bridge_runtime.cpp:4887-4899 | a pending promise goes, else an active canceler, else it is an error |
| `WorkQueue.RuntimeQueue.TaskDone` | ffi/rpc_bridge_runtime.cpp:6258-6298 | the continuation drops the active canceler and sets the completion |
| `WorkQueue.RuntimeQueue.FailPendingCalls` | ffi/rpc_bridge_runtime.cpp:8217-8507 | the loop equals the specification, ending at the failing assertion if there is one |
| `HandlerActions.DecodeAction` | ffi/rpc_bridge_runtime.cpp:4136-4258 | the peeling loop ends on every action and computes the meaning of its list of wrappers: flags are or-ed, the innermost exception type wins, a second pipeline fails |
| `HandlerActions.DecodeFromMeaning` | ffi/rpc_bridge_runtime.cpp:4150-4211 | accumulating from the outside in agrees with reading the whole list of wrappers at once |
| `HandlerActions.OrderFreeIff` | ffi/rpc_bridge_runtime.cpp:4150-4211 | every permutation of the wrappers decodes to the same result if and only if the exception wrappers name one type, a pipeline is set twice or the innermost action is unknown |
| `HandlerActions.WrapperOrderIsFree` | ffi/rpc_bridge_runtime.cpp:4150-4211 | any permutation of the wrappers decodes to the same result if the exception wrappers name one type |
| `HandlerActions.WrapperOrderMatters` | ffi/rpc_bridge_runtime.cpp:4180-4201 | if they name two types and decoding succeeds, some permutation decodes to another result |
| `HandlerActions.EveryWrapperCounts` | ffi/rpc_bridge_runtime.cpp:4150-4211 | each wrapper, wherever it is in the list, raises the flags it raises, the innermost exception wrapper sets the type, and a pipeline is the one set |
| `HandlerActions.NothingElseIsAsked` | ffi/rpc_bridge_runtime.cpp:4150-4211 | no option is set that no wrapper asks for |
| `HandlerActions.DecodingFailsIff` | ffi/rpc_bridge_runtime.cpp:4150-4211 | decoding fails exactly for two pipelines, wherever they are, or else for an unknown innermost action |
| `RemoteExceptions.ExceptionTypeRoundTrip` | lean/Capnp/Rpc.lean:175-186 | every exception type survives being sent as its tag and read back, and tags that no type has are read as a failure |
| `DispatchServers.LeanServers.DispatchPlain` | ffi/rpc_bridge_runtime.cpp:3772-3821 | whatever the handler does, on a normal return the request ids named by the response stay, and on any throw none of them |
| `DispatchServers.LeanServers.DispatchTailCall` | ffi/rpc_bridge_runtime.cpp:3840-3875 | only the id forwarded to can stay, and none does when the handler fails or names an unknown id |
| `DispatchServers.LeanServers.DispatchAdvanced` | ffi/rpc_bridge_runtime.cpp:3894-3923 | unless the call waits, the request ids left are exactly those the handler did not drop and the bytes of its answer encode, whatever throws on the way, and the cleanup takes effect exactly once |
| `DispatchServers.LeanServers.DispatchDecodedAction` | ffi/rpc_bridge_runtime.cpp:3965-4095 | the verdict of each branch on an action, waiting for a task that has already failed included, and which of the throwing branches have cleaned up by themselves |
| `DispatchAnswers.RequestIdStaysIff` | ffi/rpc_bridge_runtime.cpp:3894-4121 | over a whole call with any number of deferrals and any other work between them, read off the bytes returned: a request id that nobody else has dropped stays if and only if the call still waits or was dropped waiting, it was ended by its first continuation leaving the cleanup, or the capability table of its answer encodes the id |
| `DispatchAnswers.AnswerExact` | ffi/rpc_bridge_runtime.cpp:4008-4024 | an answer whose bytes encode some ids answers with just these, fails for an unreadable payload or else at the first id neither null nor live, or streams them; broken bytes throw |
| `DispatchAnswers.ForwardExact` | ffi/rpc_bridge_runtime.cpp:4026-4080 | what is forwarded is the action's target, interface, method, payload, capabilities, hints and place for results; unknown targets, unsendable payloads and misplaced pipeline hints throw |
| `DispatchAnswers.WaitsIff` | ffi/rpc_bridge_runtime.cpp:4089-4121 | a call waits exactly for a task that has not failed already, with options that fit; a failed one throws its failure |
| `DispatchAnswers.MisfitExact` | ffi/rpc_bridge_runtime.cpp:3973-4006 | the reason options are refused for, the first that applies, always cleaned up after |
| `DispatchAnswers.RefusalsExact` | ffi/rpc_bridge_runtime.cpp:4096-4109 | the handler's or task's own failures, undecodable actions and late options are passed on as what they are |
| `DispatchAnswers.ThrownExceptionArrives` | ffi/rpc_bridge_runtime.cpp:4082-4086 | from end to end: a thrown exception arrives with the type it was thrown with, its message and its detail |
| `DispatchAnswers.RequestTableExact` | ffi/rpc_bridge_runtime.cpp:3584-3619 | each entry of the request's table stands for its capability by the id at its place, and a null entry has 0 there |
| `DispatchAnswers.ImportAdds` | ffi/rpc_bridge_runtime.cpp:3584-3619 | importing a request adds its ids to the table and changes no other id |
| `DispatchAnswers.PlainAcceptedIff` | ffi/rpc_bridge_runtime.cpp:3790-3821 | a plain answer is accepted exactly if it can be read and its bytes encode ids that are null or live; otherwise the error says why |
| `Dispatch.CallLeavesRequestIdsIff` | ffi/rpc_bridge_runtime.cpp:4096-4121 | which calls end without their cleanup: exactly those still waiting, and those whose first continuation answers with broken ids, forwards to a live target what cannot be sent, or waits for a task that has failed already |
| `Dispatch.NestedChainCleans` | ffi/rpc_bridge_runtime.cpp:4110-4116 | from the second deferral on, whatever ends the call cleans up, because the first continuation's error handler is above it |
| `Dispatch.LeaksIffUncleaned` | ffi/rpc_bridge_runtime.cpp:3965-4121 | the continuations that throw past their own error handler, in terms of the action's bytes and the live ids |
| `Dispatch.SomeCallsLeak` | ffi/rpc_bridge_runtime.cpp:4096-4121 | two concrete calls after which a request id is live for good |
| `DispatchServers.LeanServers.ResumeDeferred` | ffi/rpc_bridge_runtime.cpp:4096-4121 | one continuation: what the nested dispatch leaves is cleaned up exactly if an earlier continuation's error handler is above it |
| `DispatchServers.LeanServers.FinishDeferred` | ffi/rpc_bridge_runtime.cpp:4096-4121 | all continuations of a call, with other work between them, equal the chain of the specification |
| `Dispatch.RequestIdsLeft` | ffi/rpc_bridge_runtime.cpp:3621-3656 | after a cleaned-up dispatch a request id is left exactly if the handler did not drop it and the branch keeps it, and no other id has gone but the caps of a streaming response |
| `Dispatch.RequestIdsAreFresh` | ffi/rpc_bridge_runtime.cpp:3584-3619 | request ids are new, nonzero and pairwise distinct |
| `Dispatch.KeptLookups` | ffi/rpc_bridge_runtime.cpp:3807-3810 | dropping the request ids a response does not name does not change what the response finds |
| `Dispatch.AcceptedIff` | ffi/rpc_bridge_runtime.cpp:3973-4087 | an action is carried out exactly when its options fit its kind and it answers or forwards readable bytes whose table encodes only null and live ids, to a live target, or waits for a task that has not failed already |
| `DispatchServers.LeanServers.EncodeRequest` | ffi/rpc_bridge_runtime.cpp:3584-3619 | one id per capability of the request in order, 0 for a null entry, and the table written byte by byte |
| `DispatchServers.LeanServers.DropRequestCaps` | ffi/rpc_bridge_runtime.cpp:3621-3625 | exactly the given ids go |
| `DispatchServers.LeanServers.DropRequestCapsExcept` | ffi/rpc_bridge_runtime.cpp:3627-3646 | exactly the given ids go, but for the nonzero ones to keep |
| `DispatchServers.LeanServers.DropRequestCapsExceptOne` | ffi/rpc_bridge_runtime.cpp:3648-3656 | exactly the given ids go, but for 0 and the one to keep |
| `DispatchServers.LeanServers.FindUnknown` | ffi/rpc_bridge_runtime.cpp:3678-3689 | the lookup loop stops at the first nonzero unknown id |
| `DispatchServers.LeanServers.SetRequestPayload` | ffi/rpc_bridge_runtime.cpp:5002-5010 | an empty payload may not come with capabilities |
| `DispatchServers.LeanServers.SetContextPipeline` | ffi/rpc_bridge_runtime.cpp:3725-3750 | the ways a pipeline payload is refused, in order |
| `DispatchServers.LeanServers.CheckOptions` | ffi/rpc_bridge_runtime.cpp:3973-4006 | the checks before the kind of action is looked at; each cleans up before it throws |
| `DispatchServers.LeanServers.CleanupRequestCaps` | ffi/rpc_bridge_runtime.cpp:3933-3940 | takes effect once; later calls change nothing |
| `DispatchServers.LeanServers.AnswerCall` | ffi/rpc_bridge_runtime.cpp:4008-4024 | the verdict's ids are those the bytes encode; an answer keeps the request ids among them, a streaming one gives up the response's too, and an answer succeeds exactly if it is readable and names only null and live ids |
| `DispatchServers.LeanServers.ForwardCall` | ffi/rpc_bridge_runtime.cpp:4026-4080 | a forward keeps nothing; a bad table or payload throws before anything is released |
| `DeferredTasks.ReleaseCancelsTheOldest` | ffi/rpc_bridge_runtime.cpp:5132-5150 | releasing a pending call cancels the oldest task that can be cancelled, in all respects just that one, and the entries discarded on the way could not be cancelled |
| `DeferredTasks.ToldOncePerRole` | ffi/rpc_bridge_common.cpp:159-173 | over any run, its destructor included, a deferred task tells a Lean task to cancel once for each role it has it in, to wait for or to cancel, if cancellation was requested, and never otherwise |
| `DeferredTasks.StaysUncancellable` | ffi/rpc_bridge_runtime.cpp:5142-5150 | a task that cannot be cancelled never becomes cancellable again, so nothing discarded from the queue is missed later |
| `DeferredTasks.ImmuneIsNeverTold` | ffi/rpc_bridge_common.cpp:159-173 | a task that completed before it was asked to cancel, or that does not allow it, is never told to, in any run, its destructor included |
| `DeferredTasks.RequestExact` | ffi/rpc_bridge_common.cpp:159-171 | a request takes effect exactly on a task that allows it, is not completed and has had none, and tells first the Lean task to cancel and then the one waited for |
| `DeferredTasks.DestroyExact` | ffi/rpc_bridge_common.cpp:173 | the last reference going is such a request |
| `DeferredTasks.DeferredLeanTaskState.CancelsAreEvents` | ffi/rpc_bridge_common.cpp:166-169 | with a holder for each role a Lean task is told once for each role it has |
| `DeferredTasks.CancelOneExact` | ffi/rpc_bridge_runtime.cpp:5142-5150 | the popping loop cancels the first cancellable entry and leaves what came after it |
| `DeferredTasks.ReleaseCancelsNothingElse` | ffi/rpc_bridge_runtime.cpp:5132-5136 | an unknown pending call cancels nothing, and neither does a known one with nothing to cancel |
| `DeferredTasks.StepKeepsInv` | ffi/rpc_bridge_runtime.cpp:4089-4095 | every step keeps the queue in order of age and holding every cancellable task |
| `DeferredTasks.DeferredLeanTaskState.RequestCancellation` | ffi/rpc_bridge_common.cpp:159-171 | cancels exactly a task that allows it, is not completed and was not asked before; both Lean tasks, unless one holder is in both places |
| `DeferredTasks.DeferredLeanTaskState.Destroy` | ffi/rpc_bridge_common.cpp:173 | the destructor asks for cancellation, which has effect under the same conditions and tells the same Lean tasks |
| `DeferredTasks.PendingCalls.DeferTask` | ffi/rpc_bridge_runtime.cpp:4244-4253 | the two tasks get holders of their own, and only a task that allows cancellation is queued |
| `DeferredTasks.PendingCalls.CancelOneActiveDeferredTask` | ffi/rpc_bridge_runtime.cpp:5142-5150 | the first task of the queue that can be cancelled is cancelled and its Lean tasks are told, the queue is what came after it, and no other task changes |
| `DeferredTasks.PendingCalls.ReleasePendingCall` | ffi/rpc_bridge_runtime.cpp:5132-5140 | an unknown call changes nothing; a known one goes, with the effect of the loop |
| `VatNetwork.LookupsNeverDangle` | ffi/rpc_bridge_generic_vat.cpp:70-100 | over any interleaving of connects and destructions, partner links are symmetric with matching names, a lookup never yields a connection that is destroyed, unique or between other vats, and accepting never one that is destroyed or of another vat |
| `VatNetwork.StepKeepsInv` | ffi/rpc_bridge_generic_vat.cpp:70-100 | each connect and each destruction keeps pairs and index right |
| `VatNetwork.ConnectReaches` | ffi/rpc_bridge_generic_vat.cpp:382-401 | connecting to a known vat ends in a live connection of the right vats that is not unique |
| `VatNetwork.ConnectKeepsCompleteIff` | ffi/rpc_bridge_generic_vat.cpp:391-401 | a new pair makes the index lose a live connection exactly if it is not unique and the far vat still has a connection back |
| `VatNetwork.IndexMissesAnOldEnd` | ffi/rpc_bridge_generic_vat.cpp:84-91 | a run in which that happens: the index misses a live connection |
| `VatNetwork.DestroyKeepsComplete` | ffi/rpc_bridge_generic_vat.cpp:84-91 | a destruction loses nothing the index had in full |
| `VatConnections.AcceptedInOrder` | ffi/rpc_bridge_generic_vat.cpp:351-353 | over any run a vat accepts the connections made to it in the order they were made, each once, and those not accepted yet are the ones in its queue |
| `VatConnections.ConnectExact` | ffi/rpc_bridge_generic_vat.cpp:382-401 | the four outcomes of a connect: none for the vat itself, an error for an unknown host, the indexed connection with nothing changed, or a new pair, always new if it is to be unique |
| `VatConnections.NewPairExact` | ffi/rpc_bridge_generic_vat.cpp:391-401 | the two ends of a new pair, what the index then finds, and that no other connection changes |
| `VatConnections.ConnectAgainIsSame` | ffi/rpc_bridge_generic_vat.cpp:382-401 | asking again for a connection that is not unique gives the same one and changes nothing |
| `VatConnections.DestroyExact` | ffi/rpc_bridge_generic_vat.cpp:84-91 | the end goes, its partner has none any more, its place in the index is free, and everything else stays |
| `VatConnections.DestroyedForGood` | ffi/rpc_bridge_generic_vat.cpp:84-91 | a destroyed connection is never found, connected to or accepted again, in any run |
| `VatNetwork.GenericVatNetwork.Add` | ffi/rpc_bridge_generic_vat.cpp:403-412 | vat names are taken for good |
| `VatNetwork.GenericVatNetwork.ConnectionImpl` | ffi/rpc_bridge_generic_vat.cpp:70-82 | a connection that is not unique takes its vat's index entry |
| `VatNetwork.GenericVatNetwork.Attach` | ffi/rpc_bridge_generic_vat.cpp:93-100 | both ends learn each other and each other's vat |
| `VatNetwork.GenericVatNetwork.ConnectByVatId` | ffi/rpc_bridge_generic_vat.cpp:382-401 | none for the vat itself, an error for an unknown host, the indexed connection if any and not unique is asked for, otherwise a new pair, with the demands of attach met |
| `VatNetwork.GenericVatNetwork.AcceptConnection` | ffi/rpc_bridge_generic_vat.cpp:351-353 | the oldest connection queued for the vat, each once |
| `VatNetwork.GenericVatNetwork.DestroyConnection` | ffi/rpc_bridge_generic_vat.cpp:84-91 | the index entry and the partner's link go |
| `Handoff.HandoffDelivers` | ffi/rpc_bridge_generic_vat.cpp:271-335 | from end to end: over any route with forwarding allowed, the token the last vat completes with is the introduction's, and it receives the value awaited under it, in either order, if and only if the token is not released between the two |
| `ThirdParty.ForwardedContactArrivesIff` | ffi/rpc_bridge_generic_vat.cpp:271-311 | a contact forwarded over any number of attached connections passes every sender check; it arrives, with its original path and token, if and only if forwarding is enabled at each vat on the way; every vat before the first that refuses counts one forward, and that one a denial |
| `ThirdParty.ForwardedContactConnects` | ffi/rpc_bridge_generic_vat.cpp:282-290 | and connects the last vat, if it is not the host itself, to the peer of the connection introduced, with the token to complete |
| `ThirdParty.ContactReachesHost` | ffi/rpc_bridge_generic_vat.cpp:282-290 | a contact from its sender yields its token and a live connection of this vat to the contact's host, none exactly if that is here |
| `ThirdParty.ForwardExact` | ffi/rpc_bridge_generic_vat.cpp:301-311 | a contact passes on exactly if forwarding is enabled and it comes from the vat it was sent by, then with path and token as they were; otherwise nothing changes |
| `ThirdParty.ConnectToIntroducedExact` | ffi/rpc_bridge_generic_vat.cpp:282-290 | only the vat a contact was sent by can introduce; for any other it is an error that changes nothing |
| `ThirdParty.IntroduceExact` | ffi/rpc_bridge_generic_vat.cpp:271-280 | the counter goes on by one, its new value is the token, and the path leads to the peer of the other connection |
| `ThirdParty.TokensDiffer` | ffi/rpc_bridge_generic_vat.h:55 | of any introductions made one after the other, two share a token exactly if a multiple of 2^64 lies between them |
| `ThirdParty.ThirdPartyHandoff.Introduce` | ffi/rpc_bridge_generic_vat.cpp:271-280 | the contact, for one connection's peer, and the host, the other connection's peer, get the same token; the path leads to the host |
| `ThirdParty.ThirdPartyHandoff.CanForwardThirdPartyToContact` | ffi/rpc_bridge_generic_vat.cpp:291-299 | a denial is counted |
| `ThirdParty.ThirdPartyHandoff.ForwardThirdPartyToContact` | ffi/rpc_bridge_generic_vat.cpp:301-311 | checks in order, then one forward counted and the sender replaced |
| `ThirdParty.ThirdPartyHandoff.ConnectIntroduced` | ffi/rpc_bridge_generic_vat.cpp:282-290 | a contact from elsewhere than its sender is refused |
| `Rendezvous.RendezvousIsOrderIndependent` | ffi/rpc_bridge_generic_vat.cpp:313-335 | with one await per token, the completion receives that awaiter's value whether it came before or after, under any interleaving with other tokens, if and only if the token is not released between the two |
| `Rendezvous.FirstAwaitWins` | ffi/rpc_bridge_generic_vat.cpp:313-335 | with any number of awaits, the completion receives the value of the first one since the token's last release, whether it came before or after, and later values change nothing |
| `Rendezvous.NothingReceived` | ffi/rpc_bridge_generic_vat.cpp:313-335 | a completion that a release separates from every await with its token never receives anything |
| `Rendezvous.ValueStays` | ffi/rpc_bridge_generic_vat.cpp:367-376 | operations with other tokens never touch the value of an exchange |
| `Rendezvous.ReleaseCutsOff` | ffi/rpc_bridge_generic_vat.cpp:378-380 | a release cuts its token off from the exchange for good |
| `Rendezvous.GenericVatExchanges.GetThirdPartyExchange` | ffi/rpc_bridge_generic_vat.cpp:367-376 | the token's exchange, or a new one |
| `Rendezvous.GenericVatExchanges.AwaitThirdParty` | ffi/rpc_bridge_generic_vat.cpp:313-329 | fulfills the token's exchange, once |
| `Rendezvous.GenericVatExchanges.CompleteThirdParty` | ffi/rpc_bridge_generic_vat.cpp:330-335 | waits on the token's exchange |
| `Rendezvous.GenericVatExchanges.EraseThirdPartyExchange` | ffi/rpc_bridge_generic_vat.cpp:378-380 | the token has no exchange any more |
| `MultiVat.PublishedIsRestored` | ffi/rpc_bridge_runtime.cpp:4746-4848 | a published object is restored, by any peer and under the host's name, to a new id for the same capability until it is replaced, unpublished, cleared or its host released, even if the published target id is gone |
| `MultiVat.NamesAndPeersAgree` | ffi/rpc_bridge_runtime.cpp:4523-4547 | over any run names and peers are inverse to each other, and only peers have stores, none of them empty |
| `MultiVat.ReleasedHostIsUnknown` | ffi/rpc_bridge_runtime.cpp:4592-4600 | the host name of a released peer is unknown to every later restore, however the run goes on |
| `MultiVat.ReleasedNameIsGone` | ffi/rpc_bridge_runtime.cpp:4556-4563 | because the network keeps the name taken, no new peer can have it |
| `MultiVat.UnpublishedIsUnknown` | ffi/rpc_bridge_runtime.cpp:4768-4799 | after an unpublish or a clear the restore fails, saying whether the host has anything else published |
| `Restorers.RestorerAnswers` | ffi/rpc_bridge_runtime.cpp:4818-4848 | from the time a host is given a restorer until that is replaced or cleared or the host released, in any run, every restore at the host is answered by it, whatever is published: the target it names is retained under a new id, and its failure or an unknown target is the restore's |
| `Restorers.RestoreByRestorer` | ffi/rpc_bridge_runtime.cpp:4822-4836 | one such restore: the very capability the named target stands for, with its connections |
| `Restorers.SetRestorerExact` | ffi/rpc_bridge_runtime.cpp:4730-4744 | the restorer of that peer and nothing else |
| `Restorers.NewPeerExact` | ffi/rpc_bridge_runtime.cpp:4556-4577 | a new id under a free name, or the error for a taken name or an unknown bootstrap target |
| `Restorers.PublishExact` | ffi/rpc_bridge_runtime.cpp:4746-4755 | the target's capability under that object, all else as it was, or an error that changes nothing |
| `MultiVat.StepKeepsInv` | ffi/rpc_bridge_runtime.cpp:4523-4600 | each single operation keeps names, peers and stores in agreement |
| `MultiVat.MultiVatPeers.AddMultiVatPeer` | ffi/rpc_bridge_runtime.cpp:4523-4531 | an unused id, entered in both tables |
| `MultiVat.MultiVatPeers.NewMultiVatClient` | ffi/rpc_bridge_runtime.cpp:4556-4563 | a taken name is refused |
| `MultiVat.MultiVatPeers.NewMultiVatServer` | ffi/rpc_bridge_runtime.cpp:4565-4577 | the bootstrap target is checked before the name |
| `MultiVat.MultiVatPeers.ReleaseMultiVatPeer` | ffi/rpc_bridge_runtime.cpp:4592-4600 | peer, name and store go together |
| `MultiVat.MultiVatPeers.MultiVatSetRestorer` | ffi/rpc_bridge_runtime.cpp:4730-4736 | replaces the restorer of a known peer |
| `MultiVat.MultiVatPeers.MultiVatClearRestorer` | ffi/rpc_bridge_runtime.cpp:4738-4744 | removes the restorer of a known peer |
| `MultiVat.MultiVatPeers.MultiVatPublishSturdyRef` | ffi/rpc_bridge_runtime.cpp:4746-4755 | stores the capability, not the target id; peer and target are checked first |
| `MultiVat.MultiVatPeers.MultiVatUnpublishSturdyRef` | ffi/rpc_bridge_runtime.cpp:4768-4784 | three errors in order; the last ref takes the store along |
| `MultiVat.MultiVatPeers.MultiVatClearPublishedSturdyRefs` | ffi/rpc_bridge_runtime.cpp:4796-4799 | the store goes |
| `MultiVat.MultiVatPeers.MultiVatRestoreSturdyRef` | ffi/rpc_bridge_runtime.cpp:4818-4848 | errors in order; with a restorer its answer retained, connections and all, otherwise the stored capability under a new id; the maps stay right exactly unless the retain overflows a count |
| `PayloadRefs.ReferencesAreConserved` | ffi/rpc_bridge_payload_ref.cpp:35-115 | over any run, from any counter value, the count of every byte array is its references outside plus one per table slot and handle slot naming it, one object in both slots included; when table and handles are gone nothing has leaked |
| `PayloadRefs.NothingIsDroppedTwice` | ffi/rpc_bridge_payload_ref.cpp:81-115 | every reference a release, reset or bulk release gives up is there to be given up |
| `PayloadContents.RetainYieldsWhatWasRegistered` | ffi/rpc_bridge_payload_ref.cpp:35-79 | what was registered under an id is what every later retain of it yields, slot by slot, in any run, until its own runtime gives the id back |
| `PayloadContents.RetainYieldsRawBytes` | ffi/rpc_bridge_payload_ref.cpp:54-79 | the same for the raw bytes of a call result |
| `PayloadContents.GivenBackIsGone` | ffi/rpc_bridge_payload_ref.cpp:81-98 | a release takes the id out with every reference it held, leaves all others, and no retain finds it until it is issued again |
| `PayloadContents.RuntimeGivesBackItsOwn` | ffi/rpc_bridge_payload_ref.cpp:100-115 | a bulk release removes exactly the runtime's entries and counts them |
| `PayloadContents.MoveHandsOverAllSlots` | ffi/rpc_bridge_payload_ref.h:55-66 | a move hands over every slot, leaves an empty handle, gives up what it overwrites, and does nothing to itself |
| `PayloadContents.HandleGivesUpItsOwn` | ffi/rpc_bridge_payload_ref.h:70-80 | a reset or destruction gives up one reference per slot that held one, and changes nothing else |
| `PayloadContents.TakenBytesAreTheCallers` | ffi/rpc_bridge_payload_ref.h:130-140 | taking bytes empties that slot and moves its reference to the caller |
| `PayloadRefs.StepKeepsInv` | ffi/rpc_bridge_payload_ref.cpp:35-115 | each register, retain, release, move, take, reset and bulk release keeps the counts conserved and the table's entries whole |
| `PayloadRefs.PayloadRefRegistry.AllocateRuntimePayloadRefIdLocked` | ffi/rpc_bridge_payload_ref.cpp:25-31 | with fewer than 2^32 - 1 refs live the loop ends, from any counter value, with the first nonzero unused id cyclically after the counter |
| `PayloadRefs.PayloadRefRegistry.RegisterRuntimePayloadRef` | ffi/rpc_bridge_payload_ref.cpp:35-53 | null bytes are refused before anything happens; with retained inputs the counts rise, otherwise the caller's references move into the table |
| `PayloadRefs.PayloadRefRegistry.RegisterFromRawCallResult` | ffi/rpc_bridge_payload_ref.cpp:54-64 | an entry of raw bytes under a new id; no Lean count changes |
| `PayloadRefs.PayloadRefRegistry.RetainRuntimePayloadRef` | ffi/rpc_bridge_payload_ref.cpp:66-79 | none for an unknown id, otherwise a handle with the entry's message, capability and raw bytes each in its own slot, and references of its own |
| `PayloadRefs.PayloadRefRegistry.ReleaseRuntimePayloadRef` | ffi/rpc_bridge_payload_ref.cpp:81-98 | unknown and foreign refs change nothing; otherwise entry and references go |
| `PayloadRefs.PayloadRefRegistry.ReleaseRuntimePayloadRefsForRuntime` | ffi/rpc_bridge_payload_ref.cpp:100-115 | the erasing loop, in any order, removes and counts exactly the runtime's entries and gives up exactly their references |
| `PayloadRefs.RetainedRuntimePayloadRef.MoveFrom` | ffi/rpc_bridge_payload_ref.h:46-53 | the references move and the source is left empty |
| `PayloadRefs.RetainedRuntimePayloadRef.MoveAssign` | ffi/rpc_bridge_payload_ref.h:55-66 | a self-move changes nothing; otherwise the old references are given up first |
| `PayloadRefs.RetainedRuntimePayloadRef.Reset` | ffi/rpc_bridge_payload_ref.h:70-80 | gives up exactly what the handle held |
| `PayloadRefs.RetainedRuntimePayloadRef.TakeMessageBytes` | ffi/rpc_bridge_payload_ref.h:130-134 | the reference goes to the caller |
| `PayloadRefs.RetainedRuntimePayloadRef.TakeCapBytes` | ffi/rpc_bridge_payload_ref.h:136-140 | the reference goes to the caller |
| `CapTable.CapsRoundTrip` | ffi/rpc_bridge_common.cpp:103-113 | encoding and decoding capability tables are mutual inverses over all id lists and byte strings, and exactly the lengths that are no multiple of 4 are refused |
| `CapTable.OpsRoundTrip` | ffi/rpc_bridge_common.cpp:122-132 | the same for pipeline paths and multiples of 2 |
| `CapTable.DecodeCapTable` | ffi/rpc_bridge_common.cpp:103-113 | the reading loop equals the decoding |
| `CapTable.DecodePipelineOps` | ffi/rpc_bridge_common.cpp:122-132 | the reading loop equals the decoding |
| `CapTable.ReadUint32Le` | ffi/rpc_bridge_common.cpp:57-62 | four bytes as a number, least significant first |
| `CapTable.ReadUint16Le` | ffi/rpc_bridge_common.cpp:64-67 | two bytes as a number, least significant first |
| `CapTable.AppendUint32Le` | ffi/rpc_bridge_common.cpp:80-85 | the four bytes of a number at the end |
| `CapTable.AppendUint16Le` | ffi/rpc_bridge_common.cpp:87-90 | the two bytes of a number at the end |
| `CapTable.AppendCapTable` | ffi/rpc_bridge_runtime.cpp:5056-5066 | the appending loop equals the encoding |
| `CapTable.WriteCapTable` | ffi/rpc_bridge_runtime.cpp:3597-3618 | the hand-inlined writer into a buffer of final size equals the encoding |
| `CapTable.AppendTrace` | ffi/rpc_bridge_runtime.cpp:4710-4716 | a trace is encoded as a pipeline path is |
| `LittleEndian.DecodeOfEncode` | ffi/rpc_bridge_common.cpp:57-90 | words of any width survive encoding and decoding |
| `LittleEndian.EncodeOfDecode` | ffi/rpc_bridge_common.cpp:103-132 | and so do byte strings of whole words |
| `LittleEndian.BytesAt` | ffi/rpc_bridge_common.cpp:80-90 | the byte at place i of a word has the weight 256^i |

## Left out

- KJ and Cap'n Proto: message readers, the RPC system, event-loop scheduling and how a primitive promise ends are library code. Whether a message reader accepts a payload is an input (`Dispatch.Environment`), and so is how a task ends.
- Sockets, listeners, transports, servers, timers, the wake-up pipe, flow limits, queue metrics, diagnostics and trace encoders are not modelled.
- `ffi/rpc_bridge.cpp` wraps each operation in an enqueue and a wait; it would only add easy members.
- The worker's exit by an exception is modelled only in what it does to the queue (`WorkQueue.FailPendingExact`); tasks dropped with the event loop, and completions they own, are not.
- The worker's operations beyond the awaits, starts and releases of register and unit promises are one kind of work that succeeds or fails at once; canceling a promise is among them, since it changes no table.
- WorkQueue.RuntimeQueue: the event-loop part of the worker loop is the `Finish` steps, taken in any order between the worker's own.
- Threads: each critical section of the queue is one step; the memory order of the atomics is not modelled.
- DispatchServers.LeanServers.EncodeRequest: the code writes each id into the buffer as it issues it; the model writes the buffer after the last id. Nothing reads it in between.
- Dispatch: a handler is any sequence of table operations and a reply. Calls it makes over the network, and the Lean reference counts of its arguments, are not modelled.
- DispatchServers.LeanServers.ResumeDeferred: the cleanup by an earlier continuation's error handler is part of the step; in the code it comes one turn of the event loop later. A call dropped while it waits is a chain that goes no further.
- PromiseCapabilities: targets are a plain table of ids, without the connections they keep alive.
- KjPromises: cancel changes no table and appears in runs only. The error log of a task set is not modelled.
- KjOutcomes: that a join waits for all its parts and that of two promises ending at once the earlier in a race counts is how the library's joins are taken; cancellation has no part in it.
- ThirdParty: the connections of a route do not change while a contact is on its way; whether forwarding is enabled can.
- MultiVat: a server's factory is not distinguished from a client.
- MultiVat.MultiVatPeers.MultiVatRestoreSturdyRef: what a restorer does to the targets while it runs is taken as steps before the restore; that it leaves names, peers and sturdy refs alone is an assumption.
- VatNetwork: connections are numbered entries of a table, not objects with references to each other, so reference counting of connections is the choice of when to destroy, except that one waiting to be accepted is not. Vats are not destroyed. Message queues, idle shutdown and embargo ids are not modelled.
- PayloadRefs: contents of byte arrays, the sharing count of raw bytes and the marking of objects as shared between threads are not modelled. Reference counts do not overflow.
- DeferredTasks: `alive` stands for the strong references; the weak queue is cleared only with the runtime. The runs number the tasks, the class has them as objects.
- The 64-bit readers and appenders are the 32-bit ones twice over and used by no table here.
