# Background task queue — Dafny model

A model of the core of an in-process background-task library for ASP.NET
Core: producers call `Send` on the `BackgroundTaskProvider`, which resolves
the handler type of the request by scanning the application's own
assemblies, wraps request and handler type in an `InvokePackage`, and writes
it to the bounded `BackgroundTaskQueue`. The `TaskQueuedHostedService`
dequeues packages one at a time, runs their handlers, and on a handler
failure may put the package back at the end of the queue, counting failures
per package in a ledger until `MaxRetryTime` is exceeded.

Modules, one per class of the core:

- `Results`: `Option` (a reference that may be null), `Result` and the exceptions thrown.
- `Runtime`: C# `int` with unchecked increment, ordinal `StartsWith`, reflected type descriptors, requests, cancellation tokens.
- `InvokePackage`: the work item, with `id` standing for object identity.
- `BackgroundTaskQueue`: the bounded FIFO queue as a `seq` plus a capacity, its three enqueue overloads, dequeue, and the `Capacity`/`Instance()` statics.
- `BackgroundTaskProvider`: `GetCurrentPathAssembly`, the handler search (a recursive reference definition and the loop as written, proved equal), and both `Send` overloads.
- `TaskQueuedHostedService`: options, the two constructors, `IncFalidCount`, `BackToQueued`, the retry gate and one iteration of the dispatch loop.
- `Pipeline`: the provider and the dispatcher sharing the one queue, with fresh package identities.

Blocking is not modelled as time passing. A write to a full queue returns
`Waiting`: nothing is written and nothing is dropped. A read from an empty
queue returns `Empty`, and the dispatcher step is `Idle`. The handler run
is an input, `Succeeded` or `Failed`. The stopping token is a boolean
checked at the top of each loop iteration.

Behaviour of the code that the model keeps:
- Handler-instance resolution (`GetRequiredService`) sits inside the same
  `try` as the handler call. A failure to resolve is therefore caught
  like any handler failure and is retried under the same gate.
- A request type with several handlers is not rejected. The last handler
  of the first assembly that has one wins.
- The failure count is a C# `int` incremented unchecked. With
  `MaxRetryTime = int.MaxValue` the count wraps to `int.MinValue`, and the
  package keeps being retried (`CountWrapsAtInt32Max`).

## Model

| member | source | states |
|---|---|---|
| `InvokePackage.New` | src/BackgroundTask/InvokePackage.cs:38-42 | the three-argument constructor stores exactly the given request and handler type, leaves the retry flag at its `false` default and does not store the token |
| `InvokePackage.NewWithRetry` | src/BackgroundTask/InvokePackage.cs:44-47 | the four-argument constructor gives the same request and handler type, sets the retry flag to `enableRetry`, and also leaves the token at its default |
| `InvokePackage.ConstructorsAgree` | src/BackgroundTask/InvokePackage.cs:38-58 | the token argument never influences the package; the four-argument constructor with `false` equals the three-argument one, and otherwise differs only in the retry flag |
| `BackgroundTaskQueue.Create` | src/BackgroundTask/BackgroundTaskQueue.cs:47-62 | construction fails with an argument error exactly when `Capacity <= 0`, otherwise yields an empty queue of that capacity |
| `BackgroundTaskQueue.WriteAsync` | src/BackgroundTask/BackgroundTaskQueue.cs:57-61 | a bounded channel in wait mode: a write to a full queue waits, otherwise the item goes to the back |
| `BackgroundTaskQueue.EnqueuePackage` | src/BackgroundTask/BackgroundTaskQueue.cs:87-95 | a null package is rejected with an argument-null error; otherwise it is appended at the back, or the call waits when the queue is full |
| `BackgroundTaskQueue.EnqueueRequest` | src/BackgroundTask/BackgroundTaskQueue.cs:97-105 | a null request is rejected; otherwise exactly one new package with the given request and handler type, the new identity, retry off and the token left at its default is appended after the old contents |
| `BackgroundTaskQueue.EnqueueRequestWithRetry` | src/BackgroundTask/BackgroundTaskQueue.cs:107-115 | as the three-argument overload, with the package's retry flag equal to `enableRetry`; the token is not stored either |
| `BackgroundTaskQueue.Dequeue` | src/BackgroundTask/BackgroundTaskQueue.cs:80-85 | a read returns the oldest item and leaves the rest in order, freeing a slot; an empty queue makes the reader wait |
| `BackgroundTaskQueue.EnqueueAllFits` | src/BackgroundTask/BackgroundTaskQueue.cs:57-61 | a run of writes all complete exactly when they fit within the capacity, and then append in order; the queue never exceeds its capacity |
| `BackgroundTaskQueue.DrainAllIsFifo` | src/BackgroundTask/BackgroundTaskQueue.cs:80-95 | reading until empty returns the items oldest first |
| `BackgroundTaskQueue.FillThenDrain` | src/BackgroundTask/BackgroundTaskQueue.cs:54-95 | an empty queue of capacity c accepts exactly c writes and returns the items in the order written |
| `BackgroundTaskQueue.InterleavedWriteRead` | src/BackgroundTask/BackgroundTaskQueue.cs:80-95 | the interleaved write/read sequence i1; i1, i2; i3 reads back i1, i1, i2, i3 |
| `BackgroundTaskQueue.BackpressureAtCapacityTwo` | src/BackgroundTask/BackgroundTaskQueue.cs:57-61 | at capacity 2 a third write waits until a read returns the first item and frees its slot |
| `BackgroundTaskQueue.Instance` | src/BackgroundTask/BackgroundTaskQueue.cs:64-74 | the first successful call builds the queue from the current `Capacity` and keeps it; later calls return it unchanged; a failed construction stores nothing |
| `BackgroundTaskQueue.InstanceIgnoresLaterCapacity` | src/BackgroundTask/BackgroundTaskQueue.cs:64-74 | once an instance exists, changing `Capacity` (even to a value construction rejects) does not change the queue returned |
| `BackgroundTaskQueue.InstanceFromInitial` | src/BackgroundTask/BackgroundTaskQueue.cs:45-74 | from the initial statics, `Instance()` fails for every non-positive capacity and succeeds with an empty queue for every positive one |
| `BackgroundTaskProvider.GetCurrentPathAssembly` | src/BackgroundTask/BackgroundTaskProvider.cs:100-117 | every assembly returned comes from a library whose name starts with neither "Microsoft" nor "System" and whose type is "project", and every such library is loaded |
| `BackgroundTaskProvider.GetCurrentPathAssemblyAppend` | src/BackgroundTask/BackgroundTaskProvider.cs:102-116 | the filter keeps the original order: the result for a concatenation is the concatenation of the results |
| `BackgroundTaskProvider.GetCurrentPathAssemblySingle` | src/BackgroundTask/BackgroundTaskProvider.cs:102-113 | a single library is loaded exactly when it passes both name tests and is of type "project" |
| `BackgroundTaskProvider.LastHandler` | src/BackgroundTask/BackgroundTaskProvider.cs:81-90 | within one assembly the scan yields a non-abstract class implementing the handler interface for the request type, and yields nothing exactly when the assembly has none |
| `BackgroundTaskProvider.FindHandler` | src/BackgroundTask/BackgroundTaskProvider.cs:75-93 | whatever the search yields is a non-abstract class implementing the handler interface for the request's exact runtime type |
| `BackgroundTaskProvider.FindHandlerSound` | src/BackgroundTask/BackgroundTaskProvider.cs:78-93 | a found handler sits in the first assembly containing any handler, and no later type of that assembly is a handler |
| `BackgroundTaskProvider.FindHandlerComplete` | src/BackgroundTask/BackgroundTaskProvider.cs:78-93 | the last handler of the first assembly with a handler is the one returned; later assemblies are not consulted |
| `BackgroundTaskProvider.FindHandlerNone` | src/BackgroundTask/BackgroundTaskProvider.cs:78-95 | the search finds nothing exactly when no scanned assembly contains a handler |
| `BackgroundTaskProvider.HandlerTypeOf` | src/BackgroundTask/BackgroundTaskProvider.cs:73-98 | the result is a handler for the request's runtime type, or the exception whose message names `request` |
| `BackgroundTaskProvider.HandlerTypeOfFails` | src/BackgroundTask/BackgroundTaskProvider.cs:77-95 | resolution fails exactly when no project library (neither "Microsoft" nor "System", type "project") holds a non-abstract class handling the request's runtime type |
| `BackgroundTaskProvider.GetHandlerType` | src/BackgroundTask/BackgroundTaskProvider.cs:73-98 | the nested loops with their `break` compute the same result as the reference search |
| `BackgroundTaskProvider.Send` | src/BackgroundTask/BackgroundTaskProvider.cs:53-58 | a null request is rejected with an argument-null error before anything else; an unresolvable request fails with the not-found exception; otherwise exactly one package with that request, the resolved handler type, retry off and no stored token is appended, or the call waits on a full queue |
| `BackgroundTaskProvider.SendWithRetry` | src/BackgroundTask/BackgroundTaskProvider.cs:66-71 | as `Send`, with the appended package's retry flag equal to `enableRetry` |
| `BackgroundTaskProvider.SendOverloadsAgree` | src/BackgroundTask/BackgroundTaskProvider.cs:53-71 | `Send(request)` behaves as `Send(request, false)` |
| `TaskQueuedHostedService.NewService` | src/BackgroundTask/TaskQueuedHostedService.cs:46-53 | the options-less constructor leaves options and ledger null |
| `TaskQueuedHostedService.NewServiceWithOptions` | src/BackgroundTask/TaskQueuedHostedService.cs:55-69 | null options throw a null reference; otherwise the options are kept and an empty ledger exists exactly when retry is enabled |
| `TaskQueuedHostedService.IncFalidCount` | src/BackgroundTask/TaskQueuedHostedService.cs:141-157 | an absent package gets count 1, a present one its old count plus one (wrapping at `int.MaxValue`); the new count is stored and returned and no other entry changes |
| `TaskQueuedHostedService.CountsAreKeyedByIdentity` | src/BackgroundTask/TaskQueuedHostedService.cs:42 | counting a failure for one package leaves the entry of an equal-content package untouched |
| `TaskQueuedHostedService.BackToQueued` | src/BackgroundTask/TaskQueuedHostedService.cs:126-139 | the package is appended at the back iff its new count is within `MaxRetryTime`; otherwise its ledger entry is removed and it is not enqueued |
| `TaskQueuedHostedService.Step` | src/BackgroundTask/TaskQueuedHostedService.cs:77-117 | one loop iteration: stop leaves the loop; otherwise the oldest package is dispatched; it is re-enqueued only after a failure with options present, options retry on, its own retry flag on and the count within bound; success and a closed gate leave the ledger as it was |
| `TaskQueuedHostedService.OptionlessServiceNeverRetries` | src/BackgroundTask/TaskQueuedHostedService.cs:46-53 | the service built without options never re-enqueues and never changes state, whatever the handler outcome |
| `TaskQueuedHostedService.SuccessKeepsStaleCount` | src/BackgroundTask/TaskQueuedHostedService.cs:91-97 | a success after earlier failures leaves the old count in the ledger |
| `TaskQueuedHostedService.RunFailing` | src/BackgroundTask/TaskQueuedHostedService.cs:79-117 | repeated loop iterations against an always-failing handler keep the queue within capacity, never grow it, and re-enqueue only packages that passed the retry gate |
| `TaskQueuedHostedService.AbsentPackageStaysAbsent` | src/BackgroundTask/TaskQueuedHostedService.cs:126-157 | a package neither queued nor counted is never run or counted again |
| `TaskQueuedHostedService.OtherPackageRuns` | src/BackgroundTask/TaskQueuedHostedService.cs:141-155 | running another package moves p one place forward and leaves p's ledger entry as it was, since the ledger is keyed by identity |
| `TaskQueuedHostedService.PackageRunsItself` | src/BackgroundTask/TaskQueuedHostedService.cs:126-157 | a failing run of p after k failures makes its count k + 1; it goes to the back iff k + 1 <= `MaxRetryTime`, otherwise it leaves queue and ledger |
| `TaskQueuedHostedService.FailingPackageFrom` | src/BackgroundTask/TaskQueuedHostedService.cs:102-157 | a package at any position of a queue in which it is the only one with its identity, having failed k times (k within bound), runs `MaxRetryTime + 1 - k` more times and is re-enqueued `MaxRetryTime - k` more times, ending neither queued nor counted |
| `TaskQueuedHostedService.AlwaysFailingPackageRetriesExactlyMax` | src/BackgroundTask/TaskQueuedHostedService.cs:102-157 | with `MaxRetryTime = N`, 0 <= N < `int.MaxValue`, and a handler that always fails, a retry-enabled package anywhere in a queue of distinct identities is re-enqueued exactly N times, runs N + 1 times, and then leaves queue and ledger, whatever the other packages are |
| `TaskQueuedHostedService.LoneFailingPackageFrom` | src/BackgroundTask/TaskQueuedHostedService.cs:102-157 | alone in the queue, a package with k failures accounts for all `MaxRetryTime + 1 - k` remaining runs, after which the queue is empty and only its ledger entry is gone |
| `TaskQueuedHostedService.LoneFailingPackageIsDroppedCleanly` | src/BackgroundTask/TaskQueuedHostedService.cs:102-157 | alone in the queue, the package's N + 1 runs are all the loop does, and the service ends exactly as it started |
| `TaskQueuedHostedService.FailingPackageWithoutRetryRunsOnce` | src/BackgroundTask/TaskQueuedHostedService.cs:102-105 | when the gate is closed a failing lone package runs exactly once, is not re-enqueued, and the ledger is untouched |
| `TaskQueuedHostedService.CountWrapsAtInt32Max` | src/BackgroundTask/TaskQueuedHostedService.cs:129-147 | with `MaxRetryTime = int.MaxValue`, a count at `int.MaxValue` wraps to `int.MinValue` and the package is re-enqueued again |
| `Pipeline.Start` | src/BackgroundTask/TaskQueuedHostedService.cs:46-69 | start-up fails exactly for a non-positive capacity; without options the options-less constructor is used, which never retries; otherwise an empty shared queue and a service satisfying the invariant |
| `Pipeline.Produce` | src/BackgroundTask/BackgroundTaskProvider.cs:43-58 | a `Send` through the shared queue keeps every queued identity unique and allocated |
| `Pipeline.ProduceWithRetry` | src/BackgroundTask/BackgroundTaskProvider.cs:66-71 | the retry overload keeps the same invariant |
| `Pipeline.Dispatch` | src/BackgroundTask/TaskQueuedHostedService.cs:79-117 | a dispatcher iteration on the shared state never grows the queue and keeps the invariant |
| `Pipeline.DispatchKeepsInv` | src/BackgroundTask/TaskQueuedHostedService.cs:126-139 | the package re-enqueued is never a duplicate of one still queued, and ledger keys stay allocated identities |

## Left out

- Concurrency. `Task.Run` spawns each handler run without awaiting it; the model runs one handler per loop iteration, in order. Handler runs that overlap, and finish out of order, are not modelled.
- `IncFalidCount`: the read-modify-write on the concurrent dictionary is not atomic, and concurrent failures can lose increments. The ledger is modelled sequentially.
- Dependency injection and reflection: `CreateScope`, `GetRequiredService` and `MethodInfo.Invoke`. The handler run is reduced to a `Succeeded`/`Failed` input.
- Cancellation tokens beyond the loop test: the dispatch site reads `ip.CancelToken`, but the property is declared `cancelToken`. The token passed to handlers, and the channel's `ReadAsync` being cancelled while it waits, are not modelled. Stopping is the loop condition only.
- The exception rethrown after `BackToQueued` goes nowhere, because nothing awaits the spawned task. The outer `catch` and all logging have no observable effect in the model.
- Assembly loading: `DependencyContext`, `Assembly.Load` and `GetTypes`. Libraries carry their type descriptors. `StartsWith` is ordinal, whereas the source uses the culture-sensitive overload.
- A null `handlerType` argument to the enqueue overloads is not modelled. The source never passes one: `Send` always passes a resolved type.
- The `#if CodeTest` variants (`Instance()` building a fresh queue each time), the singleton `lock`, `ExecuteAsync`/`StopAsync` host lifecycle, and the DI registration extension.
- Mutating `TaskQueuedOptions` after the service is built, e.g. turning retry on when no ledger was created. Options are treated as immutable configuration; `TaskQueuedOptions.Capacity` is never read by the core.
