# Verification of the worker pool and the COM handles of VirtualizationCoreApi

This Dafny project models two pieces of the repository that everything else in it leans on, and proves what they promise.

**The worker pool** (`ThreadPool`, present twice with the same logic) is N worker threads, one mutex, one condition
variable, a FIFO of tasks and a `stop` flag that is only ever set. `PoolModel` turns it into a system of steps: every
worker, every call of `enqueue` (from outside or from inside a running task) and the destructor has a program counter,
and a schedule is an arbitrary sequence of steps of arbitrary threads. A step reads or writes at most one of the shared
fields `tasks` and `stop`: the wait predicate and the exit test are two reads each, looking at the front task and popping
it are two steps, and so are testing `stop` and queueing a task, or finding nothing to do and going to sleep. Only the
mutex keeps other threads from coming in between, and `UnlockedPool` has a schedule on which a wake-up is lost when it
does not. The condition variable follows section 30.5.1 of ISO/IEC 14882:2011: `wait` gives up the mutex and blocks in
one step, `notify_one` wakes one blocked thread if there is any and is lost otherwise, `notify_all` wakes all, and
wake-ups may be spurious. A task is named by the call of `enqueue` that made it. `PoolInvariants` has what every step
keeps; `PoolSafety`, `PoolProgress`, `PoolService` and `PoolQueue` have the results, for every number of workers and
every schedule; those of `PoolService` say that the steps which ought to be possible are.
`ThreadPool.dfy` is the class itself, its fields changed in place, one method for each step; `Execute` runs any schedule,
so every result about `At` is one about the class. Since the loops of the C++ code (the constructor's, each worker's, the
destructor's joins) are interleaved with other threads at every round, a loop is the program counter that comes back. On
top of the steps the class has what a caller sees: the constructor's loop (`Launch`), a whole call of `enqueue`
(`Enqueue`), a worker's whole critical section (`Serve`), the destructor up to its joins (`StopAndWake`), and destruction
to the end (`Shutdown`), which goes on with steps of any threads until there is none and is proved to stop.

**The handles** (`VBox::COMPtr`) hold a pointer to a reference-counted COM object. `HandleModel` has a table of handles,
the count of every object, and, for each member, its memory operations in the order of its statements, as written: the
move assignment overwrites its target without a `Release`. `HandleLaws` has the accounting law, `HandleSafety` the safety
at every intermediate point, `ComPtr.dfy` the members as methods that change the table in place. These are about whole
members in any order. `HandleThreads` has several threads, each with handles of its own, whose memory operations
interleave in any order, the counts being shared and each `AddRef` and `Release` atomic: nothing is dropped under any
thread, no thread has to wait for another, and every interleaving ends where a run of one thread after the other does. `external` counts the references owned by code other than handles;
`Wrap` takes one of those over. An operation is honest if it gives away only such a reference that exists.

**Three clients** compose the handle contracts: `Listener::listenObject` with its polling thread (`Listener.dfy`), the
error-reporting loop that ends nearly every operation of the API (`ErrorReport.dfy`), and `startUp`, which like most
operations calls `machine->Release()` on the handle it holds (`StartUp.dfy`).

Where comments and code disagree, the model follows the code. The comment above the exit test of the worker loop
(protocol/vca_threadpool.h:72) says that a worker ends when the pool is stopped *or* the queue is empty; the code needs
both. The comment on `notify_all` (line 126) says that all workers end once woken; they first run what is queued.

Four expectations turn out to have exceptions, each stated exactly:
- Shutdown runs every accepted task unless the pool has no workers (`ShutdownDrains`, `WorkerlessPoolStrandsItsTask`).
- Reference counts balance if and only if no move assignment overwrites a non-empty handle (`BalanceAfterDestroyAll`,
  `MovesIntoEmptyIffNoOverwrite`); the error-reporting loop overwrites one for every error it visits (`ReportErrors`).
- While a null assignment, a copy assignment or a destruction is under way, its handle may point at a dropped object,
  exactly when it had the object's last reference and is not assigned the same object again
  (`DanglesIffLastReference`); no other handle ever does, in honest runs (`NoEarlyDrop`, `NoHandleOutlivesItsObject`).
- `Release` called through a handle is honest if and only if somebody outside owns a reference to give up
  (`SafeIffHonest`). `startUp` calls it for a reference of the server's: each call that starts a machine or declines to
  leaves the machine's count one lower than before, and the destructor of its handle finds the object alive exactly when
  the count was positive before the call (`UpToTheDestructor`, `StartUp`).

## Model

| member | source | states |
|---|---|---|
| `PoolInvariants.InvKept` | protocol/vca_threadpool.h:50-132 | every enabled step of every thread keeps the whole invariant: mutex ownership, exits, FIFO, acceptance, conservation, wake-ups, overtaking, mutex order |
| `PoolInvariants.InvReachable` | protocol/vca_threadpool.h:50-132 | the invariant holds in every state of every schedule, for any number of workers |
| `PoolInvariants.StopKept` | protocol/vca_threadpool.h:63-131 | each step keeps: what a thread has read of `stop` and `tasks` since it got the mutex is still so, exits only when stopped and empty, no sleeper after `notify_all`, joined workers are out |
| `PoolInvariants.CallerKept` | include/vca_threadPool.h:82-118 | each step keeps: a worker whose task has an unfinished call stays in that task and call |
| `PoolInvariants.FifoKept` | protocol/vca_threadpool.h:77-111 | each step keeps: tasks taken followed by tasks queued are the tasks accepted, in order; the task popped is the one fetched a step before |
| `PoolInvariants.AcceptKept` | protocol/vca_threadpool.h:101-112 | each step keeps: the accepted tasks are those of the calls that queued one, each once |
| `PoolInvariants.ConserveKept` | protocol/vca_threadpool.h:77-82 | each step keeps: a task is taken as often as it is in some worker's hands or finished |
| `PoolInvariants.WakeKeptByWorker` | protocol/vca_threadpool.h:60-83 | worker steps keep the balance of queued tasks against coming notifications and ready workers, because a queue found empty is still empty when the worker goes to sleep some steps later |
| `PoolInvariants.WakeKeptByOthers` | protocol/vca_threadpool.h:101-127 | so do launching, enqueuing, notifying and destroying |
| `PoolInvariants.OvertakeKept` | include/vca_threadPool.h:57-84 | each step keeps: a task that finished had fewer than N unfinished tasks taken before it |
| `PoolInvariants.GrantKept` | include/vca_threadPool.h:105-128 | acceptance stays in step with the order in which calls and the destructor get the mutex |
| `PoolSafety.OnlyTheOwnerTouchesTheQueue` | protocol/vca_threadpool.h:61-82 | a step of a thread that does not own the mutex neither reads nor writes `tasks` and `stop` |
| `PoolSafety.NestedEnqueueNeverSelfLocks` | include/vca_threadPool.h:60-83 | a task that enqueues never waits for a mutex owned by its own thread |
| `PoolSafety.NoLostWakeup` | protocol/vca_threadpool.h:62-79 | while a worker sleeps, queued tasks are at most the notifications to come plus the workers that will look first |
| `PoolSafety.NoTaskIsForgotten` | protocol/vca_threadpool.h:62-79 | while a worker sleeps beside a queued task, some call is about to notify or some worker wants the mutex or has it and will look |
| `PoolSafety.NobodySleepsAfterNotifyAll` | protocol/vca_threadpool.h:122-127 | once `notify_all` has run no worker sleeps, in any continuation |
| `PoolSafety.ExitIsStable` | protocol/vca_threadpool.h:73-75 | a worker exits only with `stop` set and the queue empty, and in any continuation both stay so and nothing more is accepted |
| `PoolSafety.StopIsForEver` | protocol/vca_threadpool.h:119-131 | in any continuation, stop, the end of acceptance, the end of `notify_all` and exits are never undone |
| `PoolSafety.CallsBeforeDtorMeaning` | include/vca_threadPool.h:105-128 | what the sequence of calls before the destructor contains: those that got the mutex at a moment when the destructor had not |
| `PoolSafety.AcceptedIffBeforeDtor` | include/vca_threadPool.h:105-114 | a call's task is accepted exactly when the call got the mutex before the destructor, and otherwise the call throws |
| `PoolSafety.AcceptedInMutexOrder` | include/vca_threadPool.h:103-114 | tasks are accepted in the order in which their calls got the mutex |
| `PoolSafety.ThrownLeavesNoTrace` | include/vca_threadPool.h:109-111 | a call that threw has no task in the queue, in a worker's hands or in any history, ever |
| `PoolSafety.EachTaskInOnePlace` | protocol/vca_threadpool.h:77-82 | every accepted task is in exactly one place (queued, one worker's hands, finished) and nothing else is anywhere |
| `PoolSafety.TakenInOrder` | protocol/vca_threadpool.h:77-79 | started tasks followed by queued ones are the accepted ones, with at most one unfinished per worker |
| `PoolSafety.OvertakingIsBounded` | include/vca_threadPool.h:57-84 | when a task finished, fewer than N of the tasks accepted before it were unfinished |
| `PoolSafety.OneWorkerFinishesInOrder` | include/vca_threadPool.h:57-84 | with one worker, completion order is acceptance order |
| `PoolSafety.ShutdownDrains` | protocol/vca_threadpool.h:119-131 | when the destructor is done all workers are out and exactly the tasks of successful calls have run, once each; the queue is empty if and only if there were workers or nothing was accepted |
| `PoolSafety.WorkerlessPoolStrandsItsTask` | protocol/vca_threadpool.h:52-86 | a schedule on which a pool of zero workers hands out a future and is destroyed with the task still queued |
| `UnlockedPool.WithoutTheMutexWakeupsAreLost` | protocol/vca_threadpool.h:61-64 | the mutex is needed: if it kept nobody out, a schedule of one worker and one call ends with a task queued, the worker asleep and no thread able to move |
| `PoolProgress.StuckIffQuiet` | protocol/vca_threadpool.h:62-131 | spurious wake-ups aside, no thread can move exactly when there is nothing left to do |
| `PoolProgress.NoDeadlock` | protocol/vca_threadpool.h:62-127 | with a worker, a queued task, an open call, an owned mutex, an awake worker or an unfinished shutdown means that some thread can move |
| `PoolProgress.AtRestEverythingHasRun` | protocol/vca_threadpool.h:62-116 | whenever the pool is at rest, the tasks run are exactly those whose calls returned a future, once each, and a begun destruction is complete |
| `PoolProgress.StepCosts` | protocol/vca_threadpool.h:56-131 | every step of the pool's own lowers one measure; a new call adds 20 to it and a spurious wake-up 6 |
| `PoolProgress.StepsAreBounded` | protocol/vca_threadpool.h:56-131 | from any state, all further steps are bounded by the work at hand, the calls to come and the spurious wake-ups |
| `PoolProgress.LifeIsBounded` | protocol/vca_threadpool.h:50-131 | a whole run takes at most 14 N + 6 + 20 calls + 6 spurious wake-ups steps |
| `PoolProgress.LengthIsBounded` | protocol/vca_threadpool.h:50-131 | a schedule all of whose steps are taken has at most 14 N + 6 + 21 calls + 7 spurious wake-ups steps |
| `PoolProgress.JoinLoopIsBounded` | protocol/vca_threadpool.h:129-131 | while the destructor joins nobody can wake spuriously, and all further steps are bounded by the work at hand and the calls still to come: the loop ends |
| `PoolProgress.CanComeToRest` | protocol/vca_threadpool.h:56-131 | every state leads to rest by a bounded number of the pool's own steps |
| `PoolProgress.RestIsShutdown` | protocol/vca_threadpool.h:119-131 | once destruction has begun, every state of rest has the destructor done, all workers out and, if there are any, everything accepted run |
| `PoolProgress.ShutdownCanComplete` | protocol/vca_threadpool.h:119-131 | and such a state can be reached by a bounded number of the pool's own steps |
| `PoolService.WorkerMovesUnlessItWaits` | protocol/vca_threadpool.h:56-83 | in every reachable state a worker can take a step if and only if it is not asleep or gone, does not want an owned mutex, and its task is in no open call |
| `PoolService.CallMovesUnlessItWaits` | protocol/vca_threadpool.h:91-116 | an open call can take a step if and only if it does not want an owned mutex |
| `PoolService.DestructorMovesUnlessItWaits` | protocol/vca_threadpool.h:119-132 | a begun destructor can take a step if and only if it does not want an owned mutex and the worker it joins next, if any, is out |
| `PoolService.FreeTheMutex` | protocol/vca_threadpool.h:61-80 | whoever owns the mutex can give it up by its own steps, every running task and every thread outside the lock standing still |
| `PoolService.EveryCallCanFinish` | protocol/vca_threadpool.h:91-116 | every call that has begun can be brought to its end without a task finishing meanwhile |
| `PoolService.CallsCanAlwaysBeMade` | protocol/vca_threadpool.h:91-116 | any number of further calls can be made from outside a launched pool, or from a running task, each answered: thrown if and only if `stop` is set or about to be, its task accepted otherwise |
| `PoolService.AnyNumberIsServed` | protocol/vca_service.cpp:509 | for every number of workers and every n some schedule has exactly n calls, all returned, all n tasks accepted and, with workers, run |
| `PoolService.StopDoesNotWaitForTasks` | protocol/vca_threadpool.h:119-127 | from every state in which the pool may be destroyed, `stop` can be set and all sleepers woken while every running task stands still |
| `AtomicQueue.FirstInFirstOut` | protocol/vca_threadpool.h:38-40 | the reference queue: what was there and was put in is what was taken out and is left, in order |
| `PoolQueue.StepRefines` | protocol/vca_threadpool.h:62-111 | every step is one atomic event on the queue, or none: each critical section, several steps long, takes effect at one of them |
| `PoolQueue.PoolIsAQueue` | protocol/vca_threadpool.h:62-111 | every interleaving is a behaviour of the atomic queue whose puts are the accepted tasks and whose takes are the started ones |
| `PoolQueue.StoppedPoolTakesNothingIn` | protocol/vca_threadpool.h:105-109 | once `stop` is set nothing is accepted in any continuation, and the queue only gives up what it has, in order |
| `PoolQueue.RefusedCallsThrow` | protocol/vca_threadpool.h:73-109 | the calls the queue refuses are exactly those that throw, each once; when the pool is gone each worker has found the queue closed and empty once |
| `WorkerPool.ThreadPool.constructor` | protocol/vca_threadpool.h:50-51 | a new pool is empty, not stopped, and has launched no worker yet |
| `WorkerPool.ThreadPool.Spawn` | protocol/vca_threadpool.h:52-56 | a round of the constructor's loop adds one worker at the top of its loop |
| `WorkerPool.ThreadPool.WorkerLock` | protocol/vca_threadpool.h:61 | a worker gets the free mutex, at the top of its loop or after a wake-up |
| `WorkerPool.ThreadPool.WaitReadStop` | protocol/vca_threadpool.h:64 | the wait predicate reads `stop` |
| `WorkerPool.ThreadPool.WaitReadQueue` | protocol/vca_threadpool.h:64 | and then, if that is false, whether the queue is empty |
| `WorkerPool.ThreadPool.Block` | protocol/vca_threadpool.h:63 | the worker gives up the mutex and sleeps |
| `WorkerPool.ThreadPool.ExitReadStop` | protocol/vca_threadpool.h:73 | the exit test reads `stop` |
| `WorkerPool.ThreadPool.ExitReadQueue` | protocol/vca_threadpool.h:73-75 | and then, if that is true, whether the queue is empty |
| `WorkerPool.ThreadPool.Front` | protocol/vca_threadpool.h:77 | the front task is moved out of a queue that is not empty |
| `WorkerPool.ThreadPool.Pop` | protocol/vca_threadpool.h:79 | the front is popped, and it is the task moved out before |
| `WorkerPool.ThreadPool.WorkerUnlock` | protocol/vca_threadpool.h:73-80 | the mutex is released on the way out or before the task runs |
| `WorkerPool.ThreadPool.Finish` | protocol/vca_threadpool.h:82-83 | the task ends and its worker starts the next round |
| `WorkerPool.ThreadPool.SpuriousWake` | protocol/vca_threadpool.h:63 | a sleeping worker may wake without a notification |
| `WorkerPool.ThreadPool.EnqueueBegin` | protocol/vca_threadpool.h:92-100 | a client of a launched pool, or a task with no open call, may call, and the call makes a task that the pool has not seen before |
| `WorkerPool.ThreadPool.EnqueueLock` | protocol/vca_threadpool.h:103 | the call gets the free mutex |
| `WorkerPool.ThreadPool.EnqueueCheck` | protocol/vca_threadpool.h:107-109 | throw on a stopped pool |
| `WorkerPool.ThreadPool.EnqueuePush` | protocol/vca_threadpool.h:111 | queue the task at the back of a pool that is not stopped |
| `WorkerPool.ThreadPool.EnqueueUnlock` | protocol/vca_threadpool.h:112 | the mutex is released; the call throws if and only if its task was not accepted |
| `WorkerPool.ThreadPool.NotifyOne` | protocol/vca_threadpool.h:114-115 | one sleeper is woken if there is any, and the future is returned |
| `WorkerPool.ThreadPool.DestroyBegin` | protocol/vca_threadpool.h:119 | destruction begins |
| `WorkerPool.ThreadPool.DestroyLock` | protocol/vca_threadpool.h:122 | the destructor gets the free mutex, whatever the workers do |
| `WorkerPool.ThreadPool.SetStop` | protocol/vca_threadpool.h:124 | the flag is set under the mutex |
| `WorkerPool.ThreadPool.DestroyUnlock` | protocol/vca_threadpool.h:125 | the mutex is released |
| `WorkerPool.ThreadPool.NotifyAll` | protocol/vca_threadpool.h:127 | every sleeping worker wants the mutex again |
| `WorkerPool.ThreadPool.Join` | protocol/vca_threadpool.h:129-131 | the next worker that has exited is joined; after the last the destructor is done |
| `WorkerPool.ThreadPool.Take` | protocol/vca_threadpool.h:50-132 | each action of the model is carried out by the method of its thread |
| `WorkerPool.ThreadPool.Execute` | protocol/vca_threadpool.h:50-132 | the class, run on any schedule, reaches the state `Run` says, and stays valid |
| `WorkerPool.ThreadPool.Launch` | protocol/vca_threadpool.h:52-86 | the constructor's loop launches all workers, each at the top of its loop, and changes nothing else |
| `WorkerPool.ThreadPool.Enqueue` | protocol/vca_threadpool.h:91-116 | a whole uninterrupted call, from outside or from a task: no future and nothing queued if and only if the pool is stopped, otherwise its task is last in the queue and one sleeper, if any, is awake |
| `WorkerPool.ThreadPool.Await` | protocol/vca_threadpool.h:61-64 | `wait` as a whole: past it with the mutex if there is something to do, asleep without it if not |
| `WorkerPool.ThreadPool.Serve` | protocol/vca_threadpool.h:59-80 | a worker's critical section as a whole: out with the front task, or gone if stopped, or asleep |
| `WorkerPool.ThreadPool.FindStep` | protocol/vca_threadpool.h:56-131 | a step that can be taken now is found whenever there is one |
| `WorkerPool.ThreadPool.StopAndWake` | protocol/vca_threadpool.h:119-127 | the destructor up to its joins: the pool is stopped and every sleeper awake, and nothing else has changed, whatever the workers were doing |
| `WorkerPool.ThreadPool.Shutdown` | protocol/vca_threadpool.h:119-132 | destruction, with all other threads going on, ends: all workers out, calls under way over, and, if there are workers, everything accepted run exactly once |
| `HandleLaws.Effect` | include/libvbox_wrap.h:61-112 | what each member does as a whole, derived from its memory operations in order |
| `HandleLaws.LeakGrowsOnlyByOverwriting` | include/libvbox_wrap.h:93-98 | references counted but owned by nobody grow by one when a move assignment overwrites a handle to the object, itself included, and never otherwise |
| `HandleLaws.Accounting` | include/libvbox_wrap.h:61-112 | over every sequence of operations: count = outside references + handles pointing at the object + overwriting moves |
| `HandleLaws.DestroyFirstDoes` | include/libvbox_wrap.h:100-104 | destroying handles one after the other leaves them dead and overwrites nothing |
| `HandleLaws.BalanceAfterDestroyAll` | include/libvbox_wrap.h:93-104 | when all handles are destroyed the excess of every count is exactly its number of overwriting moves |
| `HandleLaws.MovesIntoEmptyIffNoOverwrite` | include/libvbox_wrap.h:93-98 | no object is ever left in excess if and only if every move assignment targets an empty handle |
| `HandleSafety.SafeIffHonest` | include/libvbox_wrap.h:61-112 | an operation keeps every count covering its owners exactly when it gives away only references that somebody outside owns |
| `HandleSafety.NoEarlyDrop` | include/libvbox_wrap.h:64-104 | at every memory operation of every member, every handle but the one being released points at a live object, and only live objects are released |
| `HandleSafety.ThroughoutAssignCopy` | include/libvbox_wrap.h:83-91 | so for copy assignment, because the source is counted before the target is released, aliased or not |
| `HandleSafety.DanglesIffLastReference` | include/libvbox_wrap.h:75-104 | for every member: no handle at all points at a dropped object at any point of it, except exactly when it gives up the last reference to one before the pointer is overwritten |
| `HandleSafety.TargetDanglesIffLastReference` | include/libvbox_wrap.h:85-89 | between the release and the store the target dangles exactly when it had the last reference and the source points elsewhere |
| `HandleSafety.SelfCopyAssignmentIsIdentity` | include/libvbox_wrap.h:83-91 | assigning a handle to itself changes nothing |
| `HandleSafety.SelfMoveAssignmentStrands` | include/libvbox_wrap.h:93-98 | moving a handle onto itself empties it and strands its reference |
| `HandleSafety.ReleaseThroughAHandle` | source/vca_core.cpp:89-110 | `handle->Release()` and the handle's destruction take two references whatever the count; the call drops the object under the handle exactly when the count was one, and then it is not honest |
| `HandleSafety.NoHandleOutlivesItsObject` | include/libvbox_wrap.h:61-112 | in every run that gives away only what is owned, no handle ever points at a dropped object, the one being released aside |
| `HandleThreads.NoThreadDropsAnothersObject` | source/vca_event.cpp:28-49 | between any two memory operations of any threads, every handle of every thread but the one it is releasing points at a live object, and only live objects are released |
| `HandleThreads.AccountingOfThreads` | source/vca_event.cpp:28-49 | each thread ends where its own members lead, and a count is the sum over the threads of outside references, handles and overwriting moves |
| `HandleThreads.OrderDoesNotMatter` | source/vca_event.cpp:28-49 | two interleavings of the same members of each thread end in the same state |
| `HandleThreads.AThreadCanAlwaysGoOn` | source/vca_event.cpp:28-49 | in every reachable state, whatever the other threads are in the middle of, each thread can finish its member and go on with any that are enabled and honest for it |
| `HandleThreads.ThreadsCanRunInTurn` | source/vca_event.cpp:28-49 | any plan of such members, one list for each thread, can be carried out to rest, one thread after the other |
| `HandleThreads.EveryInterleavingIsSerial` | source/vca_event.cpp:28-49 | every interleaving that comes to rest ends in the state of a run of the threads one after the other |
| `HandleThreads.SafeWorldsAreFresh` | source/vca_event.cpp:28 | any number of threads may begin together in safe worlds |
| `HandleThreads.StartingAThread` | source/vca_event.cpp:28 | a thread may be started from any safe world with any of its handles |
| `ComPtr.ComHandles.Law` | include/libvbox_wrap.h:61-112 | the accounting law for a table in use, and its safety if nothing was given away that nobody owned |
| `ComPtr.ComHandles.NewObject` | include/libvbox_wrap.h:152-182 | an object appears with one reference owned outside |
| `ComPtr.ComHandles.Acquire` | include/libvbox_wrap.h:170-176 | a COM call hands out a raw pointer with one new reference |
| `ComPtr.ComHandles.OutsideRelease` | include/libvbox_wrap.h:167-168 | code outside gives back a reference of its own to a live object |
| `ComPtr.ComHandles.AddRef` | include/libvbox_wrap.h:167 | a live object's count goes up by one |
| `ComPtr.ComHandles.Release` | include/libvbox_wrap.h:168 | a live object's count goes down by one |
| `ComPtr.ComHandles.RawAddRef` | include/libvbox_wrap.h:114-167 | calling `AddRef` through a handle gives the caller a reference |
| `ComPtr.ComHandles.RawRelease` | source/vca_core.cpp:110 | calling `Release` through a handle gives up a reference owned outside; honest if and only if there is one |
| `ComPtr.ComHandles.ConstructNull` | include/libvbox_wrap.h:61-62 | a new null handle, no count changed |
| `ComPtr.ComHandles.ConstructCopy` | include/libvbox_wrap.h:64-68 | a new handle to the same object, counted |
| `ComPtr.ComHandles.ConstructMove` | include/libvbox_wrap.h:70-73 | a new handle takes over the pointer, the old one is empty, no count changed |
| `ComPtr.ComHandles.AssignNull` | include/libvbox_wrap.h:75-81 | the object is released and the handle emptied |
| `ComPtr.ComHandles.AssignCopy` | include/libvbox_wrap.h:83-91 | new object counted, old one released, pointer stored |
| `ComPtr.ComHandles.AssignMove` | include/libvbox_wrap.h:93-98 | pointer stored without a release, source emptied, no count changed |
| `ComPtr.ComHandles.Destroy` | include/libvbox_wrap.h:100-104 | the object is released and the handle gone |
| `ComPtr.ComHandles.Wrap` | include/libvbox_wrap.h:106-112 | a raw pointer and the reference that came with it become a handle, no count changed |
| `ComPtr.ComHandles.CallAndWrap` | lib/libvbox-6.0.10/lib/eventsource.cpp:71-80 | a COM call returns a handle that owns one new reference, or a null handle |
| `ComPtr.ComHandles.QueryInterface` | include/libvbox_wrap.h:172-178 | a handle that owns one new reference to the interface, or a null handle if there is none |
| `ComPtr.ComHandles.GetProperty` | lib/libvbox-6.0.10/lib/libvbox_p.h:78-85 | an interface-valued property comes back as a handle with one new reference, the local temporaries gone |
| `ComPtr.ComHandles.AssignTemporary` | include/libvbox_wrap.h:93-104 | a returned temporary is moved into its target and gone, no count changed |
| `ComPtr.ComHandles.AssignCall` | source/vca_event.cpp:24 | `handle = call()`: the target holds the returned object with its one new reference, its old pointer forgotten |
| `ComPtr.ComHandles.AssignProperty` | source/vca_event.cpp:23 | the same for an interface-valued property |
| `EventListener.Subscribe` | source/vca_event.cpp:18-24 | the parameter is moved into a local and two locals filled, one new reference each, nothing else changed |
| `EventListener.RegisterListener` | source/vca_event.cpp:26 | the listener has one reference more, the server's, or none |
| `EventListener.Capture` | source/vca_event.cpp:28 | the closure holds counted copies of both handles |
| `EventListener.IntoThread` | source/vca_event.cpp:28 | moving the closure into the thread changes no count and leaves the original empty |
| `EventListener.SpawnThread` | source/vca_event.cpp:28 | the thread holds counted copies of both handles, and the closure it was made from is gone |
| `EventListener.LeaveScope` | source/vca_event.cpp:49 | the locals and the parameter are destroyed, one reference each given back |
| `EventListener.SubscribeAndSpawn` | source/vca_event.cpp:16-49 | all handles and counts after the function: the argument's reference gone, two new ones in the thread, and the server's own to the listener if it took one |
| `EventListener.ListenObject` | source/vca_event.cpp:16-49 | the argument's reference is used up, the thread holds exactly one reference each to source and listener, the server at most one to the listener, all other handles are gone, and nothing was overwritten |
| `EventListener.GetEvent` | source/vca_event.cpp:30 | a null handle, or a handle with one new reference to the event |
| `EventListener.Inspect` | source/vca_event.cpp:36-43 | the state-change handle lives through its `if` and no longer; stop exactly when the second `state()` is 5, Running |
| `EventListener.EventProcessed` | source/vca_event.cpp:44 | the event acknowledged is the one the handle points at |
| `EventListener.Round` | source/vca_event.cpp:29-45 | one round stops on a change to state 5, acknowledges any other event, and leaves every count as it was |
| `EventListener.PollUntilStop` | source/vca_event.cpp:29-45 | the loop over any stream: acknowledgements, printed states, and the stop, with every count unchanged |
| `EventListener.PollEvents` | source/vca_event.cpp:28-46 | the same with the end of the thread, which gives back the closure's two references |
| `EventListener.ListenToTheEnd` | source/vca_event.cpp:16-49 | from the call to the end of the thread only the argument's reference is used up, and only a reference of the server's to the listener is added |
| `EventListener.FirstStop` | source/vca_event.cpp:36-43 | the position of the first change to Running, or the end of the stream |
| `EventListener.AcknowledgedOnlyGrows` | source/vca_event.cpp:29-45 | as the stream goes on acknowledgements are only added, and none after a stop |
| `EventListener.EventsInOrder` | source/vca_event.cpp:30-44 | each event stands in the list at the position given by the number of events before it, and there are no others |
| `EventListener.StatesInOrder` | source/vca_event.cpp:36-39 | so do the printed states |
| `EventListener.EventsCount` | source/vca_event.cpp:30-44 | an event is listed for acknowledgement as often as it was delivered |
| `ErrorReport.WalkChain` | source/vca_core.cpp:158-164 | the loop visits the chain in order and leaves a reference on every error after the first besides the one it started with |
| `ErrorReport.ReportAndCount` | source/vca_core.cpp:154-165 | all counts and handles after the report, in closed form |
| `ErrorReport.ReportErrors` | source/vca_core.cpp:154-165 | every visited error keeps one reference too many, each from one overwriting move; the counts balance if and only if there was no error |
| `MachineStart.UpToTheDestructor` | source/vca_core.cpp:86-118 | the handle's reference is given up already: its object is alive exactly when its count was positive before, and the run is honest exactly when the server owned one |
| `MachineStart.TryBlock` | source/vca_core.cpp:86-151 | the machine's count is one lower than before, every other as it was, unless an exception left the block |
| `MachineStart.StartUp` | source/vca_core.cpp:75-167 | every other count as before and the machine's one lower, if the machine is started or the call declines to; if launching fails, one surplus reference and one text for each error of the chain |

## Left out

- `std::packaged_task`, `std::future` and argument binding: a task is an identity; what it computes and the exception its future may hold do not touch the pool.
- Running time of tasks: a running task may enqueue any number of times and then ends; the bounds count the calls it makes.
- Lifetime of the pool object: destroying the pool from one of its own tasks, and calls still under way when the destructor returns, are the caller's business; the model lets such calls finish, by throwing.
- Failure to start a thread in the constructor.
- COM objects beyond their reference counts, and the 32-bit width of a count.
- COM errors: a call that fails raises an exception, which in the listener's thread ends the program; the model has the calls that succeed, and in `StartUp` a launch that fails.
- `StartUp`: the branch for a machine that was not found (source/vca_core.cpp:145-150), which calls `Release` through a null handle; `findMachine` reports that case by an exception. Of the calls that may fail it has the one that launches the machine. Which machine states allow a launch, and the message texts, are not modelled.
- Null interface pointers where the code calls through them without a test (`vbox`, `source` and `listener` in `listenObject`, `errorInfo` in the error report): the code needs them non-null, and so do the methods here.
- `PollEvents`: the stream is finite and of any length; `AcknowledgedOnlyGrows` says how the results for longer and longer streams fit together.
- `ListenToTheEnd`: the thread's rounds come after the end of `listenObject`; every other interleaving of their memory operations is covered by `HandleThreads`.
- `HandleThreads`: a handle that two threads use without synchronisation; each thread has handles of its own, as the closure's copies are.
- The comparison operators of the handles and the accessors of the pointer: they change nothing.
- The gRPC service, the VirtualBox operations of `QiVCA`, text conversion, and the monitor and murder hooks: calls into libraries and straight-line copying.
