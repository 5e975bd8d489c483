/** The worker pool as a system of interleaved steps.

    Every thread that touches the pool carries a program counter: the workers (`Worker`), each call of `enqueue`
    (`Call`) and the destructor (`Dtor`).  An `Action` is one step of one thread and reads or writes at most one of the
    shared fields `tasks` and `stop`, so that a critical section is several steps and other threads run in between;
    `Apply` is its effect.  A task is named by the call that created it, because every call wraps its function in a
    packaged task of its own. */
module PoolModel {
  import opened Options

  datatype Worker =
    | Wanting                                       // needs the mutex: at the top of the loop, or woken inside `wait`
    // with the mutex, evaluating the wait predicate
    | Testing                                       // about to read `stop`
    | TestingQueue                                  // read false; about to read `tasks.empty()`
    | Blocking                                      // predicate false; about to give up the mutex and block
    | Sleeping                                      // blocked on the condition variable, mutex given up
    // with the mutex, after `wait`
    | Passed                                        // about to read `stop` for the exit test
    | PassedStopped                                 // read true; about to read `tasks.empty()`
    | Leaving                                       // on the way out of the loop
    | Taking                                        // about to move the front task out
    | Fetched(task: nat)                            // front task moved out, about to pop
    | Popped(task: nat)                             // task off the queue
    // without the mutex
    | Running(task: nat, nested: Option<nat>)       // runs its task; `nested` is the last `enqueue` the task made
    | Exited

  datatype Phase =
    | Arriving                                      // needs the mutex
    | Inside                                        // owns the mutex, about to read `stop`
    | Checked                                       // owns the mutex, read false; about to queue the task
    | Throwing                                      // owns the mutex, unwinding with the exception
    | Pushed                                        // owns the mutex, task queued
    | Notifying                                     // mutex given up, `notify_one` still to come
    | Returned                                      // the caller has its future
    | Thrown                                        // the caller has the exception

  // `caller` is the worker whose running task made the call, or None for a call from outside the pool.
  datatype Call = Call(caller: Option<nat>, phase: Phase)

  datatype Dtor =
    | Alive                                         // destruction has not begun
    | Closing                                       // needs the mutex
    | Holding                                       // owns the mutex, `stop` not yet set
    | Flagged                                       // owns the mutex, `stop` set
    | Waking                                        // mutex given up, `notify_all` still to come
    | Joining(next: nat)                            // workers before `next` are joined
    | Gone

  datatype Owner = Nobody | WorkerOwns(i: nat) | CallOwns(c: nat) | DtorOwns

  // `tasks`, `stop`, `workers` and the mutex are the pool's fields.  The last four components are histories:
  // tasks in the order they were queued, taken and finished, and owners in the order they got the mutex.
  datatype State = State(
    threads: nat,
    workers: seq<Worker>,
    tasks: seq<nat>,
    stop: bool,
    owner: Owner,
    calls: seq<Call>,
    dtor: Dtor,
    accepted: seq<nat>,
    started: seq<nat>,
    completed: seq<nat>,
    grants: seq<Owner>)

  datatype Action =
    | Spawn
    | WorkerLock(i: nat)
    | WaitReadStop(i: nat)
    | WaitReadQueue(i: nat)
    | Block(i: nat)
    | ExitReadStop(i: nat)
    | ExitReadQueue(i: nat)
    | Front(i: nat)
    | Pop(i: nat)
    | WorkerUnlock(i: nat)
    | Finish(i: nat)
    | SpuriousWake(i: nat)
    | EnqueueBegin(caller: Option<nat>)
    | EnqueueLock(c: nat)
    | EnqueueCheck(c: nat)
    | EnqueuePush(c: nat)
    | EnqueueUnlock(c: nat)
    | NotifyOne(c: nat, woken: Option<nat>)
    | DestroyBegin
    | DestroyLock
    | SetStop
    | DestroyUnlock
    | NotifyAll
    | Join

  function Init(threads: nat): State {
    State(threads, [], [], false, Nobody, [], Alive, [], [], [], [])
  }

  predicate WorkerHolds(w: Worker) {
    !w.Wanting? && !w.Sleeping? && !w.Running? && !w.Exited?
  }

  predicate CallHolds(p: Phase) {
    p.Inside? || p.Checked? || p.Throwing? || p.Pushed?
  }

  predicate DtorHolds(d: Dtor) {
    d.Holding? || d.Flagged?
  }

  predicate Closed(p: Phase) {
    p.Returned? || p.Thrown?
  }

  predicate NoSleeper(workers: seq<Worker>) {
    forall i :: 0 <= i < |workers| ==> !workers[i].Sleeping?
  }

  /** The worker runs a task, and control is in the task's own code rather than in an `enqueue` it made. */
  predicate InTask(s: State, i: nat) {
    && i < |s.workers| && s.workers[i].Running?
    && (s.workers[i].nested.Some? ==>
          s.workers[i].nested.value < |s.calls| && Closed(s.calls[s.workers[i].nested.value].phase))
  }

  predicate Is(s: State, i: nat, w: Worker) {
    i < |s.workers| && s.workers[i] == w
  }

  predicate CallIs(s: State, c: nat, p: Phase) {
    c < |s.calls| && s.calls[c].phase == p
  }

  /** The thread of `a` is at that step, whoever owns the mutex. */
  predicate AtStep(s: State, a: Action) {
    match a
    case Spawn => |s.workers| < s.threads
    case WorkerLock(i) => Is(s, i, Wanting)
    case WaitReadStop(i) => Is(s, i, Testing)
    case WaitReadQueue(i) => Is(s, i, TestingQueue)
    case Block(i) => Is(s, i, Blocking)
    case ExitReadStop(i) => Is(s, i, Passed)
    case ExitReadQueue(i) => Is(s, i, PassedStopped)
    // `front` and `pop` of an empty queue are undefined; that this never blocks is part of the progress theorem
    case Front(i) => Is(s, i, Taking) && s.tasks != []
    case Pop(i) => i < |s.workers| && s.workers[i].Fetched? && s.tasks != []
    case WorkerUnlock(i) => i < |s.workers| && (s.workers[i].Leaving? || s.workers[i].Popped?)
    case Finish(i) => InTask(s, i)
    case SpuriousWake(i) => Is(s, i, Sleeping)
    case EnqueueBegin(caller) =>
      if caller.Some? then InTask(s, caller.value) else |s.workers| == s.threads && !s.dtor.Gone?
    case EnqueueLock(c) => CallIs(s, c, Arriving)
    case EnqueueCheck(c) => CallIs(s, c, Inside)
    case EnqueuePush(c) => CallIs(s, c, Checked)
    case EnqueueUnlock(c) => CallIs(s, c, Throwing) || CallIs(s, c, Pushed)
    // a notification wakes one sleeper if there is any, and is lost otherwise
    case NotifyOne(c, woken) =>
      CallIs(s, c, Notifying) && (if woken.Some? then Is(s, woken.value, Sleeping) else NoSleeper(s.workers))
    case DestroyBegin => |s.workers| == s.threads && s.dtor.Alive?
    case DestroyLock => s.dtor.Closing?
    case SetStop => s.dtor.Holding?
    case DestroyUnlock => s.dtor.Flagged?
    case NotifyAll => s.dtor.Waking?
    case Join => s.dtor.Joining? && (s.dtor.next < |s.workers| ==> s.workers[s.dtor.next].Exited?)
  }

  predicate Locks(a: Action) {
    a.WorkerLock? || a.EnqueueLock? || a.DestroyLock?
  }

  /** Whether the thread of `a` can take that step now: a thread that wants the mutex waits until nobody owns it. */
  predicate Enabled(s: State, a: Action) {
    AtStep(s, a) && (Locks(a) ==> s.owner.Nobody?)
  }

  function Woken(w: Worker): Worker {
    if w.Sleeping? then Wanting else w
  }

  function WakeAll(workers: seq<Worker>): seq<Worker> {
    seq(|workers|, i requires 0 <= i < |workers| => Woken(workers[i]))
  }

  function SetPhase(calls: seq<Call>, c: nat, p: Phase): seq<Call>
    requires c < |calls|
  {
    calls[c := calls[c].(phase := p)]
  }

  function SetWorker(s: State, i: nat, w: Worker): State
    requires i < |s.workers|
  {
    s.(workers := s.workers[i := w])
  }

  /** The effect of one step. */
  function Apply(s: State, a: Action): State
    requires AtStep(s, a)
  {
    match a
    case Spawn => s.(workers := s.workers + [Wanting])
    case WorkerLock(i) => SetWorker(s, i, Testing).(owner := WorkerOwns(i), grants := s.grants + [WorkerOwns(i)])
    case WaitReadStop(i) => SetWorker(s, i, if s.stop then Passed else TestingQueue)
    case WaitReadQueue(i) => SetWorker(s, i, if s.tasks != [] then Passed else Blocking)
    case Block(i) => SetWorker(s, i, Sleeping).(owner := Nobody)
    case ExitReadStop(i) => SetWorker(s, i, if s.stop then PassedStopped else Taking)
    case ExitReadQueue(i) => SetWorker(s, i, if s.tasks == [] then Leaving else Taking)
    case Front(i) => SetWorker(s, i, Fetched(s.tasks[0]))
    case Pop(i) =>
      var task := s.workers[i].task;
      SetWorker(s, i, Popped(task)).(tasks := s.tasks[1..], started := s.started + [task])
    case WorkerUnlock(i) =>
      var next := if s.workers[i].Leaving? then Exited else Running(s.workers[i].task, None);
      SetWorker(s, i, next).(owner := Nobody)
    case Finish(i) => SetWorker(s, i, Wanting).(completed := s.completed + [s.workers[i].task])
    case SpuriousWake(i) => SetWorker(s, i, Wanting)
    case EnqueueBegin(caller) =>
      var t := s.(calls := s.calls + [Call(caller, Arriving)]);
      if caller.None? then t
      else t.(workers := s.workers[caller.value := s.workers[caller.value].(nested := Some(|s.calls|))])
    case EnqueueLock(c) =>
      s.(calls := SetPhase(s.calls, c, Inside), owner := CallOwns(c), grants := s.grants + [CallOwns(c)])
    case EnqueueCheck(c) => s.(calls := SetPhase(s.calls, c, if s.stop then Throwing else Checked))
    case EnqueuePush(c) =>
      s.(calls := SetPhase(s.calls, c, Pushed), tasks := s.tasks + [c], accepted := s.accepted + [c])
    case EnqueueUnlock(c) =>
      var next := if s.calls[c].phase.Throwing? then Thrown else Notifying;
      s.(calls := SetPhase(s.calls, c, next), owner := Nobody)
    case NotifyOne(c, woken) =>
      var t := s.(calls := SetPhase(s.calls, c, Returned));
      if woken.None? then t else t.(workers := s.workers[woken.value := Wanting])
    case DestroyBegin => s.(dtor := Closing)
    case DestroyLock => s.(dtor := Holding, owner := DtorOwns, grants := s.grants + [DtorOwns])
    case SetStop => s.(dtor := Flagged, stop := true)
    case DestroyUnlock => s.(dtor := Waking, owner := Nobody)
    case NotifyAll => s.(dtor := Joining(0), workers := WakeAll(s.workers))
    case Join => s.(dtor := if s.dtor.next < |s.workers| then Joining(s.dtor.next + 1) else Gone)
  }

  /** A thread that is scheduled while it cannot move leaves the pool as it is. */
  function Next(s: State, a: Action): State {
    if Enabled(s, a) then Apply(s, a) else s
  }

  /** The state after a schedule, which is an arbitrary sequence of steps of arbitrary threads. */
  function Run(s: State, schedule: seq<Action>): State
    decreases |schedule|
  {
    if schedule == [] then s
    else Next(Run(s, schedule[..|schedule| - 1]), schedule[|schedule| - 1])
  }
}
