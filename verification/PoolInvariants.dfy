/** What every step of the pool keeps.  Each conjunct of `Inv` has its own preservation lemma. */
module PoolInvariants {
  import opened Options
  import opened Sums
  import opened PoolModel

  // ---- the mutex ----

  ghost predicate WorkerLockInv(s: State) {
    && (forall i {:trigger s.workers[i]} :: 0 <= i < |s.workers| ==> (WorkerHolds(s.workers[i]) <==> s.owner == WorkerOwns(i)))
    && (s.owner.WorkerOwns? ==> s.owner.i < |s.workers|)
  }

  ghost predicate CallLockInv(s: State) {
    && (forall c {:trigger s.calls[c]} :: 0 <= c < |s.calls| ==> (CallHolds(s.calls[c].phase) <==> s.owner == CallOwns(c)))
    && (s.owner.CallOwns? ==> s.owner.c < |s.calls|)
  }

  predicate DtorLockInv(s: State) {
    DtorHolds(s.dtor) <==> s.owner == DtorOwns
  }

  /** A thread's program counter is inside a critical section exactly when it owns the mutex. */
  ghost predicate LockInv(s: State) {
    WorkerLockInv(s) && CallLockInv(s) && DtorLockInv(s)
  }

  // ---- families of steps ----

  /** Steps by which a worker moves its own program counter. */
  predicate OfWorker(a: Action) {
    || a.WorkerLock? || a.WaitReadStop? || a.WaitReadQueue? || a.Block? || a.ExitReadStop? || a.ExitReadQueue?
    || a.Front? || a.Pop? || a.WorkerUnlock? || a.Finish? || a.SpuriousWake?
  }

  /** Steps of a call that has begun. */
  predicate OfCall(a: Action) {
    a.EnqueueLock? || a.EnqueueCheck? || a.EnqueuePush? || a.EnqueueUnlock? || a.NotifyOne?
  }

  /** The worker whose program counter `a` moves, if there is one. */
  function Moved(a: Action): Option<nat> {
    match a
    case WorkerLock(i) => Some(i)
    case WaitReadStop(i) => Some(i)
    case WaitReadQueue(i) => Some(i)
    case Block(i) => Some(i)
    case ExitReadStop(i) => Some(i)
    case ExitReadQueue(i) => Some(i)
    case Front(i) => Some(i)
    case Pop(i) => Some(i)
    case WorkerUnlock(i) => Some(i)
    case Finish(i) => Some(i)
    case SpuriousWake(i) => Some(i)
    case EnqueueBegin(caller) => caller
    case NotifyOne(_, woken) => woken
    case _ => None
  }

  /** Steps leave the other workers alone, and the calls too unless they are a call's own. */
  lemma WorkersAfter(s: State, a: Action)
    requires Enabled(s, a)
    ensures Moved(a).Some? ==>
              && Moved(a).value < |s.workers|
              && |Apply(s, a).workers| == |s.workers|
              && Apply(s, a).workers == s.workers[Moved(a).value := Apply(s, a).workers[Moved(a).value]]
    ensures Moved(a).None? && !a.Spawn? && !a.NotifyAll? ==> Apply(s, a).workers == s.workers
  {
  }

  lemma CallsAfter(s: State, a: Action)
    requires Enabled(s, a)
    ensures var t := Apply(s, a);
            if OfCall(a) then
              a.c < |s.calls| == |t.calls| && t.calls == s.calls[a.c := Call(s.calls[a.c].caller, t.calls[a.c].phase)]
            else if a.EnqueueBegin? then t.calls == s.calls + [Call(a.caller, Arriving)]
            else t.calls == s.calls
  {
  }

  // ---- keeping the mutex ----

  lemma WorkerLockKeptByWorker(s: State, a: Action)
    requires LockInv(s) && Enabled(s, a) && OfWorker(a)
    ensures WorkerLockInv(Apply(s, a))
  {
    WorkersAfter(s, a);
  }

  lemma WorkerLockKeptByOthers(s: State, a: Action)
    requires LockInv(s) && Enabled(s, a) && !OfWorker(a)
    ensures WorkerLockInv(Apply(s, a))
  {
    WorkersAfter(s, a);
  }

  lemma CallLockKept(s: State, a: Action)
    requires LockInv(s) && Enabled(s, a)
    ensures CallLockInv(Apply(s, a))
  {
    CallsAfter(s, a);
  }

  lemma DtorLockKept(s: State, a: Action)
    requires LockInv(s) && Enabled(s, a)
    ensures DtorLockInv(Apply(s, a))
  {
  }

  lemma LockKept(s: State, a: Action)
    requires LockInv(s) && Enabled(s, a)
    ensures LockInv(Apply(s, a))
  {
    if OfWorker(a) {
      WorkerLockKeptByWorker(s, a);
    } else {
      WorkerLockKeptByOthers(s, a);
    }
    CallLockKept(s, a);
    DtorLockKept(s, a);
  }

  // ---- the stop flag and the joins ----

  predicate FlagInv(s: State) {
    && |s.workers| <= s.threads
    && (!s.dtor.Alive? ==> |s.workers| == s.threads)
    && (s.stop <==> s.dtor.Flagged? || s.dtor.Waking? || s.dtor.Joining? || s.dtor.Gone?)
    && (s.dtor.Joining? ==> s.dtor.next <= |s.workers|)
  }

  lemma FlagKept(s: State, a: Action)
    requires FlagInv(s) && Enabled(s, a)
    ensures FlagInv(Apply(s, a))
  {
  }

  /** The worker is among those the destructor has joined. */
  predicate Joined(s: State, i: nat) {
    s.dtor.Gone? || (s.dtor.Joining? && i < s.dtor.next)
  }

  ghost predicate JoinInv(s: State) {
    && (s.dtor.Joining? || s.dtor.Gone? ==> NoSleeper(s.workers))
    && (forall i {:trigger s.workers[i]} :: 0 <= i < |s.workers| && Joined(s, i) ==> s.workers[i].Exited?)
  }

  // ---- what a thread knows in its critical section ----

  /** What a worker has read of `stop` and `tasks` since it got the mutex is still so, and an exit is final. */
  predicate Knows(w: Worker, stop: bool, tasks: seq<nat>) {
    match w
    case TestingQueue => !stop
    case Blocking => !stop && tasks == []
    case Passed => stop || tasks != []
    case PassedStopped => stop
    case Taking => tasks != []
    case Fetched(task) => tasks != [] && tasks[0] == task
    case Leaving => stop && tasks == []
    case Exited => stop && tasks == []
    case _ => true
  }

  ghost predicate WorkerInv(s: State) {
    forall i {:trigger s.workers[i]} :: 0 <= i < |s.workers| ==> Knows(s.workers[i], s.stop, s.tasks)
  }

  /** What a call has read of `stop` since it got the mutex is still so, and a refusal is final. */
  predicate CallKnows(p: Phase, stop: bool) {
    (p.Checked? ==> !stop) && (p.Throwing? || p.Thrown? ==> stop)
  }

  ghost predicate CallInv(s: State) {
    forall c {:trigger s.calls[c]} :: 0 <= c < |s.calls| ==> CallKnows(s.calls[c].phase, s.stop)
  }

  /** The flag, the joins, and what each thread knows. */
  ghost predicate StopInv(s: State) {
    FlagInv(s) && JoinInv(s) && WorkerInv(s) && CallInv(s)
  }

  lemma JoinKeptByWorker(s: State, a: Action)
    requires LockInv(s) && StopInv(s) && Enabled(s, a) && OfWorker(a)
    ensures JoinInv(Apply(s, a))
  {
    WorkersAfter(s, a);
    assert Knows(s.workers[a.i], s.stop, s.tasks);
  }

  lemma JoinKeptByOthers(s: State, a: Action)
    requires LockInv(s) && StopInv(s) && Enabled(s, a) && !OfWorker(a)
    ensures JoinInv(Apply(s, a))
  {
    WorkersAfter(s, a);
  }

  /** A worker's step changes what it knows itself; if it pops, no other worker is in a critical section, and if one has
      exited the queue was empty already. */
  lemma WorkerKeptByWorker(s: State, a: Action)
    requires LockInv(s) && StopInv(s) && Enabled(s, a) && OfWorker(a)
    ensures WorkerInv(Apply(s, a))
  {
    var t := Apply(s, a);
    WorkersAfter(s, a);
    assert Knows(t.workers[a.i], t.stop, t.tasks);
    forall j {:trigger t.workers[j]} | 0 <= j < |t.workers| && j != a.i
      ensures Knows(t.workers[j], t.stop, t.tasks)
    {
      assert t.workers[j] == s.workers[j];
    }
  }

  lemma WorkerKeptByOthers(s: State, a: Action)
    requires LockInv(s) && StopInv(s) && Enabled(s, a) && !OfWorker(a)
    ensures WorkerInv(Apply(s, a))
  {
    WorkersAfter(s, a);
  }

  lemma CallKept(s: State, a: Action)
    requires LockInv(s) && StopInv(s) && Enabled(s, a)
    ensures CallInv(Apply(s, a))
  {
    CallsAfter(s, a);
  }

  lemma StopKept(s: State, a: Action)
    requires LockInv(s) && StopInv(s) && Enabled(s, a)
    ensures StopInv(Apply(s, a))
  {
    FlagKept(s, a);
    if OfWorker(a) {
      JoinKeptByWorker(s, a);
      WorkerKeptByWorker(s, a);
    } else {
      JoinKeptByOthers(s, a);
      WorkerKeptByOthers(s, a);
    }
    CallKept(s, a);
  }

  // ---- calls made by running tasks ----

  /** The last call recorded for a running task is a call that this worker made. */
  ghost predicate NestedInv(s: State) {
    forall i {:trigger s.workers[i]} :: 0 <= i < |s.workers| && s.workers[i].Running? && s.workers[i].nested.Some? ==>
      s.workers[i].nested.value < |s.calls| && s.calls[s.workers[i].nested.value].caller == Some(i)
  }

  lemma NestedKept(s: State, a: Action)
    requires NestedInv(s) && Enabled(s, a)
    ensures NestedInv(Apply(s, a))
  {
    WorkersAfter(s, a);
    CallsAfter(s, a);
  }

  /** The worker whose task made a call stays in that task, and in that call, until the call is over. */
  predicate Waits(s: State, c: nat)
    requires c < |s.calls|
  {
    s.calls[c].caller.Some? && !Closed(s.calls[c].phase) ==>
      var i := s.calls[c].caller.value;
      i < |s.workers| && s.workers[i].Running? && s.workers[i].nested == Some(c)
  }

  ghost predicate CallerInv(s: State) {
    forall c: nat {:trigger Waits(s, c)} :: c < |s.calls| ==> Waits(s, c)
  }

  lemma CallerKeptByWorker(s: State, a: Action)
    requires CallerInv(s) && Enabled(s, a) && OfWorker(a)
    ensures CallerInv(Apply(s, a))
  {
    WorkersAfter(s, a);
    CallsAfter(s, a);
    forall c: nat | c < |s.calls|
      ensures Waits(Apply(s, a), c)
    {
      assert Waits(s, c);
    }
  }

  lemma CallerKeptByOthers(s: State, a: Action)
    requires CallerInv(s) && Enabled(s, a) && !OfWorker(a)
    ensures CallerInv(Apply(s, a))
  {
    WorkersAfter(s, a);
    CallsAfter(s, a);
    forall c: nat | c < |Apply(s, a).calls|
      ensures Waits(Apply(s, a), c)
    {
      if c < |s.calls| {
        assert Waits(s, c);
      }
    }
  }

  lemma CallerKept(s: State, a: Action)
    requires CallerInv(s) && Enabled(s, a)
    ensures CallerInv(Apply(s, a))
  {
    if OfWorker(a) {
      CallerKeptByWorker(s, a);
    } else {
      CallerKeptByOthers(s, a);
    }
  }

  // ---- the flow of tasks ----

  /** A call has queued its task. */
  predicate Queued(p: Phase) {
    p.Pushed? || p.Notifying? || p.Returned?
  }

  ghost predicate NoDuplicates(q: seq<nat>) {
    forall j, k :: 0 <= j < k < |q| ==> q[j] != q[k]
  }

  /** Taken tasks followed by queued ones are the accepted ones, in order. */
  ghost predicate FifoInv(s: State) {
    s.started + s.tasks == s.accepted
  }

  /** The task a worker pops is the one it fetched, because nobody else popped in between. */
  lemma FifoKept(s: State, a: Action)
    requires FifoInv(s) && WorkerInv(s) && Enabled(s, a)
    ensures FifoInv(Apply(s, a))
  {
    if a.Pop? {
      assert Knows(s.workers[a.i], s.stop, s.tasks);
      assert s.tasks == [s.workers[a.i].task] + s.tasks[1..];
    }
  }

  /** The accepted tasks are those of the calls that queued one, each once. */
  ghost predicate AcceptInv(s: State) {
    && (forall c: nat {:trigger c in s.accepted} :: c in s.accepted <==> c < |s.calls| && Queued(s.calls[c].phase))
    && NoDuplicates(s.accepted)
  }

  lemma AcceptKeptByCall(s: State, a: Action)
    requires AcceptInv(s) && Enabled(s, a) && OfCall(a)
    ensures AcceptInv(Apply(s, a))
  {
    CallsAfter(s, a);
    if a.EnqueuePush? {
      assert a.c !in s.accepted;
    }
  }

  lemma AcceptKept(s: State, a: Action)
    requires AcceptInv(s) && Enabled(s, a)
    ensures AcceptInv(Apply(s, a))
  {
    CallsAfter(s, a);
    if OfCall(a) {
      AcceptKeptByCall(s, a);
    } else {
      assert Apply(s, a).accepted == s.accepted;
    }
  }

  /** The worker has a task in its hands. */
  function Busy(w: Worker): nat {
    if w.Popped? || w.Running? then 1 else 0
  }

  /** The worker has this task in its hands. */
  function Holds(task: nat): Worker -> nat {
    (w: Worker) => if (w.Popped? || w.Running?) && w.task == task then 1 else 0
  }

  function Count(task: nat, q: seq<nat>): nat {
    multiset(q)[task]
  }

  ghost predicate ConservedFor(s: State, task: nat) {
    Count(task, s.started) == Sum(Holds(task), s.workers) + Count(task, s.completed)
  }

  /** Each task is taken as often as it is in some worker's hands or finished. */
  ghost predicate ConserveInv(s: State) {
    forall task: nat :: ConservedFor(s, task)
  }

  lemma ConserveKeptByWorker(s: State, a: Action, task: nat)
    requires ConservedFor(s, task) && Enabled(s, a) && OfWorker(a)
    ensures ConservedFor(Apply(s, a), task)
  {
    WorkersAfter(s, a);
    SumUpdate(Holds(task), s.workers, a.i, Apply(s, a).workers[a.i]);
  }

  lemma ConserveKeptByOthers(s: State, a: Action, task: nat)
    requires ConservedFor(s, task) && Enabled(s, a) && !OfWorker(a)
    ensures ConservedFor(Apply(s, a), task)
  {
    var t := Apply(s, a);
    WorkersAfter(s, a);
    if Moved(a).Some? {
      SumUpdate(Holds(task), s.workers, Moved(a).value, t.workers[Moved(a).value]);
    } else if a.Spawn? {
      SumPush(Holds(task), s.workers, Wanting);
    } else if a.NotifyAll? {
      SumMonotone(Holds(task), s.workers, t.workers);
      SumMonotone(Holds(task), t.workers, s.workers);
    }
  }

  lemma ConserveKept(s: State, a: Action)
    requires ConserveInv(s) && Enabled(s, a)
    ensures ConserveInv(Apply(s, a))
  {
    forall task: nat
      ensures ConservedFor(Apply(s, a), task)
    {
      assert ConservedFor(s, task);
      if OfWorker(a) {
        ConserveKeptByWorker(s, a, task);
      } else {
        ConserveKeptByOthers(s, a, task);
      }
    }
  }

  /** The number of tasks taken is the number finished plus the number of busy workers. */
  ghost predicate BusyInv(s: State) {
    |s.started| == Sum(Busy, s.workers) + |s.completed|
  }

  lemma BusyKeptByWorker(s: State, a: Action)
    requires BusyInv(s) && Enabled(s, a) && OfWorker(a)
    ensures BusyInv(Apply(s, a))
  {
    WorkersAfter(s, a);
    SumUpdate(Busy, s.workers, a.i, Apply(s, a).workers[a.i]);
  }

  lemma BusyKept(s: State, a: Action)
    requires BusyInv(s) && Enabled(s, a)
    ensures BusyInv(Apply(s, a))
  {
    var t := Apply(s, a);
    WorkersAfter(s, a);
    if OfWorker(a) {
      BusyKeptByWorker(s, a);
    } else if Moved(a).Some? {
      SumUpdate(Busy, s.workers, Moved(a).value, t.workers[Moved(a).value]);
    } else if a.Spawn? {
      SumPush(Busy, s.workers, Wanting);
    } else if a.NotifyAll? {
      SumMonotone(Busy, s.workers, t.workers);
      SumMonotone(Busy, t.workers, s.workers);
    }
  }

  /** Worker `i` alone contributes to the count of a task in its hands. */
  lemma HeldIsStarted(s: State, i: nat)
    requires ConserveInv(s) && i < |s.workers| && Busy(s.workers[i]) == 1
    ensures s.workers[i].task in s.started
  {
    var task := s.workers[i].task;
    assert ConservedFor(s, task);
    SumZero(Holds(task), s.workers);
    assert Holds(task)(s.workers[i]) == 1;
    assert Count(task, s.started) > 0;
  }

  // ---- wake-ups ----

  /** A worker that will look at the queue before it can sleep, or is about to take a task. */
  function Ready(w: Worker): nat {
    if w.Wanting? || w.Testing? || w.TestingQueue? || w.Passed? || w.PassedStopped? || w.Taking? || w.Fetched? then 1 else 0
  }

  /** A call that has queued a task and not yet notified. */
  function Pending(c: Call): nat {
    if c.phase.Pushed? || c.phase.Notifying? then 1 else 0
  }

  /** While a worker sleeps, every queued task is matched by a notification to come or a worker about to look. */
  ghost predicate WakeInv(s: State) {
    NoSleeper(s.workers) || |s.tasks| <= Sum(Pending, s.calls) + Sum(Ready, s.workers)
  }

  /** In particular when a worker stops being ready without taking a task: the queue it saw empty is still empty, even when
      it goes to sleep some steps later. */
  lemma WakeKeptByWorker(s: State, a: Action)
    requires WakeInv(s) && WorkerInv(s) && Enabled(s, a) && OfWorker(a)
    ensures WakeInv(Apply(s, a))
  {
    var t := Apply(s, a);
    WorkersAfter(s, a);
    CallsAfter(s, a);
    SumUpdate(Ready, s.workers, a.i, t.workers[a.i]);
    assert Knows(s.workers[a.i], s.stop, s.tasks);
    if !NoSleeper(t.workers) && NoSleeper(s.workers) {
      assert a.Block? && t.tasks == [];
    }
  }

  lemma WakeKeptByCall(s: State, a: Action)
    requires WakeInv(s) && Enabled(s, a) && OfCall(a)
    ensures WakeInv(Apply(s, a))
  {
    SumUpdate(Pending, s.calls, a.c, Apply(s, a).calls[a.c]);
    if a.NotifyOne? && a.woken.Some? {
      SumUpdate(Ready, s.workers, a.woken.value, Wanting);
    }
  }

  lemma WakeKeptByOthers(s: State, a: Action)
    requires WakeInv(s) && Enabled(s, a) && !OfWorker(a)
    ensures WakeInv(Apply(s, a))
  {
    if OfCall(a) {
      WakeKeptByCall(s, a);
    } else if a.EnqueueBegin? {
      SumPush(Pending, s.calls, Call(a.caller, Arriving));
      if a.caller.Some? { SumUpdate(Ready, s.workers, a.caller.value, Apply(s, a).workers[a.caller.value]); }
    } else if a.Spawn? {
      SumPush(Ready, s.workers, Wanting);
    }
  }

  // ---- how far a task can be overtaken ----

  ghost function Elements(q: seq<nat>): set<nat> {
    set x | x in q
  }

  lemma {:induction false} ElementsSize(q: seq<nat>)
    requires NoDuplicates(q)
    ensures |Elements(q)| == |q|
  {
    if q != [] {
      var front, last := q[..|q| - 1], q[|q| - 1];
      ElementsSize(front);
      assert Elements(q) == Elements(front) + {last};
      assert last !in front;
    }
  }

  /** Fewer than n of the tasks queued before this one are not done. */
  ghost predicate OvertakesFewer(n: nat, task: nat, q: seq<nat>, done: seq<nat>) {
    exists p :: 0 <= p < |q| && q[p] == task && |Elements(q[..p]) - Elements(done)| < n
  }

  lemma OvertakesInLonger(n: nat, task: nat, q: seq<nat>, r: seq<nat>, done: seq<nat>)
    requires OvertakesFewer(n, task, q, done) && q <= r
    ensures OvertakesFewer(n, task, r, done)
  {
    var p :| 0 <= p < |q| && q[p] == task && |Elements(q[..p]) - Elements(done)| < n;
    assert r[p] == task && r[..p] == q[..p];
  }

  /** When the k-th task finished, fewer than `threads` of the tasks taken before it were unfinished. */
  ghost predicate OvertakeInv(s: State) {
    forall k {:trigger s.completed[k]} :: 0 <= k < |s.completed| ==>
      OvertakesFewer(s.threads, s.completed[k], s.started, s.completed[..k])
  }

  lemma HistoriesGrow(s: State, a: Action)
    requires Enabled(s, a)
    ensures s.accepted <= Apply(s, a).accepted && s.started <= Apply(s, a).started
    ensures Apply(s, a).completed == if a.Finish? then s.completed + [s.workers[a.i].task] else s.completed
    ensures Apply(s, a).threads == s.threads
  {
  }

  lemma TwiceCountsTwo(q: seq<nat>, j: nat, k: nat)
    requires j < k < |q| && q[j] == q[k]
    ensures Count(q[k], q) >= 2
  {
    assert q == q[..k] + q[k..];
    assert q[..k][j] == q[k] && q[k..][0] == q[k];
    assert q[k] in multiset(q[..k]) && q[k] in multiset(q[k..]);
  }

  lemma {:induction false} CountOnce(q: seq<nat>, c: nat)
    requires NoDuplicates(q)
    ensures Count(c, q) == if c in q then 1 else 0
  {
    if q != [] {
      assert q == [q[0]] + q[1..];
      assert forall j :: 0 <= j < |q| - 1 ==> q[1..][j] == q[j + 1];
      CountOnce(q[1..], c);
    }
  }

  /** No task is taken twice, so none finishes twice, and what has finished has been taken. */
  lemma HistoriesHaveNoDuplicates(s: State)
    requires FifoInv(s) && AcceptInv(s) && ConserveInv(s)
    ensures NoDuplicates(s.started) && NoDuplicates(s.completed)
    ensures Elements(s.completed) <= Elements(s.started)
  {
    forall j, k | 0 <= j < k < |s.started|
      ensures s.started[j] != s.started[k]
    {
      assert s.accepted[j] == s.started[j] && s.accepted[k] == s.started[k];
    }
    forall c: nat
      ensures Count(c, s.completed) <= if c in s.started then 1 else 0
    {
      CountOnce(s.started, c);
      assert ConservedFor(s, c);
    }
    forall j, k | 0 <= j < k < |s.completed|
      ensures s.completed[j] != s.completed[k]
    {
      if s.completed[j] == s.completed[k] {
        TwiceCountsTwo(s.completed, j, k);
      }
    }
    forall c | c in s.completed
      ensures c in s.started
    {
      assert Count(c, s.completed) > 0;
    }
  }

  /** The tasks taken and unfinished are as many as the busy workers. */
  lemma UnfinishedAreFew(s: State)
    requires FifoInv(s) && AcceptInv(s) && ConserveInv(s) && BusyInv(s) && |s.workers| <= s.threads
    ensures |Elements(s.started) - Elements(s.completed)| <= s.threads
  {
    HistoriesHaveNoDuplicates(s);
    ElementsSize(s.started);
    ElementsSize(s.completed);
    SumBound(Busy, s.workers);
    var started, completed := Elements(s.started), Elements(s.completed);
    assert started == completed + (started - completed);
    assert |started| == |completed| + |started - completed|;
  }

  /** A task that is about to finish overtakes only tasks in the hands of the other workers. */
  lemma FinishingOvertakesFew(s: State, i: nat)
    requires FifoInv(s) && AcceptInv(s) && ConserveInv(s) && BusyInv(s) && |s.workers| <= s.threads
    requires i < |s.workers| && Busy(s.workers[i]) == 1
    ensures OvertakesFewer(s.threads, s.workers[i].task, s.started, s.completed)
  {
    var task := s.workers[i].task;
    HeldIsStarted(s, i);
    HeldIsUnfinished(s, i);
    HistoriesHaveNoDuplicates(s);
    UnfinishedAreFew(s);
    var p :| 0 <= p < |s.started| && s.started[p] == task;
    var before := Elements(s.started[..p]) - Elements(s.completed);
    var unfinished := Elements(s.started) - Elements(s.completed);
    assert task in unfinished;
    assert before <= unfinished - {task};
    assert unfinished - {task} == before + (unfinished - {task} - before);
  }

  lemma HeldIsUnfinished(s: State, i: nat)
    requires FifoInv(s) && AcceptInv(s) && ConserveInv(s) && i < |s.workers| && Busy(s.workers[i]) == 1
    ensures s.workers[i].task !in s.completed
  {
    var task := s.workers[i].task;
    HistoriesHaveNoDuplicates(s);
    CountOnce(s.started, task);
    SumZero(Holds(task), s.workers);
    assert Holds(task)(s.workers[i]) == 1;
    assert ConservedFor(s, task);
  }

  lemma OvertakeKept(s: State, a: Action)
    requires OvertakeInv(s) && FifoInv(s) && AcceptInv(s) && ConserveInv(s) && BusyInv(s) && |s.workers| <= s.threads
    requires Enabled(s, a)
    ensures OvertakeInv(Apply(s, a))
  {
    var t := Apply(s, a);
    HistoriesGrow(s, a);
    forall k {:trigger t.completed[k]} | 0 <= k < |t.completed|
      ensures OvertakesFewer(t.threads, t.completed[k], t.started, t.completed[..k])
    {
      if k < |s.completed| {
        assert t.completed[k] == s.completed[k] && t.completed[..k] == s.completed[..k];
      } else {
        FinishingOvertakesFew(s, a.i);
        assert t.completed[..k] == s.completed;
      }
      OvertakesInLonger(s.threads, t.completed[k], s.started, t.started, t.completed[..k]);
    }
  }

  // ---- the order in which threads got the mutex ----

  /** The calls that got the mutex before the destructor did, in that order. */
  function CallsBeforeDtor(grants: seq<Owner>): seq<nat> {
    if grants == [] || grants[0].DtorOwns? then []
    else (if grants[0].CallOwns? then [grants[0].c] else []) + CallsBeforeDtor(grants[1..])
  }

  lemma {:induction false} CallsBeforeDtorPush(grants: seq<Owner>, o: Owner)
    ensures CallsBeforeDtor(grants + [o]) ==
            CallsBeforeDtor(grants) + if o.CallOwns? && DtorOwns !in grants then [o.c] else []
  {
    if grants == [] {
      assert grants + [o] == [o];
      assert CallsBeforeDtor([o]) == (if o.CallOwns? then [o.c] else []) + CallsBeforeDtor([]);
    } else {
      CallsBeforeDtorPush(grants[1..], o);
      assert (grants + [o])[1..] == grants[1..] + [o];
      assert grants == [grants[0]] + grants[1..];
    }
  }

  /** The call that owns the mutex and has found or will find `stop` unset. */
  function Deciding(s: State): seq<nat> {
    if s.owner.CallOwns? && s.owner.c < |s.calls|
       && (s.calls[s.owner.c].phase.Checked? || (s.calls[s.owner.c].phase.Inside? && !s.stop)) then [s.owner.c] else []
  }

  predicate MutexOrderInv(s: State) {
    s.accepted + Deciding(s) == CallsBeforeDtor(s.grants)
  }

  ghost predicate GrantedInv(s: State) {
    && (DtorOwns in s.grants <==> !s.dtor.Alive? && !s.dtor.Closing?)
    && (forall c {:trigger s.calls[c]} :: 0 <= c < |s.calls| && !s.calls[c].phase.Arriving? ==> CallOwns(c) in s.grants)
  }

  ghost predicate GrantInv(s: State) {
    MutexOrderInv(s) && GrantedInv(s)
  }

  lemma GrantedKept(s: State, a: Action)
    requires GrantedInv(s) && Enabled(s, a)
    ensures GrantedInv(Apply(s, a))
  {
    CallsAfter(s, a);
  }

  lemma MutexOrderKeptByLock(s: State, c: nat)
    requires GrantInv(s) && FlagInv(s) && DtorLockInv(s) && Enabled(s, EnqueueLock(c))
    ensures MutexOrderInv(Apply(s, EnqueueLock(c)))
  {
    CallsBeforeDtorPush(s.grants, CallOwns(c));
  }

  lemma MutexOrderKeptByOwner(s: State, a: Action)
    requires CallLockInv(s) && CallInv(s) && MutexOrderInv(s) && Enabled(s, a)
    requires a.EnqueueCheck? || a.EnqueuePush? || a.EnqueueUnlock?
    ensures MutexOrderInv(Apply(s, a))
  {
    assert CallHolds(s.calls[a.c].phase) && CallKnows(s.calls[a.c].phase, s.stop);
    assert Apply(s, a).grants == s.grants;
  }

  lemma MutexOrderKeptByNotify(s: State, a: Action)
    requires CallLockInv(s) && MutexOrderInv(s) && Enabled(s, a) && a.NotifyOne?
    ensures MutexOrderInv(Apply(s, a))
  {
    assert s.owner != CallOwns(a.c) by {
      assert !CallHolds(s.calls[a.c].phase);
    }
    assert Deciding(Apply(s, a)) == Deciding(s);
  }

  lemma MutexOrderKeptByCall(s: State, a: Action)
    requires LockInv(s) && StopInv(s) && GrantInv(s) && Enabled(s, a) && OfCall(a)
    ensures MutexOrderInv(Apply(s, a))
  {
    if a.EnqueueLock? {
      MutexOrderKeptByLock(s, a.c);
    } else if a.NotifyOne? {
      MutexOrderKeptByNotify(s, a);
    } else {
      MutexOrderKeptByOwner(s, a);
    }
  }

  lemma MutexOrderKeptByOthers(s: State, a: Action)
    requires LockInv(s) && StopInv(s) && GrantInv(s) && Enabled(s, a) && !OfCall(a)
    ensures MutexOrderInv(Apply(s, a))
  {
    CallsAfter(s, a);
    if a.WorkerLock? {
      CallsBeforeDtorPush(s.grants, WorkerOwns(a.i));
    } else if a.DestroyLock? {
      CallsBeforeDtorPush(s.grants, DtorOwns);
    } else if a.Block? || a.WorkerUnlock? {
      assert s.owner == WorkerOwns(a.i);
    }
  }

  lemma GrantKept(s: State, a: Action)
    requires LockInv(s) && StopInv(s) && GrantInv(s) && Enabled(s, a)
    ensures GrantInv(Apply(s, a))
  {
    GrantedKept(s, a);
    if OfCall(a) {
      MutexOrderKeptByCall(s, a);
    } else {
      MutexOrderKeptByOthers(s, a);
    }
  }

  // ---- all of it ----

  ghost predicate Inv(s: State) {
    && LockInv(s)
    && StopInv(s)
    && NestedInv(s)
    && CallerInv(s)
    && FifoInv(s)
    && AcceptInv(s)
    && ConserveInv(s)
    && BusyInv(s)
    && WakeInv(s)
    && OvertakeInv(s)
    && GrantInv(s)
  }

  lemma ThreadsInit(threads: nat)
    ensures LockInv(Init(threads)) && StopInv(Init(threads)) && NestedInv(Init(threads)) && CallerInv(Init(threads))
    ensures GrantInv(Init(threads))
  {
  }

  lemma TasksInit(threads: nat)
    ensures FifoInv(Init(threads)) && AcceptInv(Init(threads)) && OvertakeInv(Init(threads)) && WakeInv(Init(threads))
    ensures ConserveInv(Init(threads)) && BusyInv(Init(threads))
  {
    forall task: nat
      ensures ConservedFor(Init(threads), task)
    {
    }
  }

  lemma InvInit(threads: nat)
    ensures Inv(Init(threads))
  {
    ThreadsInit(threads);
    TasksInit(threads);
  }

  /** Every enabled step of every thread keeps the invariant. */
  lemma InvKept(s: State, a: Action)
    requires Inv(s) && Enabled(s, a)
    ensures Inv(Apply(s, a))
  {
    LockKept(s, a);
    StopKept(s, a);
    NestedKept(s, a);
    CallerKept(s, a);
    FifoKept(s, a);
    AcceptKept(s, a);
    ConserveKept(s, a);
    BusyKept(s, a);
    if OfWorker(a) {
      WakeKeptByWorker(s, a);
    } else {
      WakeKeptByOthers(s, a);
    }
    OvertakeKept(s, a);
    GrantKept(s, a);
  }

  lemma {:induction false} InvRun(s: State, schedule: seq<Action>)
    requires Inv(s)
    ensures Inv(Run(s, schedule))
    decreases |schedule|
  {
    if schedule != [] {
      var before := Run(s, schedule[..|schedule| - 1]);
      InvRun(s, schedule[..|schedule| - 1]);
      if Enabled(before, schedule[|schedule| - 1]) {
        InvKept(before, schedule[|schedule| - 1]);
      }
    }
  }

  /** Whatever the number of workers and whatever the schedule, the pool is in a state that satisfies `Inv`. */
  lemma {:induction false} InvReachable(threads: nat, schedule: seq<Action>)
    ensures Inv(Run(Init(threads), schedule))
  {
    InvInit(threads);
    InvRun(Init(threads), schedule);
  }
}
