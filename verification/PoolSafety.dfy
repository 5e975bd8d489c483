/** What holds of the pool in every reachable state, for every number of workers and every schedule. */
module PoolSafety {
  import opened Options
  import opened Sums
  import opened PoolModel
  import opened PoolInvariants

  /** The state a pool of `threads` workers is in after a schedule. */
  function At(threads: nat, schedule: seq<Action>): State {
    Run(Init(threads), schedule)
  }

  lemma {:induction false} RunThenRun(s: State, first: seq<Action>, second: seq<Action>)
    ensures Run(s, first + second) == Run(Run(s, first), second)
    decreases |second|
  {
    if second == [] {
      assert first + second == first;
    } else {
      var all := first + second;
      assert all[..|all| - 1] == first + second[..|second| - 1];
      RunThenRun(s, first, second[..|second| - 1]);
    }
  }

  // ---- the mutex ----

  /** The owner that the thread of `a` would be. */
  function Thread(a: Action): Owner {
    match a
    case WorkerLock(i) => WorkerOwns(i)
    case WaitReadStop(i) => WorkerOwns(i)
    case WaitReadQueue(i) => WorkerOwns(i)
    case Block(i) => WorkerOwns(i)
    case ExitReadStop(i) => WorkerOwns(i)
    case ExitReadQueue(i) => WorkerOwns(i)
    case Front(i) => WorkerOwns(i)
    case Pop(i) => WorkerOwns(i)
    case WorkerUnlock(i) => WorkerOwns(i)
    case Finish(i) => WorkerOwns(i)
    case SpuriousWake(i) => WorkerOwns(i)
    case EnqueueLock(c) => CallOwns(c)
    case EnqueueCheck(c) => CallOwns(c)
    case EnqueuePush(c) => CallOwns(c)
    case EnqueueUnlock(c) => CallOwns(c)
    case NotifyOne(c, _) => CallOwns(c)
    case DestroyBegin => DtorOwns
    case DestroyLock => DtorOwns
    case SetStop => DtorOwns
    case DestroyUnlock => DtorOwns
    case NotifyAll => DtorOwns
    case Join => DtorOwns
    case Spawn => Nobody
    case EnqueueBegin(_) => Nobody
  }

  /** The step neither reads nor writes `tasks` and `stop`: with any other values in them it is enabled all the same, has
      the same effect on everything else, and leaves them as they were. */
  ghost predicate IgnoresQueue(s: State, a: Action, tasks: seq<nat>, stop: bool)
    requires Enabled(s, a)
  {
    var other := s.(tasks := tasks, stop := stop);
    && Apply(s, a).tasks == s.tasks && Apply(s, a).stop == s.stop
    && Enabled(other, a)
    && Apply(other, a) == Apply(s, a).(tasks := tasks, stop := stop)
  }

  /** Steps that read or write `tasks` or `stop`. */
  predicate Touches(a: Action) {
    || a.WaitReadStop? || a.WaitReadQueue? || a.ExitReadStop? || a.ExitReadQueue? || a.Front? || a.Pop?
    || a.EnqueueCheck? || a.EnqueuePush? || a.SetStop?
  }

  lemma TouchingNeedsTheMutex(s: State, a: Action)
    requires LockInv(s) && Enabled(s, a) && Touches(a)
    ensures s.owner == Thread(a)
  {
    if OfWorker(a) {
      assert WorkerHolds(s.workers[a.i]);
    } else if OfCall(a) {
      assert CallHolds(s.calls[a.c].phase);
    }
  }

  lemma WorkerIgnoresQueue(s: State, a: Action, tasks: seq<nat>, stop: bool)
    requires Enabled(s, a) && !Touches(a) && OfWorker(a)
    ensures IgnoresQueue(s, a, tasks, stop)
  {
  }

  lemma OthersIgnoreQueue(s: State, a: Action, tasks: seq<nat>, stop: bool)
    requires Enabled(s, a) && !Touches(a) && !OfWorker(a)
    ensures IgnoresQueue(s, a, tasks, stop)
  {
  }

  /** A step of a thread that does not own the mutex neither reads nor writes `tasks` and `stop`: with any other values in
      them it can be taken all the same, has the same effect on everything else, and leaves them as they were. */
  lemma OnlyTheOwnerTouchesTheQueue(threads: nat, schedule: seq<Action>, a: Action, tasks: seq<nat>, stop: bool)
    requires var s := At(threads, schedule); Enabled(s, a) && (s.owner == Nobody || s.owner != Thread(a))
    ensures var s := At(threads, schedule);
            var other := s.(tasks := tasks, stop := stop);
            && Apply(s, a).tasks == s.tasks && Apply(s, a).stop == s.stop
            && Enabled(other, a)
            && Apply(other, a) == Apply(s, a).(tasks := tasks, stop := stop)
  {
    var s := At(threads, schedule);
    assert LockInv(s) by { InvReachable(threads, schedule); }
    if Touches(a) {
      TouchingNeedsTheMutex(s, a);
    } else if OfWorker(a) {
      WorkerIgnoresQueue(s, a, tasks, stop);
    } else {
      OthersIgnoreQueue(s, a, tasks, stop);
    }
  }

  /** A task that calls `enqueue` never waits for a mutex its own thread owns: neither its worker nor another call from
      the same task owns it, and the worker is running the task that made the call. */
  lemma NestedEnqueueNeverSelfLocks(threads: nat, schedule: seq<Action>, c: nat)
    requires var s := At(threads, schedule);
             c < |s.calls| && s.calls[c].caller.Some? && s.calls[c].phase.Arriving?
    ensures var s := At(threads, schedule);
            var i := s.calls[c].caller.value;
            && i < |s.workers| && s.workers[i].Running?
            && s.owner != WorkerOwns(i)
            && (forall d {:trigger s.calls[d]} :: 0 <= d < |s.calls| && s.calls[d].caller == Some(i) ==> s.owner != CallOwns(d))
  {
    InvReachable(threads, schedule);
    var s := At(threads, schedule);
    var i := s.calls[c].caller.value;
    assert Waits(s, c);
    forall d: nat | d < |s.calls| && s.calls[d].caller == Some(i)
      ensures s.owner != CallOwns(d)
    {
      assert Waits(s, d);
    }
  }

  // ---- wake-ups ----

  /** While some worker sleeps, queued tasks do not outnumber the notifications still to come plus the workers that will
      look at the queue before sleeping. */
  lemma NoLostWakeup(threads: nat, schedule: seq<Action>)
    ensures var s := At(threads, schedule);
            !NoSleeper(s.workers) ==> |s.tasks| <= Sum(Pending, s.calls) + Sum(Ready, s.workers)
  {
    InvReachable(threads, schedule);
  }

  /** So a task never waits beside workers that all sleep: a call is about to notify, or a worker wants the mutex, or one has
      it and will take a task. */
  lemma NoTaskIsForgotten(threads: nat, schedule: seq<Action>, i: nat)
    requires var s := At(threads, schedule); s.tasks != [] && i < |s.workers| && s.workers[i].Sleeping?
    ensures var s := At(threads, schedule);
            || (exists c :: 0 <= c < |s.calls| && (s.calls[c].phase.Pushed? || s.calls[c].phase.Notifying?))
            || (exists j :: 0 <= j < |s.workers| &&
                  (var w := s.workers[j]; w.Wanting? || w.Testing? || w.TestingQueue? || w.Passed? || w.PassedStopped?
                                          || w.Taking? || w.Fetched?))
  {
    var s := At(threads, schedule);
    NoLostWakeup(threads, schedule);
    SumZero(Pending, s.calls);
    SumZero(Ready, s.workers);
  }

  // ---- stop is for ever ----

  /** What never goes back: shutdown, exits, and the end of acceptance. */
  ghost predicate Onward(s: State, t: State) {
    && |s.workers| <= |t.workers| && t.threads == s.threads
    && (s.stop ==> t.stop && t.accepted == s.accepted)
    && (!s.dtor.Alive? ==> !t.dtor.Alive?)
    && (s.dtor.Joining? || s.dtor.Gone? ==> t.dtor.Joining? || t.dtor.Gone?)
    && (forall i {:trigger t.workers[i]} :: 0 <= i < |s.workers| && s.workers[i].Exited? ==> t.workers[i].Exited?)
  }

  lemma WorkerIsOnward(s: State, a: Action)
    requires Enabled(s, a) && OfWorker(a)
    ensures Onward(s, Apply(s, a))
  {
    WorkersAfter(s, a);
  }

  lemma OthersAreOnward(s: State, a: Action)
    requires CallInv(s) && Enabled(s, a) && !OfWorker(a)
    ensures Onward(s, Apply(s, a))
  {
    WorkersAfter(s, a);
    if a.EnqueuePush? {
      assert CallKnows(s.calls[a.c].phase, s.stop);
    }
  }

  lemma StepIsOnward(s: State, a: Action)
    requires CallInv(s) && Enabled(s, a)
    ensures Onward(s, Apply(s, a))
  {
    if OfWorker(a) {
      WorkerIsOnward(s, a);
    } else {
      OthersAreOnward(s, a);
    }
  }

  lemma {:induction false} StopIsForEver(s: State, schedule: seq<Action>)
    requires Inv(s)
    ensures Onward(s, Run(s, schedule))
    decreases |schedule|
  {
    if schedule != [] {
      var before, a := Run(s, schedule[..|schedule| - 1]), schedule[|schedule| - 1];
      StopIsForEver(s, schedule[..|schedule| - 1]);
      InvRun(s, schedule[..|schedule| - 1]);
      if Enabled(before, a) {
        StepIsOnward(before, a);
        OnwardTransitive(s, before, Apply(before, a));
      }
    }
  }

  lemma OnwardTransitive(s: State, t: State, u: State)
    requires Onward(s, t) && Onward(t, u)
    ensures Onward(s, u)
  {
    forall i {:trigger u.workers[i]} | 0 <= i < |s.workers| && s.workers[i].Exited?
      ensures u.workers[i].Exited?
    {
      assert t.workers[i].Exited?;
    }
  }

  /** Once `notify_all` has run, no worker sleeps, then or ever after. */
  lemma NobodySleepsAfterNotifyAll(threads: nat, schedule: seq<Action>, later: seq<Action>)
    requires At(threads, schedule).dtor.Joining? || At(threads, schedule).dtor.Gone?
    ensures NoSleeper(At(threads, schedule + later).workers)
  {
    RunThenRun(Init(threads), schedule, later);
    InvReachable(threads, schedule);
    StopIsForEver(At(threads, schedule), later);
    InvReachable(threads, schedule + later);
  }

  /** A worker exits only when `stop` is set and the queue is empty, and from then on both stay so, nothing more is
      accepted, and the worker stays out. */
  lemma ExitIsStable(threads: nat, schedule: seq<Action>, later: seq<Action>, i: nat)
    requires i < |At(threads, schedule).workers| && At(threads, schedule).workers[i].Exited?
    ensures var s, t := At(threads, schedule), At(threads, schedule + later);
            && s.stop && s.tasks == []
            && t.stop && t.tasks == [] && t.accepted == s.accepted
            && i < |t.workers| && t.workers[i].Exited?
  {
    RunThenRun(Init(threads), schedule, later);
    InvReachable(threads, schedule);
    StopIsForEver(At(threads, schedule), later);
    InvReachable(threads, schedule + later);
    assert At(threads, schedule + later).workers[i].Exited?;
  }

  // ---- acceptance ----

  lemma {:induction false} CallsBeforeDtorMeaning(grants: seq<Owner>, c: nat)
    ensures c in CallsBeforeDtor(grants) <==>
            exists k :: 0 <= k < |grants| && grants[k] == CallOwns(c) && DtorOwns !in grants[..k]
  {
    if grants != [] && !grants[0].DtorOwns? {
      CallsBeforeDtorMeaning(grants[1..], c);
      if c in CallsBeforeDtor(grants[1..]) {
        var k :| 0 <= k < |grants[1..]| && grants[1..][k] == CallOwns(c) && DtorOwns !in grants[1..][..k];
        assert grants[..k + 1] == [grants[0]] + grants[1..][..k];
        assert grants[k + 1] == CallOwns(c);
      }
      if k :| 0 < k < |grants| && grants[k] == CallOwns(c) && DtorOwns !in grants[..k] {
        assert grants[..k] == [grants[0]] + grants[1..][..k - 1];
        assert grants[1..][k - 1] == CallOwns(c);
      }
      if grants[0] == CallOwns(c) {
        assert DtorOwns !in grants[..0];
      }
    } else if grants != [] {
      forall k | 0 < k < |grants|
        ensures DtorOwns in grants[..k]
      {
        assert grants[..k][0] == DtorOwns;
      }
    }
  }

  /** A call that has looked at `stop` had its task accepted exactly when it got the mutex before the destructor did. */
  lemma AcceptedIffBeforeDtor(threads: nat, schedule: seq<Action>, c: nat)
    requires var s := At(threads, schedule);
             c < |s.calls| && !s.calls[c].phase.Arriving? && !s.calls[c].phase.Inside? && !s.calls[c].phase.Checked?
    ensures var s := At(threads, schedule);
            && CallOwns(c) in s.grants
            && (c in s.accepted <==>
                exists k :: 0 <= k < |s.grants| && s.grants[k] == CallOwns(c) && DtorOwns !in s.grants[..k])
            && (c in s.accepted <==> !s.calls[c].phase.Throwing? && !s.calls[c].phase.Thrown?)
  {
    InvReachable(threads, schedule);
    var s := At(threads, schedule);
    CallsBeforeDtorMeaning(s.grants, c);
    assert c !in Deciding(s);
    assert c in CallsBeforeDtor(s.grants) <==> c in s.accepted;
  }

  /** Tasks are accepted in the order in which their calls got the mutex. */
  lemma AcceptedInMutexOrder(threads: nat, schedule: seq<Action>)
    ensures var s := At(threads, schedule);
            && s.accepted <= CallsBeforeDtor(s.grants)
            && (!s.owner.CallOwns? ==> s.accepted == CallsBeforeDtor(s.grants))
  {
    InvReachable(threads, schedule);
  }

  /** A call that threw has no task anywhere in the pool, then or ever after. */
  lemma ThrownLeavesNoTrace(threads: nat, schedule: seq<Action>, later: seq<Action>, c: nat)
    requires var s := At(threads, schedule); c < |s.calls| && s.calls[c].phase.Thrown?
    ensures var t := At(threads, schedule + later);
            c !in t.accepted && c !in t.tasks && c !in t.started && c !in t.completed
  {
    RunThenRun(Init(threads), schedule, later);
    InvReachable(threads, schedule);
    InvReachable(threads, schedule + later);
    var s, t := At(threads, schedule), At(threads, schedule + later);
    StopIsForEver(s, later);
    assert c !in s.accepted;
    assert c !in t.started + t.tasks;
    assert forall d :: d in t.started || d in t.tasks ==> d in t.started + t.tasks;
    assert ConservedFor(t, c);
  }

  // ---- conservation ----

  /** Every accepted task is in exactly one place: queued, in the hands of one worker, or finished; no other task is
      anywhere.  So no task is lost, duplicated or run twice. */
  lemma EachTaskInOnePlace(threads: nat, schedule: seq<Action>, c: nat)
    ensures var s := At(threads, schedule);
            Count(c, s.tasks) + Sum(Holds(c), s.workers) + Count(c, s.completed) == if c in s.accepted then 1 else 0
  {
    InvReachable(threads, schedule);
    var s := At(threads, schedule);
    CountOnce(s.accepted, c);
    assert ConservedFor(s, c);
    assert multiset(s.started + s.tasks) == multiset(s.started) + multiset(s.tasks);
  }

  // ---- order ----

  /** Tasks are taken in the order of acceptance, and at most one per worker is unfinished. */
  lemma TakenInOrder(threads: nat, schedule: seq<Action>)
    ensures var s := At(threads, schedule);
            && s.started + s.tasks == s.accepted
            && |s.completed| <= |s.started| <= |s.completed| + threads
  {
    InvReachable(threads, schedule);
    StopIsForEver(Init(threads), schedule) by { InvInit(threads); }
    SumBound(Busy, At(threads, schedule).workers);
  }

  /** When the k-th task finished, fewer than `threads` of the tasks accepted before it were unfinished. */
  lemma OvertakingIsBounded(threads: nat, schedule: seq<Action>, k: nat)
    requires k < |At(threads, schedule).completed|
    ensures var s := At(threads, schedule);
            OvertakesFewer(threads, s.completed[k], s.accepted, s.completed[..k])
  {
    InvReachable(threads, schedule);
    StopIsForEver(Init(threads), schedule) by { InvInit(threads); }
    var s := At(threads, schedule);
    assert OvertakesFewer(threads, s.completed[k], s.started, s.completed[..k]);
    OvertakesInLonger(threads, s.completed[k], s.started, s.accepted, s.completed[..k]) by {
      assert s.started <= s.started + s.tasks;
    }
  }

  lemma LaterOvertakes(q: seq<nat>, k: nat, p: nat)
    requires k < |q| && p <= |q| && NoDuplicates(q)
    ensures p > k ==> |Elements(q[..p]) - Elements(q[..k])| > 0
  {
    if p > k {
      assert q[..p][k] == q[k];
      assert q[k] in Elements(q[..p]) - Elements(q[..k]);
    }
  }

  lemma EarlierIsDone(q: seq<nat>, done: seq<nat>, k: nat, p: nat)
    requires k < |done| && k <= |q| && p < |q| && NoDuplicates(done) && done[..k] == q[..k]
    ensures p < k ==> q[p] != done[k]
  {
    if p < k {
      assert done[..k][p] == q[..k][p];
    }
  }

  lemma OneMoreAgrees(q: seq<nat>, done: seq<nat>, k: nat)
    requires k < |done| && k < |q| && done[..k] == q[..k] && done[k] == q[k]
    ensures done[..k + 1] == q[..k + 1]
  {
    assert done[..k + 1] == done[..k] + [done[k]] && q[..k + 1] == q[..k] + [q[k]];
  }

  /** A task that overtakes nothing comes right after the ones done before it. */
  lemma NextInOrder(q: seq<nat>, done: seq<nat>, k: nat)
    requires k < |done| <= |q| && NoDuplicates(q) && NoDuplicates(done)
    requires done[..k] == q[..k] && OvertakesFewer(1, done[k], q, done[..k])
    ensures done[k] == q[k]
  {
    var p :| 0 <= p < |q| && q[p] == done[k] && |Elements(q[..p]) - Elements(done[..k])| < 1;
    LaterOvertakes(q, k, p);
    EarlierIsDone(q, done, k, p);
  }

  ghost predicate NoOvertaking(q: seq<nat>, done: seq<nat>) {
    forall k: nat {:trigger OvertakesFewer(1, done[k], q, done[..k])} ::
      k < |done| ==> OvertakesFewer(1, done[k], q, done[..k])
  }

  lemma {:induction false} NoOvertakingIsOrder(q: seq<nat>, done: seq<nat>, n: nat)
    requires n <= |done| <= |q| && NoDuplicates(q) && NoDuplicates(done) && NoOvertaking(q, done)
    ensures done[..n] == q[..n]
  {
    if n > 0 {
      var k: nat := n - 1;
      NoOvertakingIsOrder(q, done, k);
      assert OvertakesFewer(1, done[k], q, done[..k]);
      NextInOrder(q, done, k);
      OneMoreAgrees(q, done, k);
    }
  }

  lemma OneWorkerNeverOvertakes(schedule: seq<Action>)
    ensures NoOvertaking(At(1, schedule).accepted, At(1, schedule).completed)
  {
    var q, done := At(1, schedule).accepted, At(1, schedule).completed;
    forall k: nat | k < |done|
      ensures OvertakesFewer(1, done[k], q, done[..k])
    {
      OvertakingIsBounded(1, schedule, k);
    }
  }

  /** With one worker, tasks finish in exactly the order in which they were accepted. */
  lemma {:induction false} OneWorkerFinishesInOrder(schedule: seq<Action>)
    ensures At(1, schedule).completed <= At(1, schedule).accepted
  {
    var s := At(1, schedule);
    TakenInOrder(1, schedule);
    OneWorkerNeverOvertakes(schedule);
    assert NoDuplicates(s.accepted) && NoDuplicates(s.completed) by {
      InvReachable(1, schedule);
      HistoriesHaveNoDuplicates(s);
    }
    NoOvertakingIsOrder(s.accepted, s.completed, |s.completed|);
  }

  // ---- shutdown ----

  /** With nothing queued and nothing in a worker's hands, what was accepted is what has finished, each task once. */
  lemma AllFinished(threads: nat, schedule: seq<Action>)
    requires var s := At(threads, schedule);
             s.tasks == [] && forall i :: 0 <= i < |s.workers| ==> Busy(s.workers[i]) == 0
    ensures var s := At(threads, schedule);
            && multiset(s.completed) == multiset(s.accepted)
            && (forall c: nat :: Count(c, s.completed) == if c in s.accepted then 1 else 0)
  {
    var s := At(threads, schedule);
    InvReachable(threads, schedule);
    forall c: nat
      ensures Count(c, s.completed) == if c in s.accepted then 1 else 0
      ensures multiset(s.completed)[c] == multiset(s.accepted)[c]
    {
      EachTaskInOnePlace(threads, schedule, c);
      CountOnce(s.accepted, c);
      SumZero(Holds(c), s.workers);
    }
  }

  /** When the destructor is done, every worker has exited, and the tasks that have been run, each once, are exactly those
      of the calls that returned or will return a future.  The one exception is a pool without workers, which strands
      whatever it accepted. */
  lemma ShutdownDrains(threads: nat, schedule: seq<Action>)
    requires At(threads, schedule).dtor.Gone?
    ensures var s := At(threads, schedule);
            && |s.workers| == threads && (forall i :: 0 <= i < threads ==> s.workers[i].Exited?)
            && (s.tasks == [] <==> threads > 0 || s.accepted == [])
            && (threads > 0 ==> multiset(s.completed) == multiset(s.accepted))
            && (threads > 0 ==> forall c: nat ::
                  Count(c, s.completed) == if c < |s.calls| && Queued(s.calls[c].phase) then 1 else 0)
            && (threads == 0 ==> s.completed == [] && s.tasks == s.accepted)
  {
    InvReachable(threads, schedule);
    StopIsForEver(Init(threads), schedule) by { InvInit(threads); }
    var s := At(threads, schedule);
    if threads > 0 {
      assert s.workers[0].Exited?;
      AllFinished(threads, schedule);
    } else {
      if s.completed != [] {
        OvertakingIsBounded(threads, schedule, 0);
      }
      assert s.started == [];
    }
  }

  lemma OneMore(s: State, schedule: seq<Action>, a: Action)
    ensures Run(s, schedule + [a]) == Next(Run(s, schedule), a)
  {
    assert (schedule + [a])[..|schedule|] == schedule;
  }

  lemma ThreeMore(threads: nat, schedule: seq<Action>, s: State, a: Action, b: Action, c: Action)
    returns (longer: seq<Action>)
    requires At(threads, schedule) == s
    ensures At(threads, longer) == Next(Next(Next(s, a), b), c)
  {
    OneMore(Init(threads), schedule, a);
    OneMore(Init(threads), schedule + [a], b);
    OneMore(Init(threads), schedule + [a] + [b], c);
    longer := schedule + [a] + [b] + [c];
  }

  /** A pool without workers in which one call has got as far as this, and then the destructor. */
  function Workerless(p: Phase, tasks: seq<nat>, owner: Owner): State {
    State(0, [], tasks, false, owner, [Call(None, p)], Alive, tasks, [], [], [CallOwns(0)])
  }

  function WorkerlessEnd(stop: bool, d: Dtor, owner: Owner): State {
    State(0, [], [0], stop, owner, [Call(None, Returned)], d, [0], [], [], [CallOwns(0), DtorOwns])
  }

  lemma WorkerlessPoolIsEntered()
    ensures Next(Next(Init(0), EnqueueBegin(None)), EnqueueLock(0)) == Workerless(Inside, [], CallOwns(0))
  {
    assert Next(Init(0), EnqueueBegin(None)) == State(0, [], [], false, Nobody, [Call(None, Arriving)], Alive, [], [], [], []);
  }

  lemma WorkerlessPoolQueues() returns (schedule: seq<Action>)
    ensures At(0, schedule) == Workerless(Checked, [], CallOwns(0))
  {
    WorkerlessPoolIsEntered();
    schedule := ThreeMore(0, [], Init(0), EnqueueBegin(None), EnqueueLock(0), EnqueueCheck(0));
  }

  lemma WorkerlessPoolAccepts() returns (schedule: seq<Action>)
    ensures At(0, schedule) == Workerless(Returned, [0], Nobody)
  {
    schedule := WorkerlessPoolQueues();
    var s := Workerless(Checked, [], CallOwns(0));
    schedule := ThreeMore(0, schedule, s, EnqueuePush(0), EnqueueUnlock(0), NotifyOne(0, None));
    assert Next(s, EnqueuePush(0)) == Workerless(Pushed, [0], CallOwns(0));
    assert Next(Workerless(Pushed, [0], CallOwns(0)), EnqueueUnlock(0)) == Workerless(Notifying, [0], Nobody);
  }

  lemma WorkerlessPoolStops() returns (schedule: seq<Action>)
    ensures At(0, schedule) == WorkerlessEnd(true, Flagged, DtorOwns)
  {
    schedule := WorkerlessPoolAccepts();
    schedule := ThreeMore(0, schedule, Workerless(Returned, [0], Nobody), DestroyBegin, DestroyLock, SetStop);
    assert Next(Workerless(Returned, [0], Nobody), DestroyBegin) == Workerless(Returned, [0], Nobody).(dtor := Closing);
    assert Next(Workerless(Returned, [0], Nobody).(dtor := Closing), DestroyLock) == WorkerlessEnd(false, Holding, DtorOwns);
  }

  /** The exception is real: a pool without workers accepts a task, hands out its future, and is destroyed with the task
      still queued. */
  lemma WorkerlessPoolStrandsItsTask() returns (schedule: seq<Action>)
    ensures var s := At(0, schedule);
            s.dtor.Gone? && s.calls == [Call(None, Returned)] && s.tasks == [0] && s.completed == []
  {
    schedule := WorkerlessPoolStops();
    schedule := ThreeMore(0, schedule, WorkerlessEnd(true, Flagged, DtorOwns), DestroyUnlock, NotifyAll, Join);
    assert Next(WorkerlessEnd(true, Flagged, DtorOwns), DestroyUnlock) == WorkerlessEnd(true, Waking, Nobody);
    assert Next(WorkerlessEnd(true, Waking, Nobody), NotifyAll) == WorkerlessEnd(true, Joining(0), Nobody);
  }
}
