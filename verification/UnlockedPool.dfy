/** The same pool with a mutex that keeps nobody out, as evidence that the results about the pool are about its locking. */
module UnlockedPool {
  import opened Options
  import opened PoolModel
  import opened PoolProgress

  /** A thread that wants the mutex gets it, whoever owns it. */
  function NextUnlocked(s: State, a: Action): State {
    if AtStep(s, a) then Apply(s, a) else s
  }

  function RunUnlocked(s: State, schedule: seq<Action>): State
    decreases |schedule|
  {
    if schedule == [] then s
    else NextUnlocked(RunUnlocked(s, schedule[..|schedule| - 1]), schedule[|schedule| - 1])
  }

  lemma OneMore(schedule: seq<Action>, a: Action)
    ensures RunUnlocked(Init(1), schedule + [a]) == NextUnlocked(RunUnlocked(Init(1), schedule), a)
  {
    assert (schedule + [a])[..|schedule|] == schedule;
  }

  lemma ThreeMore(schedule: seq<Action>, s: State, a: Action, b: Action, c: Action) returns (longer: seq<Action>)
    requires RunUnlocked(Init(1), schedule) == s
    ensures RunUnlocked(Init(1), longer) == NextUnlocked(NextUnlocked(NextUnlocked(s, a), b), c)
  {
    OneMore(schedule, a);
    OneMore(schedule + [a], b);
    OneMore(schedule + [a] + [b], c);
    longer := schedule + [a] + [b] + [c];
  }

  const W := WorkerOwns(0)
  const C := CallOwns(0)

  /** One worker, before any call. */
  function Early(w: Worker): State {
    State(1, [w], [], false, W, [], Alive, [], [], [], [W])
  }

  /** One worker, which got the mutex first, and one call, which got it as well. */
  function Late(w: Worker, p: Phase, tasks: seq<nat>, owner: Owner): State {
    State(1, [w], tasks, false, owner, [Call(None, p)], Alive, tasks, [], [], [W, C])
  }

  lemma WorkerLooks() returns (schedule: seq<Action>)
    ensures RunUnlocked(Init(1), schedule) == Early(TestingQueue)
  {
    schedule := ThreeMore([], Init(1), Spawn, WorkerLock(0), WaitReadStop(0));
    assert NextUnlocked(Init(1), Spawn) == State(1, [Wanting], [], false, Nobody, [], Alive, [], [], [], []);
    assert NextUnlocked(NextUnlocked(Init(1), Spawn), WorkerLock(0)) == Early(Testing);
  }

  lemma CallIntrudes() returns (schedule: seq<Action>)
    ensures RunUnlocked(Init(1), schedule) == Late(Blocking, Inside, [], C)
  {
    schedule := WorkerLooks();
    schedule := ThreeMore(schedule, Early(TestingQueue), WaitReadQueue(0), EnqueueBegin(None), EnqueueLock(0));
    assert NextUnlocked(Early(TestingQueue), WaitReadQueue(0)) == Early(Blocking);
    assert NextUnlocked(Early(Blocking), EnqueueBegin(None))
        == State(1, [Blocking], [], false, W, [Call(None, Arriving)], Alive, [], [], [], [W]);
  }

  lemma CallQueues() returns (schedule: seq<Action>)
    ensures RunUnlocked(Init(1), schedule) == Late(Blocking, Notifying, [0], Nobody)
  {
    schedule := CallIntrudes();
    schedule := ThreeMore(schedule, Late(Blocking, Inside, [], C), EnqueueCheck(0), EnqueuePush(0), EnqueueUnlock(0));
    assert NextUnlocked(Late(Blocking, Inside, [], C), EnqueueCheck(0)) == Late(Blocking, Checked, [], C);
    assert NextUnlocked(Late(Blocking, Checked, [], C), EnqueuePush(0)) == Late(Blocking, Pushed, [0], C);
  }

  lemma NobodyCanMove()
    ensures forall a :: Internal(a) ==> !AtStep(Late(Sleeping, Returned, [0], Nobody), a)
  {
  }

  /** Without the mutex a notification can fall between a worker's look at the empty queue and its going to sleep: a task
      is queued, its caller has the future, the only worker sleeps, and no thread can move. */
  lemma WithoutTheMutexWakeupsAreLost() returns (schedule: seq<Action>)
    ensures var s := RunUnlocked(Init(1), schedule);
            && s.workers == [Sleeping] && s.tasks == [0] && s.calls == [Call(None, Returned)]
            && forall a :: Internal(a) ==> !AtStep(s, a)
  {
    schedule := CallQueues();
    schedule := ThreeMore(schedule, Late(Blocking, Notifying, [0], Nobody), NotifyOne(0, None), Block(0), Block(0));
    assert NextUnlocked(Late(Blocking, Notifying, [0], Nobody), NotifyOne(0, None)) == Late(Blocking, Returned, [0], Nobody);
    assert NextUnlocked(Late(Blocking, Returned, [0], Nobody), Block(0)) == Late(Sleeping, Returned, [0], Nobody);
    NobodyCanMove();
  }
}
