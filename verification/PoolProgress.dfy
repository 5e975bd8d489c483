/** The pool cannot get stuck with work to do, and shutting it down takes a bounded number of steps. */
module PoolProgress {
  import opened Options
  import opened Sums
  import opened PoolModel
  import opened PoolInvariants
  import opened PoolSafety

  /** A step the pool's own code takes: not a new call from a client, not the decision to destroy the pool, and not a
      spurious wake-up, on which nothing may rely. */
  predicate Internal(a: Action) {
    !a.EnqueueBegin? && !a.DestroyBegin? && !a.SpuriousWake?
  }

  predicate CanStep(s: State, a: Action) {
    Internal(a) && Enabled(s, a)
  }

  ghost predicate Stuck(s: State) {
    forall a :: !CanStep(s, a)
  }

  predicate AllAre(workers: seq<Worker>, w: Worker) {
    forall i :: 0 <= i < |workers| ==> workers[i] == w
  }

  /** Nothing is left to do: every worker launched, every call over, nobody in a critical section, nothing queued that a
      worker could take, and either all workers asleep in a live pool or all workers gone from a destroyed one. */
  ghost predicate Quiet(s: State) {
    && |s.workers| == s.threads
    && s.owner.Nobody?
    && (forall c {:trigger s.calls[c]} :: 0 <= c < |s.calls| ==> Closed(s.calls[c].phase))
    && (s.workers == [] || s.tasks == [])
    && ((s.dtor.Alive? && AllAre(s.workers, Sleeping)) || (s.dtor.Gone? && AllAre(s.workers, Exited)))
  }

  function FirstSleeper(workers: seq<Worker>): (i: Option<nat>)
    ensures if i.Some? then i.value < |workers| && workers[i.value].Sleeping? else NoSleeper(workers)
  {
    if workers == [] then None
    else if workers[0].Sleeping? then Some(0)
    else
      var rest := FirstSleeper(workers[1..]);
      assert forall k :: 0 < k < |workers| ==> workers[k] == workers[1..][k - 1];
      if rest.Some? then Some(rest.value + 1) else None
  }

  /** The next step of a call that is not over. */
  function CallsNext(s: State, c: nat): Action
    requires c < |s.calls| && !Closed(s.calls[c].phase)
  {
    match s.calls[c].phase
    case Arriving => EnqueueLock(c)
    case Inside => EnqueueCheck(c)
    case Checked => EnqueuePush(c)
    case Throwing => EnqueueUnlock(c)
    case Pushed => EnqueueUnlock(c)
    case Notifying => NotifyOne(c, FirstSleeper(s.workers))
  }

  /** The next step of a worker that is neither asleep nor gone, nor inside a call its task made. */
  function WorkersNext(w: Worker, i: nat): Action
    requires !w.Sleeping? && !w.Exited?
  {
    match w
    case Wanting => WorkerLock(i)
    case Testing => WaitReadStop(i)
    case TestingQueue => WaitReadQueue(i)
    case Blocking => Block(i)
    case Passed => ExitReadStop(i)
    case PassedStopped => ExitReadQueue(i)
    case Taking => Front(i)
    case Fetched(_) => Pop(i)
    case Popped(_) => WorkerUnlock(i)
    case Leaving => WorkerUnlock(i)
    case Running(_, _) => Finish(i)
  }

  /** The next step of a destructor that has begun and is not done. */
  function DtorsNext(d: Dtor): Action
    requires !d.Alive? && !d.Gone?
  {
    match d
    case Closing => DestroyLock
    case Holding => SetStop
    case Flagged => DestroyUnlock
    case Waking => NotifyAll
    case Joining(_) => Join
  }

  /** A call that is not over can take its next step once the mutex is free or its own. */
  lemma OpenCallCanMove(s: State, c: nat)
    requires LockInv(s) && (s.owner.Nobody? || s.owner == CallOwns(c)) && c < |s.calls| && !Closed(s.calls[c].phase)
    ensures CanStep(s, CallsNext(s, c))
  {
    assert CallHolds(s.calls[c].phase) <==> s.owner == CallOwns(c);
  }

  lemma OwningCallCanMove(s: State, c: nat)
    requires LockInv(s) && s.owner == CallOwns(c)
    ensures c < |s.calls| && CallHolds(s.calls[c].phase) && CanStep(s, CallsNext(s, c))
  {
    assert CallHolds(s.calls[c].phase);
    OpenCallCanMove(s, c);
  }

  /** The worker that owns the mutex can take its next step. */
  lemma OwningWorkerCanMove(s: State, i: nat)
    requires LockInv(s) && WorkerInv(s) && s.owner == WorkerOwns(i)
    ensures i < |s.workers| && WorkerHolds(s.workers[i]) && CanStep(s, WorkersNext(s.workers[i], i))
  {
    assert WorkerHolds(s.workers[i]);
    assert Knows(s.workers[i], s.stop, s.tasks);
  }

  /** A worker that neither sleeps nor has exited, and has no call under way, can take its next step once the mutex is
      free. */
  lemma AwakeWorkerCanMove(s: State, i: nat)
    requires LockInv(s) && NestedInv(s) && s.owner.Nobody?
    requires i < |s.workers| && !s.workers[i].Sleeping? && !s.workers[i].Exited?
    requires forall c {:trigger s.calls[c]} :: 0 <= c < |s.calls| ==> Closed(s.calls[c].phase)
    ensures CanStep(s, WorkersNext(s.workers[i], i))
  {
    assert !WorkerHolds(s.workers[i]);
  }

  /** So can the destructor, once nobody else can. */
  lemma DestructorCanMove(s: State)
    requires LockInv(s) && FlagInv(s) && JoinInv(s) && WorkerInv(s) && !s.dtor.Alive? && !s.dtor.Gone?
    requires || s.owner == DtorOwns
             || (s.owner.Nobody? && forall i :: 0 <= i < |s.workers| ==> s.workers[i].Sleeping? || s.workers[i].Exited?)
    ensures CanStep(s, DtorsNext(s.dtor))
  {
  }

  /** The thread that owns the mutex can take a step. */
  lemma OwnerCanMove(s: State)
    requires LockInv(s) && FlagInv(s) && JoinInv(s) && WorkerInv(s) && !s.owner.Nobody?
    ensures !Stuck(s)
  {
    match s.owner {
      case WorkerOwns(i) => OwningWorkerCanMove(s, i);
      case CallOwns(c) => OwningCallCanMove(s, c);
      case DtorOwns => DestructorCanMove(s);
    }
  }

  lemma StuckIsQuiet(s: State)
    requires Inv(s) && Stuck(s)
    ensures Quiet(s)
  {
    assert !CanStep(s, Spawn);
    if !s.owner.Nobody? { OwnerCanMove(s); }
    forall c {:trigger s.calls[c]} | 0 <= c < |s.calls|
      ensures Closed(s.calls[c].phase)
    {
      if !Closed(s.calls[c].phase) { OpenCallCanMove(s, c); }
    }
    forall i | 0 <= i < |s.workers|
      ensures s.workers[i].Sleeping? || s.workers[i].Exited?
    {
      if !s.workers[i].Sleeping? && !s.workers[i].Exited? { AwakeWorkerCanMove(s, i); }
    }
    if !s.dtor.Alive? && !s.dtor.Gone? { DestructorCanMove(s); }
    AllAtRest(s);
  }

  /** When no worker is awake and no call is under way, all workers sleep or all are gone, and nothing is queued. */
  lemma AllAtRest(s: State)
    requires WakeInv(s) && StopInv(s) && (s.dtor.Alive? || s.dtor.Gone?)
    requires forall c {:trigger s.calls[c]} :: 0 <= c < |s.calls| ==> Closed(s.calls[c].phase)
    requires forall i :: 0 <= i < |s.workers| ==> s.workers[i].Sleeping? || s.workers[i].Exited?
    ensures s.workers == [] || s.tasks == []
    ensures (s.dtor.Alive? && AllAre(s.workers, Sleeping)) || (s.dtor.Gone? && AllAre(s.workers, Exited))
  {
    SumZero(Pending, s.calls);
    SumZero(Ready, s.workers);
    if s.workers != [] {
      assert s.workers[0].Sleeping? || s.workers[0].Exited?;
    }
  }

  lemma QuietIsStuck(s: State)
    requires Quiet(s)
    ensures Stuck(s)
  {
  }

  /** The pool is stuck, spurious wake-ups aside, exactly when there is nothing left for it to do. */
  lemma StuckIffQuiet(threads: nat, schedule: seq<Action>)
    ensures Stuck(At(threads, schedule)) <==> Quiet(At(threads, schedule))
  {
    InvReachable(threads, schedule);
    if Stuck(At(threads, schedule)) {
      StuckIsQuiet(At(threads, schedule));
    } else if Quiet(At(threads, schedule)) {
      QuietIsStuck(At(threads, schedule));
    }
  }

  /** With at least one worker, a queued task, an unfinished call, a thread in a critical section, a busy worker or an
      unfinished shutdown each mean that some thread can take a step. */
  lemma NoDeadlock(threads: nat, schedule: seq<Action>)
    requires threads > 0
    requires var s := At(threads, schedule);
             || s.tasks != []
             || !s.owner.Nobody?
             || (exists c :: 0 <= c < |s.calls| && !Closed(s.calls[c].phase))
             || (exists i :: 0 <= i < |s.workers| && !s.workers[i].Sleeping? && !s.workers[i].Exited?)
             || (!s.dtor.Alive? && !s.dtor.Gone?)
    ensures exists a :: CanStep(At(threads, schedule), a)
  {
    InvReachable(threads, schedule);
    StopIsForEver(Init(threads), schedule) by { InvInit(threads); }
    StuckIffQuiet(threads, schedule);
  }

  /** Whenever a pool with workers has come to rest, every task it accepted has been run, exactly once, and every call is
      over; if destruction had begun, it is complete and all workers are gone. */
  lemma AtRestEverythingHasRun(threads: nat, schedule: seq<Action>)
    requires threads > 0 && Stuck(At(threads, schedule))
    ensures var s := At(threads, schedule);
            && s.tasks == [] && multiset(s.completed) == multiset(s.accepted)
            && (forall c: nat {:trigger c in s.completed} :: c in s.completed <==> c < |s.calls| && s.calls[c].phase.Returned?)
            && (s.dtor.Alive? || (s.dtor.Gone? && AllAre(s.workers, Exited)))
  {
    InvReachable(threads, schedule);
    StopIsForEver(Init(threads), schedule) by { InvInit(threads); }
    StuckIffQuiet(threads, schedule);
    AllFinished(threads, schedule);
    var s := At(threads, schedule);
    forall c: nat
      ensures c in s.completed <==> c in s.accepted
    {
      assert c in s.completed <==> Count(c, s.completed) > 0;
    }
  }

  // ---- how long it can go on ----

  /** What a worker's next steps cost, the tasks still queued aside. */
  function WorkerCost(w: Worker): nat {
    match w
    case Popped(_) => 8
    case Running(_, _) => 7
    case Wanting => 6
    case Testing => 5
    case TestingQueue => 4
    case Passed => 3
    case PassedStopped => 2
    case Blocking => 1
    case Leaving => 1
    case Taking => 1
    case Fetched(_) => 0
    case Sleeping => 0
    case Exited => 0
  }

  /** A call may add a task and wake a worker. */
  function CallCost(c: Call): nat {
    match c.phase
    case Arriving => 20
    case Inside => 19
    case Checked => 18
    case Pushed => 8
    case Notifying => 7
    case Throwing => 1
    case Returned => 0
    case Thrown => 0
  }

  /** The destructor may wake every worker, and then joins them one by one. */
  function DtorCost(d: Dtor, threads: nat): nat {
    match d
    case Alive => 7 * threads + 6
    case Closing => 7 * threads + 5
    case Holding => 7 * threads + 4
    case Flagged => 7 * threads + 3
    case Waking => 7 * threads + 2
    case Joining(next) => if next <= threads then threads - next + 1 else 0
    case Gone => 0
  }

  function LaunchCost(s: State): nat {
    if |s.workers| <= s.threads then 7 * (s.threads - |s.workers|) else 0
  }

  function Cost(s: State): nat {
    LaunchCost(s) + 9 * |s.tasks| + Sum(WorkerCost, s.workers) + Sum(CallCost, s.calls) + DtorCost(s.dtor, s.threads)
  }

  /** What the two kinds of step that nobody controls may add. */
  function Added(a: Action): nat {
    if a.EnqueueBegin? then 20 else if a.SpuriousWake? then 6 else 0
  }

  /** A step that uses up some of the cost. */
  predicate Spends(a: Action) {
    !a.EnqueueBegin? && !a.SpuriousWake?
  }

  /** What a worker's step does to the parts of the cost. */
  lemma WorkerStepSpends(s: State, a: Action)
    requires Enabled(s, a) && OfWorker(a) && !a.SpuriousWake?
    ensures var t := Apply(s, a);
            && a.i < |s.workers| == |t.workers| && t.threads == s.threads && t.dtor == s.dtor && t.calls == s.calls
            && 9 * |t.tasks| + WorkerCost(t.workers[a.i]) < 9 * |s.tasks| + WorkerCost(s.workers[a.i])
  {
  }

  lemma WorkerStepCosts(s: State, a: Action)
    requires Enabled(s, a) && OfWorker(a) && !a.SpuriousWake?
    ensures Cost(Apply(s, a)) < Cost(s)
  {
    WorkersAfter(s, a);
    WorkerStepSpends(s, a);
    SumUpdate(WorkerCost, s.workers, a.i, Apply(s, a).workers[a.i]);
  }

  /** What a call's step does to the parts of the cost. */
  lemma CallStepSpends(s: State, a: Action)
    requires Enabled(s, a) && OfCall(a) && !a.NotifyOne?
    ensures var t := Apply(s, a);
            && a.c < |s.calls| == |t.calls| && t.threads == s.threads && t.dtor == s.dtor && t.workers == s.workers
            && 9 * |t.tasks| + CallCost(t.calls[a.c]) < 9 * |s.tasks| + CallCost(s.calls[a.c])
  {
  }

  lemma CallStepCosts(s: State, a: Action)
    requires Enabled(s, a) && OfCall(a) && !a.NotifyOne?
    ensures Cost(Apply(s, a)) < Cost(s)
  {
    CallsAfter(s, a);
    CallStepSpends(s, a);
    SumUpdate(CallCost, s.calls, a.c, Apply(s, a).calls[a.c]);
  }

  lemma NotifyOneCosts(s: State, c: nat, woken: Option<nat>)
    requires Enabled(s, NotifyOne(c, woken))
    ensures Cost(Apply(s, NotifyOne(c, woken))) < Cost(s)
  {
    SumUpdate(CallCost, s.calls, c, Apply(s, NotifyOne(c, woken)).calls[c]);
    if woken.Some? {
      SumUpdate(WorkerCost, s.workers, woken.value, Wanting);
    }
  }

  lemma {:induction false} WakeAllCosts(workers: seq<Worker>)
    ensures Sum(WorkerCost, WakeAll(workers)) <= Sum(WorkerCost, workers) + 6 * |workers|
  {
    if workers != [] {
      WakeAllCosts(workers[1..]);
      assert WakeAll(workers)[1..] == WakeAll(workers[1..]);
    }
  }

  lemma DtorStepCosts(s: State, a: Action)
    requires Inv(s) && Enabled(s, a)
    requires a.DestroyBegin? || a.DestroyLock? || a.SetStop? || a.DestroyUnlock? || a.NotifyAll? || a.Join?
    ensures Cost(Apply(s, a)) < Cost(s)
  {
    if a.NotifyAll? {
      WakeAllCosts(s.workers);
    }
  }

  lemma SpawnCosts(s: State)
    requires Enabled(s, Spawn)
    ensures Cost(Apply(s, Spawn)) < Cost(s)
  {
    SumPush(WorkerCost, s.workers, Wanting);
  }

  lemma SpuriousWakeCosts(s: State, i: nat)
    requires Enabled(s, SpuriousWake(i))
    ensures Cost(Apply(s, SpuriousWake(i))) == Cost(s) + 6
  {
    SumUpdate(WorkerCost, s.workers, i, Wanting);
  }

  lemma BeginCosts(s: State, caller: Option<nat>)
    requires Enabled(s, EnqueueBegin(caller))
    ensures Cost(Apply(s, EnqueueBegin(caller))) == Cost(s) + 20
  {
    SumPush(CallCost, s.calls, Call(caller, Arriving));
    if caller.Some? {
      SumUpdate(WorkerCost, s.workers, caller.value, Apply(s, EnqueueBegin(caller)).workers[caller.value]);
    }
  }

  lemma StepCosts(s: State, a: Action)
    requires Inv(s) && Enabled(s, a)
    ensures Cost(Apply(s, a)) + (if Spends(a) then 1 else 0) <= Cost(s) + Added(a)
  {
    if a.EnqueueBegin? {
      BeginCosts(s, a.caller);
    } else if a.SpuriousWake? {
      SpuriousWakeCosts(s, a.i);
    } else if a.NotifyOne? {
      NotifyOneCosts(s, a.c, a.woken);
    } else if OfCall(a) {
      CallStepCosts(s, a);
    } else if OfWorker(a) {
      WorkerStepCosts(s, a);
    } else if a.Spawn? {
      SpawnCosts(s);
    } else {
      DtorStepCosts(s, a);
    }
  }

  /** How many steps that satisfy `p` take place in a schedule. */
  function Happen(p: Action -> bool, s: State, schedule: seq<Action>): nat
    decreases |schedule|
  {
    if schedule == [] then 0
    else
      var front, a := schedule[..|schedule| - 1], schedule[|schedule| - 1];
      Happen(p, s, front) + if p(a) && Enabled(Run(s, front), a) then 1 else 0
  }

  predicate BeginsCall(a: Action) {
    a.EnqueueBegin?
  }

  predicate WakesSpuriously(a: Action) {
    a.SpuriousWake?
  }

  /** From any state the pool can be in, all steps of all threads together are bounded by the work at hand, plus 20 for
      each call that is still to come and 6 for each spurious wake-up. */
  lemma {:induction false} StepsAreBounded(s: State, later: seq<Action>)
    requires Inv(s)
    ensures Happen(Spends, s, later) + Cost(Run(s, later))
         <= Cost(s) + 20 * Happen(BeginsCall, s, later) + 6 * Happen(WakesSpuriously, s, later)
    decreases |later|
  {
    if later != [] {
      var front, a := later[..|later| - 1], later[|later| - 1];
      StepsAreBounded(s, front);
      InvRun(s, front);
      if Enabled(Run(s, front), a) {
        StepCosts(Run(s, front), a);
      }
    }
  }

  lemma {:induction false} CallsAreCounted(s: State, later: seq<Action>)
    ensures |Run(s, later).calls| == |s.calls| + Happen(BeginsCall, s, later)
    decreases |later|
  {
    if later != [] {
      CallsAreCounted(s, later[..|later| - 1]);
      var before, a := Run(s, later[..|later| - 1]), later[|later| - 1];
      if Enabled(before, a) {
        CallsAfter(before, a);
      }
    }
  }

  /** In the join loop not even that: nobody can wake spuriously any more, so that only calls still to come can add to the
      steps, in any schedule. */
  lemma {:induction false} JoinLoopIsBounded(s: State, later: seq<Action>)
    requires Inv(s) && (s.dtor.Joining? || s.dtor.Gone?)
    ensures Happen(WakesSpuriously, s, later) == 0
    ensures Happen(Spends, s, later) + Cost(Run(s, later)) <= Cost(s) + 20 * Happen(BeginsCall, s, later)
  {
    NobodyWakesSpuriously(s, later);
    StepsAreBounded(s, later);
  }

  lemma {:induction false} NobodyWakesSpuriously(s: State, later: seq<Action>)
    requires Inv(s) && (s.dtor.Joining? || s.dtor.Gone?)
    ensures Happen(WakesSpuriously, s, later) == 0
    decreases |later|
  {
    if later != [] {
      var front, a := later[..|later| - 1], later[|later| - 1];
      NobodyWakesSpuriously(s, front);
      StopIsForEver(s, front);
      InvRun(s, front);
      assert NoSleeper(Run(s, front).workers);
    }
  }

  /** Over its whole life, whatever the schedule, a pool takes at most 14 steps per worker, 20 per call, 6 per spurious
      wake-up, and 6 more.  So it never runs for ever without new calls, and the destructor's join loop ends. */
  lemma LifeIsBounded(threads: nat, schedule: seq<Action>)
    ensures Happen(Spends, Init(threads), schedule)
         <= 14 * threads + 6 + 20 * |At(threads, schedule).calls| + 6 * Happen(WakesSpuriously, Init(threads), schedule)
  {
    InvInit(threads);
    StepsAreBounded(Init(threads), schedule);
    CallsAreCounted(Init(threads), schedule);
  }

  /** Every step of the schedule is taken. */
  ghost predicate AllTaken(s: State, schedule: seq<Action>) {
    forall k {:trigger schedule[k]} :: 0 <= k < |schedule| ==> Enabled(Run(s, schedule[..k]), schedule[k])
  }

  ghost function SpuriousWakes(schedule: seq<Action>): set<nat> {
    set k: nat | k < |schedule| && schedule[k].SpuriousWake?
  }

  lemma HappenOnceMore(p: Action -> bool, s: State, front: seq<Action>, a: Action)
    requires Enabled(Run(s, front), a)
    ensures Happen(p, s, front + [a]) == Happen(p, s, front) + if p(a) then 1 else 0
  {
    assert (front + [a])[..|front|] == front;
  }

  lemma AllTakenFront(s: State, front: seq<Action>, a: Action)
    requires AllTaken(s, front + [a])
    ensures AllTaken(s, front) && Enabled(Run(s, front), a)
  {
    var all := front + [a];
    assert all[..|front|] == front && all[|front|] == a;
    forall k {:trigger front[k]} | 0 <= k < |front|
      ensures Enabled(Run(s, front[..k]), front[k])
    {
      assert all[k] == front[k] && all[..k] == front[..k];
    }
  }

  lemma SpuriousWakesOneMore(front: seq<Action>, a: Action)
    ensures |SpuriousWakes(front + [a])| == |SpuriousWakes(front)| + if a.SpuriousWake? then 1 else 0
  {
    assert SpuriousWakes(front + [a]) == SpuriousWakes(front) + (if a.SpuriousWake? then {|front|} else {});
  }

  lemma {:induction false} StepsAreCounted(s: State, schedule: seq<Action>)
    requires AllTaken(s, schedule)
    ensures Happen(Spends, s, schedule) + Happen(BeginsCall, s, schedule) + Happen(WakesSpuriously, s, schedule) == |schedule|
    ensures Happen(WakesSpuriously, s, schedule) == |SpuriousWakes(schedule)|
    decreases |schedule|
  {
    if schedule != [] {
      var front, a := schedule[..|schedule| - 1], schedule[|schedule| - 1];
      assert schedule == front + [a];
      AllTakenFront(s, front, a);
      StepsAreCounted(s, front);
      SpuriousWakesOneMore(front, a);
      LastStepIsCounted(s, front, a);
    }
  }

  lemma LastStepIsCounted(s: State, front: seq<Action>, a: Action)
    requires Enabled(Run(s, front), a)
    ensures Happen(Spends, s, front + [a]) == Happen(Spends, s, front) + if Spends(a) then 1 else 0
    ensures Happen(BeginsCall, s, front + [a]) == Happen(BeginsCall, s, front) + if BeginsCall(a) then 1 else 0
    ensures Happen(WakesSpuriously, s, front + [a]) == Happen(WakesSpuriously, s, front) + if WakesSpuriously(a) then 1 else 0
  {
    HappenOnceMore(Spends, s, front, a);
    HappenOnceMore(BeginsCall, s, front, a);
    HappenOnceMore(WakesSpuriously, s, front, a);
  }

  /** So a schedule of steps that are all taken is no longer than 14 times the workers, 21 times the calls, 7 times the
      spurious wake-ups, and 6. */
  lemma LengthIsBounded(threads: nat, schedule: seq<Action>)
    requires forall k {:trigger schedule[k]} :: 0 <= k < |schedule| ==> Enabled(At(threads, schedule[..k]), schedule[k])
    ensures |schedule| <= 14 * threads + 6 + 21 * |At(threads, schedule).calls|
                          + 7 * |set k: nat | k < |schedule| && schedule[k].SpuriousWake?|
  {
    StepsAreCounted(Init(threads), schedule);
    LifeIsBounded(threads, schedule);
    CallsAreCounted(Init(threads), schedule);
    assert SpuriousWakes(schedule) == set k: nat | k < |schedule| && schedule[k].SpuriousWake?;
  }

  ghost predicate OwnSteps(schedule: seq<Action>) {
    forall k {:trigger schedule[k]} :: 0 <= k < |schedule| ==> Internal(schedule[k])
  }

  lemma CanMove(s: State) returns (a: Action)
    requires Inv(s) && !Stuck(s)
    ensures Internal(a) && Inv(Next(s, a)) && Cost(Next(s, a)) < Cost(s)
  {
    a :| CanStep(s, a);
    StepCosts(s, a);
    InvKept(s, a);
  }

  lemma RunFirst(s: State, a: Action, rest: seq<Action>)
    ensures Run(s, [a] + rest) == Run(Next(s, a), rest)
  {
    RunThenRun(s, [a], rest);
    assert [a][..0] == [];
    assert Run(s, [a]) == Next(Run(s, [a][..0]), a);
  }

  lemma {:induction false} Settle(s: State) returns (later: seq<Action>)
    requires Inv(s)
    ensures OwnSteps(later) && |later| <= Cost(s) && Stuck(Run(s, later))
    decreases Cost(s)
  {
    if Stuck(s) {
      later := [];
    } else {
      var a := CanMove(s);
      var rest := Settle(Next(s, a));
      RunFirst(s, a, rest);
      later := [a] + rest;
    }
  }

  /** From every state the pool comes to rest within `Cost` of its own steps, without help from clients or from spurious
      wake-ups. */
  lemma CanComeToRest(threads: nat, schedule: seq<Action>) returns (later: seq<Action>)
    ensures OwnSteps(later) && |later| <= Cost(At(threads, schedule)) && Stuck(At(threads, schedule + later))
  {
    InvReachable(threads, schedule);
    later := Settle(At(threads, schedule));
    RunThenRun(Init(threads), schedule, later);
  }

  /** Once destruction has begun, the pool is at rest only when the destructor is done, all workers are out and, unless
      there were none, everything accepted has run. */
  lemma RestIsShutdown(threads: nat, schedule: seq<Action>)
    requires var s := At(threads, schedule); Stuck(s) && !s.dtor.Alive?
    ensures var s := At(threads, schedule);
            && s.dtor.Gone? && |s.workers| == threads && AllAre(s.workers, Exited)
            && (threads > 0 ==> s.tasks == [] && multiset(s.completed) == multiset(s.accepted))
  {
    StuckIffQuiet(threads, schedule);
    ShutdownDrains(threads, schedule);
  }

  /** And the pool can always get there, within `Cost` steps of its own. */
  lemma ShutdownCanComplete(threads: nat, schedule: seq<Action>) returns (later: seq<Action>)
    requires !At(threads, schedule).dtor.Alive?
    ensures OwnSteps(later) && |later| <= Cost(At(threads, schedule))
    ensures var s := At(threads, schedule + later); Stuck(s) && s.dtor.Gone? && AllAre(s.workers, Exited)
  {
    later := CanComeToRest(threads, schedule);
    InvReachable(threads, schedule);
    RunThenRun(Init(threads), schedule, later);
    StopIsForEver(At(threads, schedule), later);
    RestIsShutdown(threads, schedule + later);
  }
}
