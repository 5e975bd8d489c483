/** The worker pool itself: the fields of the C++ class, changed in place.  First one method for each step of a thread,
    proved to do what its `Action` says; then what runs over many of them: the constructor's loop, a whole call of
    `enqueue`, a worker's whole critical section, and the destructor with everything that happens until it is done. */
module WorkerPool {
  import opened Options
  import opened PoolModel
  import opened PoolInvariants
  import opened PoolSafety
  import opened PoolProgress

  class ThreadPool {
    const threads: nat
    var workers: seq<Worker>
    var tasks: seq<nat>
    var stop: bool
    var queueMutex: Owner
    var calls: seq<Call>
    var dtor: Dtor

    ghost var accepted: seq<nat>
    ghost var started: seq<nat>
    ghost var completed: seq<nat>
    ghost var grants: seq<Owner>
    ghost var log: seq<Action>

    ghost function View(): State
      reads this
    {
      State(threads, workers, tasks, stop, queueMutex, calls, dtor, accepted, started, completed, grants)
    }

    /** The pool is what its logged steps made of a new one, so that every result about `At` is one about it. */
    ghost predicate Valid()
      reads this
    {
      View() == At(threads, log)
    }

    constructor (threads: nat)
      ensures Valid() && log == [] && View() == Init(threads)
    {
      this.threads := threads;
      workers, tasks, stop := [], [], false;
      queueMutex, calls, dtor := Nobody, [], Alive;
      accepted, started, completed, grants, log := [], [], [], [], [];
    }

    lemma KeepsInv()
      requires Valid()
      ensures Inv(View())
    {
      InvReachable(threads, log);
    }

    ghost method Record(a: Action, before: State)
      requires before == At(threads, log) && Enabled(before, a) && View() == Apply(before, a)
      modifies this`log
      ensures Valid() && log == old(log) + [a]
    {
      OneMore(Init(threads), log, a);
      log := log + [a];
    }

    /** The last call that the worker's task made, if there was one, has returned or thrown. */
    predicate LastCallIsOver(i: nat)
      requires i < |workers| && workers[i].Running?
      reads this
    {
      workers[i].nested.Some? ==>
        var c := workers[i].nested.value;
        c < |calls| && (calls[c].phase.Returned? || calls[c].phase.Thrown?)
    }

    /** A client may call while the pool is launched and the destructor not done; a task while no call of its is open. */
    predicate MayCall(caller: Option<nat>)
      reads this
    {
      match caller
      case None => |workers| == threads && !dtor.Gone?
      case Some(i) => i < |workers| && workers[i].Running? && LastCallIsOver(i)
    }

    /** One round of the constructor's loop: another thread starts at the top of the worker loop. */
    method Spawn()
      requires Valid() && |workers| < threads
      modifies this
      ensures Valid() && log == old(log) + [Action.Spawn]
      ensures View() == Apply(old(View()), Action.Spawn)
    {
      ghost var before := View();
      workers := workers + [Wanting];
      Record(Action.Spawn, before);
    }

    // ---- the worker loop ----

    /** The worker gets the mutex, on entering the block or inside `wait` after a wake-up. */
    method WorkerLock(i: nat)
      requires Valid() && i < |workers| && workers[i] == Wanting && queueMutex.Nobody?
      modifies this
      ensures Valid() && log == old(log) + [Action.WorkerLock(i)]
      ensures View() == Apply(old(View()), Action.WorkerLock(i))
    {
      ghost var before := View();
      queueMutex := WorkerOwns(i);
      grants := grants + [WorkerOwns(i)];
      workers := workers[i := Testing];
      Record(Action.WorkerLock(i), before);
    }

    /** The first half of the predicate of `wait`. */
    method WaitReadStop(i: nat)
      requires Valid() && i < |workers| && workers[i] == Testing
      modifies this
      ensures Valid() && log == old(log) + [Action.WaitReadStop(i)]
      ensures View() == Apply(old(View()), Action.WaitReadStop(i))
    {
      ghost var before := View();
      workers := workers[i := if stop then Passed else TestingQueue];
      Record(Action.WaitReadStop(i), before);
    }

    /** The second half; if both are false, the worker is on its way to sleep and still owns the mutex. */
    method WaitReadQueue(i: nat)
      requires Valid() && i < |workers| && workers[i] == TestingQueue
      modifies this
      ensures Valid() && log == old(log) + [Action.WaitReadQueue(i)]
      ensures View() == Apply(old(View()), Action.WaitReadQueue(i))
    {
      ghost var before := View();
      workers := workers[i := if |tasks| != 0 then Passed else Blocking];
      Record(Action.WaitReadQueue(i), before);
    }

    /** `wait` gives up the mutex and blocks, in one step. */
    method Block(i: nat)
      requires Valid() && i < |workers| && workers[i] == Blocking
      modifies this
      ensures Valid() && log == old(log) + [Action.Block(i)]
      ensures View() == Apply(old(View()), Action.Block(i))
    {
      ghost var before := View();
      workers := workers[i := Sleeping];
      queueMutex := Nobody;
      Record(Action.Block(i), before);
    }

    /** The exit test reads `stop`, and only if that is set */
    method ExitReadStop(i: nat)
      requires Valid() && i < |workers| && workers[i] == Passed
      modifies this
      ensures Valid() && log == old(log) + [Action.ExitReadStop(i)]
      ensures View() == Apply(old(View()), Action.ExitReadStop(i))
    {
      ghost var before := View();
      workers := workers[i := if stop then PassedStopped else Taking];
      Record(Action.ExitReadStop(i), before);
    }

    /** whether the queue is empty. */
    method ExitReadQueue(i: nat)
      requires Valid() && i < |workers| && workers[i] == PassedStopped
      modifies this
      ensures Valid() && log == old(log) + [Action.ExitReadQueue(i)]
      ensures View() == Apply(old(View()), Action.ExitReadQueue(i))
    {
      ghost var before := View();
      workers := workers[i := if |tasks| == 0 then Leaving else Taking];
      Record(Action.ExitReadQueue(i), before);
    }

    method Front(i: nat)
      requires Valid() && i < |workers| && workers[i] == Taking
      modifies this
      ensures Valid() && log == old(log) + [Action.Front(i)]
      ensures old(tasks) != []
      ensures View() == Apply(old(View()), Action.Front(i))
    {
      ghost var before := View();
      KeepsInv();
      assert Knows(workers[i], stop, tasks);
      workers := workers[i := Fetched(tasks[0])];
      Record(Action.Front(i), before);
    }

    /** Whatever is in front is popped; the task in hand is the one fetched before. */
    method Pop(i: nat)
      requires Valid() && i < |workers| && workers[i].Fetched?
      modifies this
      ensures Valid() && log == old(log) + [Action.Pop(i)]
      ensures old(tasks) != []
      ensures View() == Apply(old(View()), Action.Pop(i))
      ensures old(tasks) == [old(workers)[i].task] + tasks
    {
      ghost var before := View();
      KeepsInv();
      assert Knows(workers[i], stop, tasks);
      var task := workers[i].task;
      tasks := tasks[1..];
      started := started + [task];
      workers := workers[i := Popped(task)];
      Record(Action.Pop(i), before);
    }

    /** The `unique_lock` goes out of scope. */
    method WorkerUnlock(i: nat)
      requires Valid() && i < |workers| && (workers[i].Leaving? || workers[i].Popped?)
      modifies this
      ensures Valid() && log == old(log) + [Action.WorkerUnlock(i)]
      ensures View() == Apply(old(View()), Action.WorkerUnlock(i))
    {
      ghost var before := View();
      queueMutex := Nobody;
      match workers[i] {
        case Leaving => workers := workers[i := Exited];
        case Popped(task) => workers := workers[i := Running(task, None)];
      }
      Record(Action.WorkerUnlock(i), before);
    }

    /** `task()` returns and the worker is back at the top of its loop. */
    method Finish(i: nat)
      requires Valid() && i < |workers| && workers[i].Running? && LastCallIsOver(i)
      modifies this
      ensures Valid() && log == old(log) + [Action.Finish(i)]
      ensures View() == Apply(old(View()), Action.Finish(i))
      ensures workers == old(workers)[i := Wanting] && completed == old(completed) + [old(workers)[i].task]
      ensures tasks == old(tasks) && calls == old(calls) && dtor == old(dtor)
    {
      ghost var before := View();
      completed := completed + [workers[i].task];
      workers := workers[i := Wanting];
      Record(Action.Finish(i), before);
    }

    method SpuriousWake(i: nat)
      requires Valid() && i < |workers| && workers[i] == Sleeping
      modifies this
      ensures Valid() && log == old(log) + [Action.SpuriousWake(i)]
      ensures View() == Apply(old(View()), Action.SpuriousWake(i))
      ensures workers == old(workers)[i := Wanting] && tasks == old(tasks) && calls == old(calls) && dtor == old(dtor)
    {
      ghost var before := View();
      workers := workers[i := Wanting];
      Record(Action.SpuriousWake(i), before);
    }

    // ---- enqueue ----

    /** A client, or the task a worker is running, calls `enqueue`; the packaged task is named by the call. */
    method EnqueueBegin(caller: Option<nat>) returns (c: nat)
      requires Valid() && MayCall(caller)
      modifies this
      ensures Valid() && log == old(log) + [Action.EnqueueBegin(caller)]
      ensures View() == old(View()).(calls := old(calls) + [Call(caller, Arriving)], workers := Calling(old(workers), caller, c))
      ensures c == |old(calls)| && c !in old(accepted)
    {
      ghost var before := View();
      KeepsInv();
      c := |calls|;
      calls := calls + [Call(caller, Arriving)];
      if caller.Some? {
        var w := workers[caller.value];
        workers := workers[caller.value := Running(w.task, Some(c))];
      }
      BeginIs(before, caller);
      Record(Action.EnqueueBegin(caller), before);
    }

    method EnqueueLock(c: nat)
      requires Valid() && c < |calls| && calls[c].phase == Arriving && queueMutex.Nobody?
      modifies this
      ensures Valid() && log == old(log) + [Action.EnqueueLock(c)]
      ensures View() == Apply(old(View()), Action.EnqueueLock(c))
      ensures View() == old(View()).(calls := SetPhase(old(calls), c, Inside), owner := CallOwns(c),
                                     grants := old(grants) + [CallOwns(c)])
    {
      ghost var before := View();
      queueMutex := CallOwns(c);
      grants := grants + [CallOwns(c)];
      calls := SetPhase(calls, c, Inside);
      Record(Action.EnqueueLock(c), before);
    }

    /** Throw on a stopped pool. */
    method EnqueueCheck(c: nat)
      requires Valid() && c < |calls| && calls[c].phase == Inside
      modifies this
      ensures Valid() && log == old(log) + [Action.EnqueueCheck(c)]
      ensures View() == Apply(old(View()), Action.EnqueueCheck(c))
    {
      ghost var before := View();
      calls := SetPhase(calls, c, if stop then Throwing else Checked);
      Record(Action.EnqueueCheck(c), before);
    }

    /** Queue the task; the pool is not stopped, although `stop` was read earlier. */
    method EnqueuePush(c: nat)
      requires Valid() && c < |calls| && calls[c].phase == Checked
      modifies this
      ensures Valid() && log == old(log) + [Action.EnqueuePush(c)]
      ensures View() == Apply(old(View()), Action.EnqueuePush(c))
      ensures !stop
    {
      ghost var before := View();
      KeepsInv();
      assert CallKnows(calls[c].phase, stop);
      tasks := tasks + [c];
      accepted := accepted + [c];
      calls := SetPhase(calls, c, Pushed);
      Record(Action.EnqueuePush(c), before);
    }

    /** The `unique_lock` goes out of scope, by way of the exception or not. */
    method EnqueueUnlock(c: nat) returns (threw: bool)
      requires Valid() && c < |calls| && (calls[c].phase == Throwing || calls[c].phase == Pushed)
      modifies this
      ensures Valid() && log == old(log) + [Action.EnqueueUnlock(c)]
      ensures View() == Apply(old(View()), Action.EnqueueUnlock(c))
      ensures threw <==> c !in accepted
    {
      ghost var before := View();
      KeepsInv();
      threw := calls[c].phase == Throwing;
      queueMutex := Nobody;
      calls := SetPhase(calls, c, if threw then Thrown else Notifying);
      Record(Action.EnqueueUnlock(c), before);
    }

    /** `notify_one`, and the future is returned. */
    method NotifyOne(c: nat, woken: Option<nat>)
      requires Valid() && c < |calls| && calls[c].phase == Notifying
      requires if woken.Some? then woken.value < |workers| && workers[woken.value] == Sleeping else NoSleeper(workers)
      modifies this
      ensures Valid() && log == old(log) + [Action.NotifyOne(c, woken)]
      ensures View() == Apply(old(View()), Action.NotifyOne(c, woken))
    {
      ghost var before := View();
      if woken.Some? {
        workers := workers[woken.value := Wanting];
      }
      calls := SetPhase(calls, c, Returned);
      Record(Action.NotifyOne(c, woken), before);
    }

    // ---- the destructor ----

    method DestroyBegin()
      requires Valid() && |workers| == threads && dtor.Alive?
      modifies this
      ensures Valid() && log == old(log) + [Action.DestroyBegin]
      ensures View() == Apply(old(View()), Action.DestroyBegin)
    {
      ghost var before := View();
      dtor := Closing;
      Record(Action.DestroyBegin, before);
    }

    method DestroyLock()
      requires Valid() && dtor.Closing? && queueMutex.Nobody?
      modifies this
      ensures Valid() && log == old(log) + [Action.DestroyLock]
      ensures View() == Apply(old(View()), Action.DestroyLock)
    {
      ghost var before := View();
      queueMutex := DtorOwns;
      grants := grants + [DtorOwns];
      dtor := Holding;
      Record(Action.DestroyLock, before);
    }

    method SetStop()
      requires Valid() && dtor.Holding?
      modifies this
      ensures Valid() && log == old(log) + [Action.SetStop]
      ensures View() == Apply(old(View()), Action.SetStop)
    {
      ghost var before := View();
      stop := true;
      dtor := Flagged;
      Record(Action.SetStop, before);
    }

    method DestroyUnlock()
      requires Valid() && dtor.Flagged?
      modifies this
      ensures Valid() && log == old(log) + [Action.DestroyUnlock]
      ensures View() == Apply(old(View()), Action.DestroyUnlock)
    {
      ghost var before := View();
      queueMutex := Nobody;
      dtor := Waking;
      Record(Action.DestroyUnlock, before);
    }

    /** Every worker blocked on the condition variable goes back to wanting the mutex. */
    method NotifyAll()
      requires Valid() && dtor.Waking?
      modifies this
      ensures Valid() && log == old(log) + [Action.NotifyAll]
      ensures View() == Apply(old(View()), Action.NotifyAll)
    {
      ghost var before := View();
      var i := 0;
      while i < |workers|
        invariant 0 <= i <= |workers| == |old(workers)|
        invariant forall j :: 0 <= j < i ==> workers[j] == Woken(old(workers)[j])
        invariant forall j :: i <= j < |workers| ==> workers[j] == old(workers)[j]
        invariant View() == old(View()).(workers := workers) && log == old(log)
      {
        if workers[i].Sleeping? {
          workers := workers[i := Wanting];
        }
        i := i + 1;
      }
      dtor := Joining(0);
      assert workers == WakeAll(old(workers));
      Record(Action.NotifyAll, before);
    }

    /** One round of the join loop, or its end. */
    method Join()
      requires Valid() && dtor.Joining? && (dtor.next < |workers| ==> workers[dtor.next].Exited?)
      modifies this
      ensures Valid() && log == old(log) + [Action.Join]
      ensures View() == Apply(old(View()), Action.Join)
      ensures dtor == if old(dtor).next < |workers| then Joining(old(dtor).next + 1) else Gone
      ensures workers == old(workers) && tasks == old(tasks) && calls == old(calls)
    {
      ghost var before := View();
      if dtor.next < |workers| {
        dtor := Joining(dtor.next + 1);
      } else {
        dtor := Gone;
      }
      Record(Action.Join, before);
    }

    // ---- any interleaving ----

    /** The pool without its histories, on which no step depends. */
    function Now(): State
      reads this
    {
      State(threads, workers, tasks, stop, queueMutex, calls, dtor, [], [], [], [])
    }

    method Take(a: Action)
      requires Valid() && Enabled(View(), a)
      modifies this
      ensures Valid() && log == old(log) + [a]
      ensures View() == Apply(old(View()), a)
    {
      match a {
        case Spawn => Spawn();
        case WorkerLock(i) => WorkerLock(i);
        case WaitReadStop(i) => WaitReadStop(i);
        case WaitReadQueue(i) => WaitReadQueue(i);
        case Block(i) => Block(i);
        case ExitReadStop(i) => ExitReadStop(i);
        case ExitReadQueue(i) => ExitReadQueue(i);
        case Front(i) => Front(i);
        case Pop(i) => Pop(i);
        case WorkerUnlock(i) => WorkerUnlock(i);
        case Finish(i) => Finish(i);
        case SpuriousWake(i) => SpuriousWake(i);
        case EnqueueBegin(caller) =>
          BeginIs(View(), caller);
          var _ := EnqueueBegin(caller);
        case EnqueueLock(c) => EnqueueLock(c);
        case EnqueueCheck(c) => EnqueueCheck(c);
        case EnqueuePush(c) => EnqueuePush(c);
        case EnqueueUnlock(c) => var _ := EnqueueUnlock(c);
        case NotifyOne(c, woken) => NotifyOne(c, woken);
        case DestroyBegin => DestroyBegin();
        case DestroyLock => DestroyLock();
        case SetStop => SetStop();
        case DestroyUnlock => DestroyUnlock();
        case NotifyAll => NotifyAll();
        case Join => Join();
      }
    }

    /** A thread scheduled while it is blocked stays where it is. */
    method Try(a: Action)
      requires Valid()
      modifies this
      ensures Valid() && View() == Next(old(View()), a)
    {
      if Enabled(Now(), a) {
        Take(a);
      }
    }

    /** Run a schedule. */
    method Execute(schedule: seq<Action>)
      requires Valid()
      modifies this
      ensures Valid() && View() == Run(old(View()), schedule)
    {
      for k := 0 to |schedule|
        invariant Valid() && View() == Run(old(View()), schedule[..k])
      {
        assert schedule[..k + 1] == schedule[..k] + [schedule[k]];
        OneMore(old(View()), schedule[..k], schedule[k]);
        Try(schedule[k]);
      }
      assert schedule[..|schedule|] == schedule;
    }

    // ---- what a caller sees ----

    /** The constructor's loop: afterwards all workers are launched, at the top of their loops. */
    method Launch()
      requires Valid()
      modifies this
      ensures Valid() && |workers| == threads && old(workers) <= workers
      ensures forall i :: |old(workers)| <= i < threads ==> workers[i] == Wanting
      ensures View() == old(View()).(workers := workers)
    {
      KeepsInv();
      while |workers| < threads
        invariant Valid() && old(workers) <= workers && |workers| <= threads
        invariant forall i :: |old(workers)| <= i < |workers| ==> workers[i] == Wanting
        invariant View() == old(View()).(workers := workers)
      {
        Spawn();
      }
    }

    method BeginAndLock(caller: Option<nat>) returns (c: nat)
      requires Valid() && MayCall(caller) && queueMutex.Nobody?
      modifies this
      ensures Valid() && c == |old(calls)|
      ensures View() == old(View()).(calls := old(calls) + [Call(caller, Inside)], owner := CallOwns(c),
                                     grants := old(grants) + [CallOwns(c)], workers := Calling(old(workers), caller, c))
    {
      c := EnqueueBegin(caller);
      EnqueueLock(c);
    }

    /** A call of `enqueue` up to its test of `stop`. */
    method EnterEnqueue(caller: Option<nat>) returns (c: nat)
      requires Valid() && MayCall(caller) && queueMutex.Nobody?
      modifies this
      ensures Valid() && c == |old(calls)|
      ensures View() == old(View()).(calls := old(calls) + [Call(caller, if stop then Throwing else Checked)],
                                     owner := CallOwns(c), grants := old(grants) + [CallOwns(c)],
                                     workers := Calling(old(workers), caller, c))
    {
      c := BeginAndLock(caller);
      EnqueueCheck(c);
    }

    /** The rest of it when it does not throw. */
    method QueueAndNotify(c: nat)
      requires Valid() && c < |calls| && calls[c].phase == Checked
      modifies this
      ensures Valid()
      ensures View() == old(View()).(calls := SetPhase(old(calls), c, Returned), owner := Nobody, tasks := old(tasks) + [c],
                                     accepted := old(accepted) + [c], workers := workers)
      ensures OneIsWoken(old(workers), workers)
    {
      EnqueuePush(c);
      var _ := EnqueueUnlock(c);
      NotifyOne(c, FirstSleeper(workers));
    }

    /** A whole call of `enqueue` that nobody interrupts, from outside or from a running task: it throws, and queues nothing,
        if and only if the pool is stopped; otherwise its task is last in the queue and one sleeper, if there is any, is
        awake. */
    method Enqueue(caller: Option<nat>) returns (future: Option<nat>)
      requires Valid() && queueMutex.Nobody?
      requires match caller
               case None => |workers| == threads && !dtor.Gone?
               case Some(i) =>
                 && i < |workers| && workers[i].Running?
                 && (workers[i].nested.Some? ==>
                       var d := workers[i].nested.value;
                       d < |calls| && (calls[d].phase.Returned? || calls[d].phase.Thrown?))
      modifies this
      ensures Valid() && queueMutex.Nobody? && stop == old(stop) && dtor == old(dtor)
      ensures future == if old(stop) then None else Some(|old(calls)|)
      ensures calls == old(calls) + [Call(caller, if old(stop) then Thrown else Returned)]
      ensures tasks == old(tasks) + if old(stop) then [] else [|old(calls)|]
      ensures accepted == old(accepted) + if old(stop) then [] else [|old(calls)|]
      ensures |workers| == |old(workers)|
      ensures caller.Some? ==>
                && old(workers)[caller.value].Running?
                && workers[caller.value] == Running(old(workers)[caller.value].task, Some(|old(calls)|))
      ensures old(stop) || NoSleeper(old(workers)) ==>
                forall i :: 0 <= i < |workers| && Some(i) != caller ==> workers[i] == old(workers)[i]
      ensures !old(stop) && !NoSleeper(old(workers)) ==>
                exists j :: 0 <= j < |workers| && old(workers)[j] == Sleeping && workers[j] == Wanting
                  && forall i :: 0 <= i < |workers| && i != j && Some(i) != caller ==> workers[i] == old(workers)[i]
    {
      var c := EnterEnqueue(caller);
      if stop {
        var _ := EnqueueUnlock(c);
        return None;
      }
      QueueAndNotify(c);
      return Some(c);
    }

    /** `wait`, from getting the mutex: past it with the mutex if there is something to do, and asleep without it if not. */
    method Await(i: nat)
      requires Valid() && i < |workers| && workers[i] == Wanting && queueMutex.Nobody?
      modifies this
      ensures Valid()
      ensures var go := stop || tasks != [];
              View() == old(View()).(workers := old(workers)[i := if go then Passed else Sleeping],
                                     owner := if go then WorkerOwns(i) else Nobody, grants := old(grants) + [WorkerOwns(i)])
    {
      WorkerLock(i);
      WaitReadStop(i);
      if workers[i].TestingQueue? {
        WaitReadQueue(i);
        if workers[i].Blocking? {
          Block(i);
        }
      }
    }

    method ExitTest(i: nat)
      requires Valid() && i < |workers| && workers[i] == Passed
      modifies this
      ensures Valid()
      ensures View() == old(View()).(workers := old(workers)[i := if stop && tasks == [] then Leaving else Taking])
    {
      ExitReadStop(i);
      if workers[i].PassedStopped? {
        ExitReadQueue(i);
      }
    }

    /** The front task leaves the queue, and the worker the critical section. */
    method TakeTask(i: nat)
      requires Valid() && i < |workers| && workers[i] == Taking && tasks != []
      modifies this
      ensures Valid()
      ensures View() == old(View()).(workers := old(workers)[i := Running(old(tasks)[0], None)], owner := Nobody,
                                     tasks := old(tasks)[1..], started := old(started) + [old(tasks)[0]])
    {
      Front(i);
      Pop(i);
      WorkerUnlock(i);
    }

    /** A worker's whole critical section, uninterrupted: it comes out with the front task if there is one, and otherwise it
        leaves the loop if the pool is stopped and goes to sleep if not. */
    method Serve(i: nat)
      requires Valid() && i < |workers| && workers[i] == Wanting && queueMutex.Nobody?
      modifies this
      ensures Valid() && queueMutex.Nobody? && stop == old(stop) && dtor == old(dtor) && calls == old(calls)
      ensures old(tasks) != [] ==>
                && tasks == old(tasks)[1..] && started == old(started) + [old(tasks)[0]]
                && workers == old(workers)[i := Running(old(tasks)[0], None)]
      ensures old(tasks) == [] ==>
                && tasks == [] && started == old(started)
                && workers == old(workers)[i := if old(stop) then Exited else Sleeping]
    {
      Await(i);
      if workers[i].Passed? {
        ExitTest(i);
        if workers[i].Taking? {
          TakeTask(i);
        } else {
          WorkerUnlock(i);
        }
      }
    }

    /** A step that some thread can take now, or none if the pool is at rest. */
    method FindStep() returns (a: Option<Action>)
      requires Valid()
      ensures a.Some? ==> CanStep(View(), a.value)
      ensures a.None? ==> Stuck(View())
    {
      KeepsInv();
      if |workers| < threads {
        return Some(Action.Spawn);
      }
      if queueMutex.WorkerOwns? {
        OwningWorkerCanMove(View(), queueMutex.i);
        return Some(WorkersNext(workers[queueMutex.i], queueMutex.i));
      } else if queueMutex.CallOwns? {
        OwningCallCanMove(View(), queueMutex.c);
        return Some(CallsNext(Now(), queueMutex.c));
      } else if queueMutex.DtorOwns? {
        DestructorCanMove(View());
        return Some(DtorsNext(dtor));
      }
      for c := 0 to |calls|
        invariant forall d {:trigger calls[d]} :: 0 <= d < c ==> Closed(calls[d].phase)
      {
        if !Closed(calls[c].phase) {
          OpenCallCanMove(View(), c);
          return Some(CallsNext(Now(), c));
        }
      }
      for i := 0 to |workers|
        invariant forall j :: 0 <= j < i ==> workers[j].Sleeping? || workers[j].Exited?
      {
        if !workers[i].Sleeping? && !workers[i].Exited? {
          AwakeWorkerCanMove(View(), i);
          return Some(WorkersNext(workers[i], i));
        }
      }
      if !dtor.Alive? && !dtor.Gone? {
        DestructorCanMove(View());
        return Some(DtorsNext(dtor));
      }
      AllAtRest(View());
      QuietIsStuck(View());
      return None;
    }

    /** The destructor's critical section, up to its end. */
    method Stop()
      requires Valid() && |workers| == threads && dtor.Alive? && queueMutex.Nobody?
      modifies this
      ensures Valid()
      ensures View() == old(View()).(dtor := Flagged, stop := true, owner := DtorOwns, grants := old(grants) + [DtorOwns])
    {
      DestroyBegin();
      DestroyLock();
      SetStop();
    }

    /** The destructor up to its joins, uninterrupted: it stops the pool at once and wakes every sleeper, whatever the other
        workers are doing. */
    method StopAndWake()
      requires Valid() && |workers| == threads && dtor.Alive? && queueMutex.Nobody?
      modifies this
      ensures Valid() && queueMutex.Nobody? && stop && dtor == Joining(0)
      ensures tasks == old(tasks) && calls == old(calls)
      ensures accepted == old(accepted) && started == old(started) && completed == old(completed)
      ensures |workers| == threads
      ensures forall i :: 0 <= i < threads ==> workers[i] == if old(workers)[i] == Sleeping then Wanting else old(workers)[i]
    {
      Stop();
      DestroyUnlock();
      NotifyAll();
    }

    /** Destroying the pool, from any state in which a client may, with every other thread going on until nobody can: the
        destructor finishes, all workers are out, every call under way is over, and everything accepted, before or
        meanwhile, has run exactly once, unless there were no workers. */
    method Shutdown()
      requires Valid() && |workers| == threads && dtor.Alive?
      modifies this
      ensures Valid() && dtor.Gone? && |workers| == threads && AllAre(workers, Exited) && queueMutex.Nobody?
      ensures |calls| == |old(calls)| && forall c :: 0 <= c < |calls| ==> Closed(calls[c].phase)
      ensures old(accepted) <= accepted
      ensures threads > 0 ==> tasks == [] && multiset(completed) == multiset(accepted)
    {
      DestroyBegin();
      var a := FindStep();
      while a.Some?
        invariant Valid() && !dtor.Alive? && |calls| == |old(calls)| && old(accepted) <= accepted
        invariant a.Some? ==> CanStep(View(), a.value)
        invariant a.None? ==> Stuck(View())
        decreases Cost(View())
      {
        ShutdownStep(View(), a.value) by { KeepsInv(); }
        Take(a.value);
        a := FindStep();
      }
      StuckIffQuiet(threads, log);
      RestIsShutdown(threads, log);
    }
  }

  /** The workers when the task of one of them, or nobody's, has made call `c`. */
  function Calling(workers: seq<Worker>, caller: Option<nat>, c: nat): seq<Worker>
    requires caller.Some? ==> caller.value < |workers| && workers[caller.value].Running?
  {
    if caller.Some? then workers[caller.value := Running(workers[caller.value].task, Some(c))] else workers
  }

  lemma BeginIs(s: State, caller: Option<nat>)
    requires Enabled(s, Action.EnqueueBegin(caller))
    ensures caller.Some? ==> caller.value < |s.workers| && s.workers[caller.value].Running?
    ensures Apply(s, Action.EnqueueBegin(caller))
         == s.(calls := s.calls + [Call(caller, Arriving)], workers := Calling(s.workers, caller, |s.calls|))
  {
  }

  /** What `notify_one` does. */
  ghost predicate OneIsWoken(before: seq<Worker>, after: seq<Worker>) {
    if NoSleeper(before) then after == before
    else exists i :: 0 <= i < |before| && before[i] == Sleeping && after == before[i := Wanting]
  }

  lemma ShutdownStep(s: State, a: Action)
    requires Inv(s) && CanStep(s, a) && !s.dtor.Alive?
    ensures var t := Apply(s, a);
            Cost(t) < Cost(s) && !t.dtor.Alive? && |t.calls| == |s.calls| && s.accepted <= t.accepted
  {
    StepCosts(s, a);
    StepIsOnward(s, a);
    CallsAfter(s, a);
    HistoriesGrow(s, a);
  }
}
