/** The pool keeps serving: what each thread waits for and what it never waits for, that a call can always be made and
    finished, any number of times, and that the destructor does not wait for running tasks before it stops the pool. */
module PoolService {
  import opened Options
  import opened PoolModel
  import opened PoolInvariants
  import opened PoolSafety
  import opened PoolProgress

  // ---- who waits for what ----

  lemma ThreadOfWorker(s: State, a: Action, i: nat)
    requires Enabled(s, a) && Internal(a) && Thread(a) == WorkerOwns(i)
    ensures OfWorker(a) && a.i == i < |s.workers| && !s.workers[i].Sleeping? && !s.workers[i].Exited?
    ensures s.workers[i].Wanting? ==> s.owner.Nobody?
    ensures s.workers[i].Running? ==> InTask(s, i)
  {
  }

  /** A worker has a step of its own to take, in every reachable state, unless it is asleep or gone, wants a mutex that is
      owned, or is inside a call that its task made and that is not over.  A running task waits for nothing else. */
  lemma WorkerMovesUnlessItWaits(threads: nat, schedule: seq<Action>, i: nat)
    requires i < |At(threads, schedule).workers|
    ensures var s := At(threads, schedule);
            var w := s.workers[i];
            (exists a :: Internal(a) && Thread(a) == WorkerOwns(i) && Enabled(s, a)) <==>
            !(|| w.Sleeping? || w.Exited?
              || (w.Wanting? && s.owner != Nobody)
              || (w.Running? && w.nested.Some? && w.nested.value < |s.calls|
                  && !s.calls[w.nested.value].phase.Returned? && !s.calls[w.nested.value].phase.Thrown?))
  {
    var s := At(threads, schedule);
    InvReachable(threads, schedule);
    var w := s.workers[i];
    if a :| Internal(a) && Thread(a) == WorkerOwns(i) && Enabled(s, a) {
      ThreadOfWorker(s, a, i);
    } else if !w.Sleeping? && !w.Exited? {
      assert Thread(WorkersNext(w, i)) == WorkerOwns(i) && Internal(WorkersNext(w, i));
      if WorkerHolds(w) {
        OwningWorkerCanMove(s, i);
      }
    }
  }

  lemma ThreadOfCall(s: State, a: Action, c: nat)
    requires Enabled(s, a) && Internal(a) && Thread(a) == CallOwns(c)
    ensures OfCall(a) && a.c == c < |s.calls| && !Closed(s.calls[c].phase)
    ensures s.calls[c].phase.Arriving? ==> s.owner.Nobody?
  {
  }

  /** A call that is not over waits for nothing but a mutex that is owned. */
  lemma CallMovesUnlessItWaits(threads: nat, schedule: seq<Action>, c: nat)
    requires c < |At(threads, schedule).calls|
    ensures var s := At(threads, schedule);
            var p := s.calls[c].phase;
            (exists a :: Internal(a) && Thread(a) == CallOwns(c) && Enabled(s, a)) <==>
            !(p.Returned? || p.Thrown? || (p.Arriving? && s.owner != Nobody))
  {
    var s := At(threads, schedule);
    InvReachable(threads, schedule);
    var p := s.calls[c].phase;
    if a :| Internal(a) && Thread(a) == CallOwns(c) && Enabled(s, a) {
      ThreadOfCall(s, a, c);
    } else if !Closed(p) {
      assert CallHolds(p) <==> s.owner == CallOwns(c);
      assert Thread(CallsNext(s, c)) == CallOwns(c) && Internal(CallsNext(s, c));
    }
  }

  lemma ThreadOfDtor(s: State, a: Action)
    requires Enabled(s, a) && Internal(a) && Thread(a) == DtorOwns
    ensures !s.dtor.Alive? && !s.dtor.Gone? && (s.dtor.Closing? ==> s.owner.Nobody?)
    ensures s.dtor.Joining? && s.dtor.next < |s.workers| ==> s.workers[s.dtor.next].Exited?
  {
  }

  /** The destructor, once it has begun, waits only for a mutex that is owned and, in the join loop, for the next worker to
      exit: it sets `stop` whatever the tasks are doing. */
  lemma DestructorMovesUnlessItWaits(threads: nat, schedule: seq<Action>)
    ensures var s := At(threads, schedule);
            (exists a :: Internal(a) && Thread(a) == DtorOwns && Enabled(s, a)) <==>
            !(|| s.dtor.Alive? || s.dtor.Gone?
              || (s.dtor.Closing? && s.owner != Nobody)
              || (s.dtor.Joining? && s.dtor.next < |s.workers| && !s.workers[s.dtor.next].Exited?))
  {
    var s := At(threads, schedule);
    if a :| Internal(a) && Thread(a) == DtorOwns && Enabled(s, a) {
      ThreadOfDtor(s, a);
    } else if !s.dtor.Alive? && !s.dtor.Gone? {
      assert Thread(DtorsNext(s.dtor)) == DtorOwns && Internal(DtorsNext(s.dtor));
    }
  }

  // ---- the mutex can be freed ----

  /** Threads outside critical sections are where they were. */
  ghost predicate Undisturbed(s: State, t: State) {
    && t.threads == s.threads && |t.workers| == |s.workers| && |t.calls| == |s.calls| && t.completed == s.completed
    && (forall i {:trigger t.workers[i]} :: 0 <= i < |s.workers| && s.workers[i].Running? ==> t.workers[i] == s.workers[i])
    && (forall c {:trigger t.calls[c]} :: 0 <= c < |s.calls| ==>
          if CallHolds(s.calls[c].phase) then t.calls[c].caller == s.calls[c].caller else t.calls[c] == s.calls[c])
    && (if DtorHolds(s.dtor) then DtorHolds(t.dtor) || t.dtor.Waking? else t.dtor == s.dtor)
  }

  lemma UndisturbedTransitive(s: State, t: State, u: State)
    requires Undisturbed(s, t) && Undisturbed(t, u)
    ensures Undisturbed(s, u)
  {
    forall c {:trigger u.calls[c]} | 0 <= c < |s.calls|
      ensures if CallHolds(s.calls[c].phase) then u.calls[c].caller == s.calls[c].caller else u.calls[c] == s.calls[c]
    {
      assert t.calls[c].caller == s.calls[c].caller;
    }
    forall i {:trigger u.workers[i]} | 0 <= i < |s.workers| && s.workers[i].Running?
      ensures u.workers[i] == s.workers[i]
    {
      assert t.workers[i] == s.workers[i];
    }
  }

  lemma OwningWorkersStep(s: State, i: nat)
    requires Inv(s) && s.owner == WorkerOwns(i)
    ensures i < |s.workers| && WorkerHolds(s.workers[i])
    ensures CanStep(s, WorkersNext(s.workers[i], i)) && Undisturbed(s, Apply(s, WorkersNext(s.workers[i], i)))
  {
    OwningWorkerCanMove(s, i);
    WorkersAfter(s, WorkersNext(s.workers[i], i));
    CallsAfter(s, WorkersNext(s.workers[i], i));
  }

  lemma OwningCallsStep(s: State, c: nat)
    requires Inv(s) && s.owner == CallOwns(c)
    ensures c < |s.calls| && CallHolds(s.calls[c].phase)
    ensures CanStep(s, CallsNext(s, c)) && Undisturbed(s, Apply(s, CallsNext(s, c)))
  {
    OwningCallCanMove(s, c);
    WorkersAfter(s, CallsNext(s, c));
    CallsAfter(s, CallsNext(s, c));
  }

  lemma OwnersStep(s: State) returns (a: Action)
    requires Inv(s) && !s.owner.Nobody?
    ensures CanStep(s, a) && Undisturbed(s, Apply(s, a))
  {
    match s.owner {
      case WorkerOwns(i) =>
        OwningWorkersStep(s, i);
        a := WorkersNext(s.workers[i], i);
      case CallOwns(c) =>
        OwningCallsStep(s, c);
        a := CallsNext(s, c);
      case DtorOwns =>
        a := DtorsNext(s.dtor);
    }
  }

  lemma OneStep(s: State, a: Action, t: State, rest: seq<Action>)
    requires Inv(s) && CanStep(s, a) && t == Apply(s, a)
    ensures Inv(t) && Cost(t) < Cost(s) && Run(s, [a] + rest) == Run(t, rest)
  {
    StepCosts(s, a);
    InvKept(s, a);
    RunFirst(s, a, rest);
  }

  /** Whoever owns the mutex can give it up by steps of its own, while everybody else stands still. */
  lemma {:induction false} FreeTheMutex(s: State) returns (later: seq<Action>)
    requires Inv(s)
    ensures OwnSteps(later) && Inv(Run(s, later)) && Run(s, later).owner.Nobody? && Undisturbed(s, Run(s, later))
    decreases Cost(s)
  {
    if s.owner.Nobody? {
      later := [];
    } else {
      var a := OwnersStep(s);
      var t := Apply(s, a);
      OneStep(s, a, t, []);
      var rest := FreeTheMutex(t);
      OneStep(s, a, t, rest);
      UndisturbedTransitive(s, t, Run(t, rest));
      later := [a] + rest;
    }
  }

  // ---- a call can be finished ----

  /** Nothing but this call and the sleeping workers has changed, in the places where a thread is outside the lock. */
  ghost predicate OnlyCall(s: State, t: State, c: nat) {
    && t.threads == s.threads && |t.workers| == |s.workers| && t.completed == s.completed
    && t.dtor == s.dtor && t.stop == s.stop
    && (forall i {:trigger t.workers[i]} :: 0 <= i < |s.workers| && s.workers[i].Running? ==> t.workers[i] == s.workers[i])
    && c < |s.calls| == |t.calls| && t.calls == s.calls[c := Call(s.calls[c].caller, t.calls[c].phase)]
  }

  lemma OnlyCallTransitive(s: State, t: State, u: State, c: nat)
    requires OnlyCall(s, t, c) && OnlyCall(t, u, c)
    ensures OnlyCall(s, u, c)
  {
    forall i {:trigger u.workers[i]} | 0 <= i < |s.workers| && s.workers[i].Running?
      ensures u.workers[i] == s.workers[i]
    {
      assert t.workers[i] == s.workers[i];
    }
  }

  lemma CallsStep(s: State, c: nat)
    requires Inv(s) && (s.owner.Nobody? || s.owner == CallOwns(c)) && c < |s.calls| && !Closed(s.calls[c].phase)
    ensures CanStep(s, CallsNext(s, c))
    ensures var t := Apply(s, CallsNext(s, c)); OnlyCall(s, t, c) && (t.owner.Nobody? || t.owner == CallOwns(c))
  {
    OpenCallCanMove(s, c);
    CallsAfter(s, CallsNext(s, c));
    WorkersAfter(s, CallsNext(s, c));
  }

  /** A call that has or can get the mutex can be finished by steps of its own. */
  lemma {:induction false} FinishCall(s: State, c: nat) returns (later: seq<Action>)
    requires Inv(s) && (s.owner.Nobody? || s.owner == CallOwns(c)) && c < |s.calls|
    ensures OwnSteps(later) && Inv(Run(s, later)) && OnlyCall(s, Run(s, later), c) && Closed(Run(s, later).calls[c].phase)
    decreases Cost(s)
  {
    if Closed(s.calls[c].phase) {
      later := [];
      assert s.calls[c := Call(s.calls[c].caller, s.calls[c].phase)] == s.calls;
    } else {
      CallsStep(s, c);
      var a := CallsNext(s, c);
      var t := Apply(s, a);
      OneStep(s, a, t, []);
      var rest := FinishCall(t, c);
      OneStep(s, a, t, rest);
      OnlyCallTransitive(s, t, Run(t, rest), c);
      later := [a] + rest;
    }
  }

  /** Every call that has begun can be brought to its end, from every reachable state. */
  lemma EveryCallCanFinish(threads: nat, schedule: seq<Action>, c: nat) returns (later: seq<Action>)
    requires c < |At(threads, schedule).calls|
    ensures OwnSteps(later)
    ensures var t := At(threads, schedule + later);
            c < |t.calls| == |At(threads, schedule).calls| && (t.calls[c].phase.Returned? || t.calls[c].phase.Thrown?)
            && t.completed == At(threads, schedule).completed
  {
    var s := At(threads, schedule);
    InvReachable(threads, schedule);
    var free := FreeTheMutex(s);
    var rest := FinishCall(Run(s, free), c);
    RunThenRun(s, free, rest);
    later := free + rest;
    RunThenRun(Init(threads), schedule, later);
  }

  // ---- a call can be begun ----

  /** A refusal is due: `stop` is set, or the destructor is about to set it in its critical section. */
  predicate Closing(s: State) {
    s.stop || s.dtor.Holding?
  }

  /** Where a call can be made from: outside, while the pool is launched and not yet gone, or the code of a running task,
      whose last call is over. */
  predicate CanCall(s: State, caller: Option<nat>) {
    match caller
    case None => |s.workers| == s.threads && !s.dtor.Gone?
    case Some(i) =>
      && i < |s.workers| && s.workers[i].Running?
      && (s.workers[i].nested.Some? ==>
            var d := s.workers[i].nested.value;
            d < |s.calls| && (s.calls[d].phase.Returned? || s.calls[d].phase.Thrown?))
  }

  /** The call gets its answer, the caller is where it was, and the pool is as ready as before for the next call. */
  ghost predicate Served(s: State, t: State, caller: Option<nat>, n: nat) {
    && |t.calls| == |s.calls| + n
    && (forall c {:trigger t.calls[c]} :: |s.calls| <= c < |t.calls| ==>
          t.calls[c] == Call(caller, if Closing(s) then Thrown else Returned))
    && t.completed == s.completed && (Closing(t) <==> Closing(s)) && (s.dtor.Alive? ==> t.dtor.Alive?)
    && CanCall(t, caller)
    && (caller.Some? ==> caller.value < |s.workers| && s.workers[caller.value].Running?
                         && t.workers[caller.value].task == s.workers[caller.value].task)
  }

  /** The call has begun, and nothing else has changed. */
  ghost predicate Begun(s: State, u: State, caller: Option<nat>) {
    && u.calls == s.calls + [Call(caller, Arriving)]
    && u.threads == s.threads && |u.workers| == |s.workers|
    && u.dtor == s.dtor && u.stop == s.stop && u.completed == s.completed
    && (caller.Some? ==>
          && caller.value < |s.workers| && s.workers[caller.value].Running?
          && u.workers[caller.value] == Running(s.workers[caller.value].task, Some(|s.calls|)))
  }

  lemma BeginCall(s: State, caller: Option<nat>)
    requires Inv(s) && CanCall(s, caller)
    ensures Enabled(s, EnqueueBegin(caller))
    ensures Inv(Apply(s, EnqueueBegin(caller))) && Begun(s, Apply(s, EnqueueBegin(caller)), caller)
  {
    InvKept(s, EnqueueBegin(caller));
  }

  /** A destructor that owns the mutex has set `stop` by the time it has given it up. */
  lemma ClosingIsSettled(s: State, t: State)
    requires Inv(s) && Inv(t) && Undisturbed(s, t) && t.owner.Nobody?
    ensures (t.stop <==> Closing(s)) && !t.dtor.Holding?
    ensures (s.dtor.Alive? ==> t.dtor.Alive?) && (t.dtor.Gone? ==> s.dtor.Gone?)
  {
  }

  /** What becomes of a call that begins its way to the mutex depends on `stop` alone. */
  lemma Answer(s: State, later: seq<Action>, c: nat)
    requires Inv(s) && Inv(Run(s, later)) && c < |s.calls| && s.calls[c].phase.Arriving?
    requires OnlyCall(s, Run(s, later), c) && Closed(Run(s, later).calls[c].phase)
    ensures Run(s, later).calls[c] == Call(s.calls[c].caller, if s.stop then Thrown else Returned)
  {
    var t := Run(s, later);
    assert CallKnows(t.calls[c].phase, t.stop);
    assert c !in s.accepted;
    StopIsForEver(s, later);
    assert t.calls[c].phase.Returned? ==> c in t.accepted;
  }

  /** Before the call, when it has begun, when the mutex is free, and after it. */
  lemma CallIsServed(s: State, u: State, v: State, t: State, caller: Option<nat>)
    requires CanCall(s, caller) && Begun(s, u, caller) && Undisturbed(u, v) && OnlyCall(v, t, |s.calls|)
    requires (v.stop <==> Closing(s)) && !v.dtor.Holding?
    requires (s.dtor.Alive? ==> v.dtor.Alive?) && (v.dtor.Gone? ==> s.dtor.Gone?)
    requires t.calls[|s.calls|] == Call(caller, if v.stop then Thrown else Returned)
    ensures Served(s, t, caller, 1)
  {
    if caller.Some? {
      assert v.workers[caller.value] == u.workers[caller.value];
      assert t.workers[caller.value] == v.workers[caller.value];
    }
  }

  /** A call on its way to the mutex gets it, when its owner has given it up, and its answer. */
  lemma AnswerCall(u: State, c: nat) returns (v: State, later: seq<Action>)
    requires Inv(u) && c < |u.calls| && u.calls[c].phase.Arriving?
    ensures Inv(v) && v.owner.Nobody? && Undisturbed(u, v)
    ensures Inv(Run(u, later)) && OnlyCall(v, Run(u, later), c)
    ensures Run(u, later).calls[c] == Call(u.calls[c].caller, if v.stop then Thrown else Returned)
  {
    var free := FreeTheMutex(u);
    v := Run(u, free);
    assert v.calls[c] == u.calls[c];
    var rest := FinishCall(v, c);
    Answer(v, rest, c);
    later := free + rest;
    RunThenRun(u, free, rest);
  }

  lemma OneMoreCall(s: State, caller: Option<nat>) returns (later: seq<Action>)
    requires Inv(s) && CanCall(s, caller)
    ensures Inv(Run(s, later)) && Served(s, Run(s, later), caller, 1)
  {
    BeginCall(s, caller);
    var u := Apply(s, EnqueueBegin(caller));
    var v, rest := AnswerCall(u, |s.calls|);
    later := [EnqueueBegin(caller)] + rest;
    RunFirst(s, EnqueueBegin(caller), rest);
    ClosingIsSettled(u, v);
    CallIsServed(s, u, v, Run(u, rest), caller);
  }

  lemma ServedAndServed(s: State, t: State, u: State, caller: Option<nat>, n: nat)
    requires Served(s, t, caller, n) && Served(t, u, caller, 1)
    requires forall c {:trigger u.calls[c]} :: 0 <= c < |t.calls| && Closed(t.calls[c].phase) ==> u.calls[c] == t.calls[c]
    ensures Served(s, u, caller, n + 1)
  {
    forall c {:trigger u.calls[c]} | |s.calls| <= c < |u.calls|
      ensures u.calls[c] == Call(caller, if Closing(s) then Thrown else Returned)
    {
      if c < |t.calls| {
        assert t.calls[c] == Call(caller, if Closing(s) then Thrown else Returned);
      }
    }
  }

  lemma StepKeepsClosed(s: State, a: Action)
    requires Enabled(s, a)
    ensures |s.calls| <= |Apply(s, a).calls|
    ensures forall c {:trigger Apply(s, a).calls[c]} :: 0 <= c < |s.calls| && Closed(s.calls[c].phase) ==>
              Apply(s, a).calls[c] == s.calls[c]
  {
    CallsAfter(s, a);
  }

  /** A call that is over stays over. */
  lemma {:induction false} RunKeepsClosed(s: State, later: seq<Action>)
    ensures |s.calls| <= |Run(s, later).calls|
    ensures forall c {:trigger Run(s, later).calls[c]} :: 0 <= c < |s.calls| && Closed(s.calls[c].phase) ==>
              Run(s, later).calls[c] == s.calls[c]
    decreases |later|
  {
    if later != [] {
      var before, a := Run(s, later[..|later| - 1]), later[|later| - 1];
      RunKeepsClosed(s, later[..|later| - 1]);
      if Enabled(before, a) {
        StepKeepsClosed(before, a);
      }
    }
  }

  lemma {:induction false} MoreCalls(s: State, caller: Option<nat>, n: nat) returns (later: seq<Action>)
    requires Inv(s) && CanCall(s, caller)
    ensures Inv(Run(s, later)) && Served(s, Run(s, later), caller, n)
  {
    if n == 0 {
      later := [];
    } else {
      var first := MoreCalls(s, caller, n - 1);
      var t := Run(s, first);
      var rest := OneMoreCall(t, caller);
      RunKeepsClosed(t, rest);
      RunThenRun(s, first, rest);
      later := first + rest;
      ServedAndServed(s, t, Run(t, rest), caller, n - 1);
    }
  }

  /** From every reachable state in which all workers are launched and the destructor is not done, any number of calls can be
      made from outside; and from every reachable state in which a worker runs a task whose last call is over, that task can
      make any number of calls.  Each is answered without any task having to finish meanwhile: with the exception, and no
      task queued, if `stop` is set or about to be, and otherwise with a future and its task accepted. */
  lemma CallsCanAlwaysBeMade(threads: nat, schedule: seq<Action>, caller: Option<nat>, n: nat) returns (later: seq<Action>)
    requires var s := At(threads, schedule);
             match caller
             case None => |s.workers| == threads && !s.dtor.Gone?
             case Some(i) =>
               && i < |s.workers| && s.workers[i].Running?
               && (s.workers[i].nested.Some? ==>
                     var d := s.workers[i].nested.value;
                     d < |s.calls| && (s.calls[d].phase.Returned? || s.calls[d].phase.Thrown?))
    ensures var s, t := At(threads, schedule), At(threads, schedule + later);
            var refused := s.stop || s.dtor.Holding?;
            && |t.calls| == |s.calls| + n && t.completed == s.completed
            && (forall c: nat {:trigger t.calls[c]} :: |s.calls| <= c < |t.calls| ==>
                  t.calls[c] == Call(caller, if refused then Thrown else Returned) && (c in t.accepted <==> !refused))
            && (caller.Some? ==> var i := caller.value;
                  i < |s.workers| && i < |t.workers| && s.workers[i].Running? && t.workers[i].Running?
                  && t.workers[i].task == s.workers[i].task)
            && (s.dtor.Alive? ==> t.dtor.Alive?)
  {
    var s := At(threads, schedule);
    InvReachable(threads, schedule);
    StopIsForEver(Init(threads), schedule) by { InvInit(threads); }
    later := MoreCalls(s, caller, n);
    RunThenRun(Init(threads), schedule, later);
    var t := At(threads, schedule + later);
    forall c: nat | |s.calls| <= c < |t.calls|
      ensures c in t.accepted <==> Queued(t.calls[c].phase)
    {
    }
  }

  // ---- a pool of any size serves any number of calls ----

  /** Steps of the pool's own begin no call and no destruction. */
  lemma {:induction false} OwnStepsBeginNothing(s: State, later: seq<Action>)
    requires OwnSteps(later)
    ensures |Run(s, later).calls| == |s.calls| && (s.dtor.Alive? ==> Run(s, later).dtor.Alive?)
    decreases |later|
  {
    if later != [] {
      var before, a := Run(s, later[..|later| - 1]), later[|later| - 1];
      assert forall k {:trigger later[..|later| - 1][k]} :: 0 <= k < |later| - 1 ==> later[..|later| - 1][k] == later[k];
      OwnStepsBeginNothing(s, later[..|later| - 1]);
      if Enabled(before, a) {
        CallsAfter(before, a);
      }
    }
  }

  lemma ThreadsStay(threads: nat, schedule: seq<Action>)
    ensures At(threads, schedule).threads == threads
  {
    StopIsForEver(Init(threads), schedule) by { InvInit(threads); }
  }

  /** The constructor's loop can run to its end, with no call and no destruction begun. */
  lemma LaunchAll(threads: nat) returns (launch: seq<Action>)
    ensures var s := At(threads, launch); |s.workers| == threads && s.calls == [] && s.dtor.Alive? && !s.stop
  {
    launch := CanComeToRest(threads, []);
    assert [] + launch == launch;
    OwnStepsBeginNothing(Init(threads), launch);
    StuckIffQuiet(threads, launch);
    ThreadsStay(threads, launch);
    InvReachable(threads, launch);
  }

  /** After n calls and the rest that follows. */
  lemma ServeAndRest(threads: nat, launch: seq<Action>, calls: seq<Action>, n: nat) returns (schedule: seq<Action>)
    requires var s := At(threads, launch + calls); |s.calls| == n && forall c :: 0 <= c < n ==> s.calls[c] == Call(None, Returned)
    ensures var s := At(threads, schedule);
            Stuck(s) && |s.calls| == n && forall c :: 0 <= c < n ==> s.calls[c] == Call(None, Returned)
  {
    var s := At(threads, launch + calls);
    var work := CanComeToRest(threads, launch + calls);
    schedule := launch + calls + work;
    RunThenRun(Init(threads), launch + calls, work);
    OwnStepsBeginNothing(s, work);
    RunKeepsClosed(s, work);
    forall c | 0 <= c < n
      ensures At(threads, schedule).calls[c] == Call(None, Returned)
    {
      assert Closed(s.calls[c].phase);
      assert Run(s, work).calls[c] == s.calls[c];
    }
  }

  /** Whatever the number of workers, and for every n, there is a schedule on which exactly n calls are made, all return
      their futures, and, if there are workers, all n tasks are run. */
  lemma AnyNumberIsServed(threads: nat, n: nat) returns (schedule: seq<Action>)
    ensures var s := At(threads, schedule);
            && |s.calls| == n && |s.accepted| == n && (forall c :: 0 <= c < n ==> s.calls[c] == Call(None, Returned))
            && (threads > 0 ==> |s.completed| == n && s.tasks == [])
  {
    var launch := LaunchAll(threads);
    var calls := CallsCanAlwaysBeMade(threads, launch, None, n);
    schedule := ServeAndRest(threads, launch, calls, n);
    AllAccepted(threads, schedule, n);
    if threads > 0 {
      AtRestEverythingHasRun(threads, schedule);
      assert |multiset(At(threads, schedule).completed)| == |multiset(At(threads, schedule).accepted)|;
    }
  }

  ghost function FirstNats(n: nat): (r: set<nat>)
    ensures |r| == n && forall c: nat :: c in r <==> c < n
  {
    if n == 0 then {} else FirstNats(n - 1) + {n - 1}
  }

  lemma AllAccepted(threads: nat, schedule: seq<Action>, n: nat)
    requires var s := At(threads, schedule); |s.calls| == n && forall c :: 0 <= c < n ==> s.calls[c] == Call(None, Returned)
    ensures |At(threads, schedule).accepted| == n
  {
    var s := At(threads, schedule);
    InvReachable(threads, schedule);
    ElementsSize(s.accepted);
    assert Elements(s.accepted) == FirstNats(n);
  }

  // ---- the destructor does not wait for tasks ----

  lemma TwoSteps(s: State, a: Action, b: Action)
    ensures Run(s, [a, b]) == Next(Next(s, a), b)
  {
    OneMore(s, [a], b);
    OneMore(s, [], a);
    assert [] + [a] == [a] && [a] + [b] == [a, b];
  }

  lemma LockIs(s: State)
    requires s.owner.Nobody? && s.dtor.Closing?
    ensures Next(s, DestroyLock) == s.(dtor := Holding, owner := DtorOwns, grants := s.grants + [DtorOwns])
  {
  }

  lemma SetIs(s: State)
    requires s.dtor.Holding?
    ensures Next(s, SetStop) == s.(dtor := Flagged, stop := true)
  {
  }

  lemma LockAndSet(s: State)
    requires s.owner.Nobody? && s.dtor.Closing?
    ensures Run(s, [DestroyLock, SetStop])
         == s.(dtor := Flagged, stop := true, owner := DtorOwns, grants := s.grants + [DtorOwns])
  {
    LockIs(s);
    SetIs(s.(dtor := Holding, owner := DtorOwns, grants := s.grants + [DtorOwns]));
    TwoSteps(s, DestroyLock, SetStop);
  }

  lemma UnlockAndWake(s: State)
    requires s.dtor.Flagged?
    ensures Run(s, [DestroyUnlock, NotifyAll]) == s.(dtor := Joining(0), owner := Nobody, workers := WakeAll(s.workers))
  {
    TwoSteps(s, DestroyUnlock, NotifyAll);
  }

  lemma SetStopNow(s: State) returns (later: seq<Action>)
    requires s.owner.Nobody? && s.dtor.Closing?
    ensures Run(s, later) == s.(dtor := Joining(0), stop := true, workers := WakeAll(s.workers), grants := s.grants + [DtorOwns])
  {
    LockAndSet(s);
    UnlockAndWake(Run(s, [DestroyLock, SetStop]));
    RunThenRun(s, [DestroyLock, SetStop], [DestroyUnlock, NotifyAll]);
    later := [DestroyLock, SetStop] + [DestroyUnlock, NotifyAll];
  }

  /** From every reachable state in which a client may destroy the pool, `stop` can be set and everybody woken while every
      running task, and every call under way outside the lock, stands still. */
  lemma StopDoesNotWaitForTasks(threads: nat, schedule: seq<Action>) returns (later: seq<Action>)
    requires var s := At(threads, schedule); |s.workers| == threads && s.dtor.Alive?
    ensures var s, t := At(threads, schedule), At(threads, schedule + later);
            && t.stop && t.dtor == Joining(0) && t.completed == s.completed && |t.calls| == |s.calls|
            && |t.workers| == threads && NoSleeper(t.workers)
            && (forall i {:trigger t.workers[i]} :: 0 <= i < threads && s.workers[i].Running? ==> t.workers[i] == s.workers[i])
  {
    var s := At(threads, schedule);
    InvReachable(threads, schedule);
    StopIsForEver(Init(threads), schedule) by { InvInit(threads); }
    InvKept(s, DestroyBegin);
    var u := Apply(s, DestroyBegin);
    var free := FreeTheMutex(u);
    var v := Run(u, free);
    var rest := SetStopNow(v);
    later := [DestroyBegin] + (free + rest);
    RunFirst(s, DestroyBegin, free + rest);
    RunThenRun(u, free, rest);
    RunThenRun(Init(threads), schedule, later);
    forall i {:trigger Run(v, rest).workers[i]} | 0 <= i < threads && s.workers[i].Running?
      ensures Run(v, rest).workers[i] == s.workers[i]
    {
      assert v.workers[i] == u.workers[i];
    }
  }
}
