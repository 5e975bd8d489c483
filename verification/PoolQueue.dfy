/** The pool, locks and all, behaves as an atomic closable FIFO queue. */
module AtomicQueue {

  datatype Queue = Queue(items: seq<nat>, closed: bool)

  datatype Event =
    | Put(task: nat)
    | Refuse(task: nat)
    | Take(task: nat)
    | Close
    | Drained
    | Silent

  /** What the queue may do in one step. */
  ghost predicate Steps(q: Queue, e: Event, r: Queue) {
    match e
    case Put(task) => !q.closed && r == q.(items := q.items + [task])
    case Refuse(_) => q.closed && r == q
    case Take(task) => q.items == [task] + r.items && r.closed == q.closed
    case Close => r == q.(closed := true)
    case Drained => q.closed && q.items == [] && r == q
    case Silent => r == q
  }

  /** `r` can be reached from `q` by these events. */
  ghost predicate Behaves(q: Queue, events: seq<Event>, r: Queue)
    decreases |events|
  {
    if events == [] then q == r
    else
      var front, last := events[..|events| - 1], events[|events| - 1];
      exists m {:trigger Steps(m, last, r)} :: Behaves(q, front, m) && Steps(m, last, r)
  }

  function Puts(events: seq<Event>): seq<nat>
    decreases |events|
  {
    if events == [] then []
    else
      var e := events[|events| - 1];
      Puts(events[..|events| - 1]) + if e.Put? then [e.task] else []
  }

  function Takes(events: seq<Event>): seq<nat>
    decreases |events|
  {
    if events == [] then []
    else
      var e := events[|events| - 1];
      Takes(events[..|events| - 1]) + if e.Take? then [e.task] else []
  }

  function Refusals(events: seq<Event>): seq<nat>
    decreases |events|
  {
    if events == [] then []
    else
      var e := events[|events| - 1];
      Refusals(events[..|events| - 1]) + if e.Refuse? then [e.task] else []
  }

  /** How often somebody found the queue closed and empty. */
  function Drains(events: seq<Event>): nat
    decreases |events|
  {
    if events == [] then 0
    else Drains(events[..|events| - 1]) + if events[|events| - 1].Drained? then 1 else 0
  }

  /** First in, first out: what was there and what was put in, in order, is what was taken out and what is left. */
  lemma {:induction false} FirstInFirstOut(q: Queue, events: seq<Event>, r: Queue)
    requires Behaves(q, events, r)
    ensures q.items + Puts(events) == Takes(events) + r.items
    decreases |events|
  {
    if events != [] {
      var front, e := events[..|events| - 1], events[|events| - 1];
      var m :| Behaves(q, front, m) && Steps(m, e, r);
      FirstInFirstOut(q, front, m);
      match e {
        case Put(task) =>
          assert q.items + Puts(events) == (q.items + Puts(front)) + [task];
          assert Takes(events) + r.items == (Takes(front) + m.items) + [task];
        case Take(task) =>
          assert Takes(events) + r.items == Takes(front) + ([task] + r.items);
          assert q.items + Puts(events) == q.items + Puts(front);
        case _ =>
          assert Puts(events) == Puts(front) && Takes(events) == Takes(front);
      }
    }
  }

  /** Nothing is put into a queue that was closed. */
  lemma {:induction false} ClosedTakesNothingIn(q: Queue, events: seq<Event>, r: Queue)
    requires Behaves(q, events, r) && q.closed
    ensures r.closed && Puts(events) == []
    decreases |events|
  {
    if events != [] {
      var front, e := events[..|events| - 1], events[|events| - 1];
      var m :| Behaves(q, front, m) && Steps(m, e, r);
      ClosedTakesNothingIn(q, front, m);
    }
  }
}

module PoolQueue {
  import opened Sums
  import opened PoolModel
  import opened PoolInvariants
  import opened PoolSafety
  import opened AtomicQueue

  /** The queue a client sees. */
  function Abstract(s: State): Queue {
    Queue(s.tasks, s.stop)
  }

  /** The instant at which a critical section takes effect on the queue: one of its several steps. */
  function EventOf(s: State, a: Action): Event
    requires Enabled(s, a)
  {
    match a
    case EnqueueCheck(c) => if s.stop then Refuse(c) else Silent
    case EnqueuePush(c) => Put(c)
    case ExitReadQueue(_) => if s.tasks == [] then Drained else Silent
    case Pop(i) => Take(s.workers[i].task)
    case SetStop => Close
    case _ => Silent
  }

  /** A thread that cannot move does nothing to the queue. */
  function EventAt(s: State, a: Action): Event {
    if Enabled(s, a) then EventOf(s, a) else Silent
  }

  function Events(s: State, schedule: seq<Action>): (events: seq<Event>)
    ensures |events| == |schedule|
    decreases |schedule|
  {
    if schedule == [] then []
    else
      var front, a := schedule[..|schedule| - 1], schedule[|schedule| - 1];
      Events(s, front) + [EventAt(Run(s, front), a)]
  }

  /** In one step the queue takes this event, and the histories record it. */
  ghost predicate RefinesOnce(s: State, e: Event, t: State) {
    && Steps(Abstract(s), e, Abstract(t))
    && t.accepted == s.accepted + (if e.Put? then [e.task] else [])
    && t.started == s.started + (if e.Take? then [e.task] else [])
  }

  /** Because of what threads know in their critical sections, each step is an atomic event or none: a task is put into a
      queue that is not closed, although `stop` was read earlier, the task taken is the front one, although it was fetched
      earlier, and a worker that leaves has read `stop` and then an empty queue. */
  lemma StepRefines(s: State, a: Action)
    requires Inv(s) && Enabled(s, a)
    ensures RefinesOnce(s, EventOf(s, a), Apply(s, a))
  {
    if OfWorker(a) {
      WorkerRefines(s, a);
    } else {
      OthersRefine(s, a);
    }
  }

  lemma WorkerRefines(s: State, a: Action)
    requires WorkerInv(s) && Enabled(s, a) && OfWorker(a)
    ensures RefinesOnce(s, EventOf(s, a), Apply(s, a))
  {
    assert Knows(s.workers[a.i], s.stop, s.tasks);
    if a.Pop? {
      assert s.tasks == [s.workers[a.i].task] + s.tasks[1..];
    }
  }

  lemma OthersRefine(s: State, a: Action)
    requires CallInv(s) && Enabled(s, a) && !OfWorker(a)
    ensures RefinesOnce(s, EventOf(s, a), Apply(s, a))
  {
    if a.EnqueuePush? {
      assert CallKnows(s.calls[a.c].phase, s.stop);
    }
  }

  /** From `s` to `t` the queue behaves like this, and the histories record what was put in and taken out. */
  ghost predicate Refines(s: State, events: seq<Event>, t: State) {
    && Behaves(Abstract(s), events, Abstract(t))
    && t.accepted == s.accepted + Puts(events)
    && t.started == s.started + Takes(events)
  }

  lemma OneMoreEvent(s: State, events: seq<Event>, m: State, e: Event, t: State)
    requires Refines(s, events, m) && RefinesOnce(m, e, t)
    ensures Refines(s, events + [e], t)
  {
    var all := events + [e];
    assert all[..|all| - 1] == events && all[|all| - 1] == e;
  }

  lemma NextRefines(s: State, a: Action)
    requires Inv(s)
    ensures RefinesOnce(s, EventAt(s, a), Next(s, a))
  {
    if Enabled(s, a) {
      StepRefines(s, a);
    }
  }

  lemma {:induction false} RunRefines(s: State, schedule: seq<Action>)
    requires Inv(s)
    ensures Refines(s, Events(s, schedule), Run(s, schedule))
    decreases |schedule|
  {
    if schedule != [] {
      var front, a := schedule[..|schedule| - 1], schedule[|schedule| - 1];
      RunRefines(s, front);
      InvRun(s, front);
      NextRefines(Run(s, front), a);
      OneMoreEvent(s, Events(s, front), Run(s, front), EventAt(Run(s, front), a), Run(s, schedule));
    }
  }

  /** Every interleaving of the pool's steps is a behaviour of the atomic queue in which the tasks put in are the accepted
      ones and the tasks taken out are the started ones. */
  lemma {:induction false} PoolIsAQueue(threads: nat, schedule: seq<Action>)
    ensures var s, events := At(threads, schedule), Events(Init(threads), schedule);
            && Behaves(Queue([], false), events, Abstract(s))
            && s.accepted == Puts(events) && s.started == Takes(events)
            && s.started + s.tasks == s.accepted
  {
    InvInit(threads);
    RunRefines(Init(threads), schedule);
    FirstInFirstOut(Queue([], false), Events(Init(threads), schedule), Abstract(At(threads, schedule)));
    var s, events := At(threads, schedule), Events(Init(threads), schedule);
    assert Init(threads).accepted + Puts(events) == Puts(events);
    assert Init(threads).started + Takes(events) == Takes(events);
    assert [] + Puts(events) == Puts(events);
  }

  /** Once `stop` is set, nothing more is put into the queue, whatever calls arrive: what the queue does from then on is the
      behaviour of a closed one. */
  lemma StoppedPoolTakesNothingIn(threads: nat, schedule: seq<Action>, later: seq<Action>)
    requires At(threads, schedule).stop
    ensures var s, t := At(threads, schedule), At(threads, schedule + later);
            t.stop && t.accepted == s.accepted && s.tasks == Takes(Events(s, later)) + t.tasks
  {
    var s := At(threads, schedule);
    InvReachable(threads, schedule);
    RunThenRun(Init(threads), schedule, later);
    RunRefines(s, later);
    ClosedTakesNothingIn(Abstract(s), Events(s, later), Abstract(Run(s, later)));
    FirstInFirstOut(Abstract(s), Events(s, later), Abstract(Run(s, later)));
    assert s.tasks + Puts(Events(s, later)) == s.tasks && s.accepted + Puts(Events(s, later)) == s.accepted;
  }

  // ---- refusals and exits ----

  predicate Refused(p: Phase) {
    p.Throwing? || p.Thrown?
  }

  /** The worker has found the queue closed and empty and is on its way out, or out. */
  function Left(w: Worker): nat {
    if w.Leaving? || w.Exited? then 1 else 0
  }

  /** The refused calls, each once. */
  ghost predicate RefusalsAre(s: State, r: seq<nat>) {
    && (forall c: nat {:trigger c in r} :: c in r <==> c < |s.calls| && Refused(s.calls[c].phase))
    && NoDuplicates(r)
  }

  /** The refused calls are those that throw or have thrown, each once, and the queue was found drained once for each worker
      that leaves or has left. */
  ghost predicate Recorded(s: State, events: seq<Event>) {
    && RefusalsAre(s, Refusals(events))
    && Drains(events) == Sum(Left, s.workers)
  }

  lemma RefusalsKeptByCheck(s: State, r: seq<nat>, c: nat)
    requires RefusalsAre(s, r) && Enabled(s, EnqueueCheck(c))
    ensures RefusalsAre(Apply(s, EnqueueCheck(c)), r + if s.stop then [c] else [])
  {
    assert c !in r;
  }

  lemma RefusalsKept(s: State, r: seq<nat>, a: Action)
    requires RefusalsAre(s, r) && Enabled(s, a)
    ensures RefusalsAre(Apply(s, a), r + if EventOf(s, a).Refuse? then [EventOf(s, a).task] else [])
  {
    CallsAfter(s, a);
    if a.EnqueueCheck? {
      RefusalsKeptByCheck(s, r, a.c);
    } else {
      assert r + [] == r;
      assert forall c: nat :: c < |s.calls| ==> (Refused(s.calls[c].phase) <==> Refused(Apply(s, a).calls[c].phase));
    }
  }

  lemma DrainsKept(s: State, a: Action)
    requires Enabled(s, a)
    ensures Sum(Left, Apply(s, a).workers) == Sum(Left, s.workers) + if EventOf(s, a).Drained? then 1 else 0
  {
    var t := Apply(s, a);
    WorkersAfter(s, a);
    if Moved(a).Some? {
      SumUpdate(Left, s.workers, Moved(a).value, t.workers[Moved(a).value]);
    } else if a.Spawn? {
      SumPush(Left, s.workers, Wanting);
    } else if a.NotifyAll? {
      SumMonotone(Left, s.workers, t.workers);
      SumMonotone(Left, t.workers, s.workers);
    }
  }

  lemma EventsOneMore(events: seq<Event>, e: Event)
    ensures Refusals(events + [e]) == Refusals(events) + if e.Refuse? then [e.task] else []
    ensures Drains(events + [e]) == Drains(events) + if e.Drained? then 1 else 0
  {
    assert (events + [e])[..|events|] == events;
  }

  lemma {:induction false} RunRecords(threads: nat, schedule: seq<Action>)
    ensures Recorded(At(threads, schedule), Events(Init(threads), schedule))
    decreases |schedule|
  {
    if schedule != [] {
      var front, a := schedule[..|schedule| - 1], schedule[|schedule| - 1];
      var before, events := At(threads, front), Events(Init(threads), front);
      RunRecords(threads, front);
      EventsOneMore(events, EventAt(before, a));
      if Enabled(before, a) {
        RefusalsKept(before, Refusals(events), a);
        DrainsKept(before, a);
      }
    }
  }

  /** The calls that the queue refuses are exactly those that throw, each refused once; and in a pool that is gone, the queue
      was found closed and empty exactly once by each worker. */
  lemma RefusedCallsThrow(threads: nat, schedule: seq<Action>, c: nat)
    ensures var s, refusals := At(threads, schedule), Refusals(Events(Init(threads), schedule));
            && (c in refusals <==> c < |s.calls| && (s.calls[c].phase.Throwing? || s.calls[c].phase.Thrown?))
            && (forall j, k :: 0 <= j < k < |refusals| ==> refusals[j] != refusals[k])
            && (s.dtor.Gone? ==> Drains(Events(Init(threads), schedule)) == threads)
  {
    RunRecords(threads, schedule);
    if At(threads, schedule).dtor.Gone? {
      ShutdownDrains(threads, schedule);
      AllLeft(At(threads, schedule).workers);
    }
  }

  lemma {:induction false} AllLeft(workers: seq<Worker>)
    requires forall i :: 0 <= i < |workers| ==> workers[i].Exited?
    ensures Sum(Left, workers) == |workers|
  {
    if workers != [] {
      AllLeft(workers[1..]);
    }
  }
}
