/** Several threads at once, each with handles of its own, the memory operations of their members interleaved in any order.

    The counts are shared; everything else of a `World` is a thread's own.  What a thread's world calls `count` is here its
    share: how many of the counted references to each object it has made and not yet released.  No memory operation depends
    on a count, so a thread's share does what the count would do if the thread were alone. */
module HandleThreads {
  import opened Options
  import opened Sums
  import opened HandleModel
  import opened HandleLaws
  import opened HandleSafety

  // `code` is what is left of the member the thread is in, `released` the handle whose reference that member gives up,
  // `log` the members the thread has entered since it began in the world `start`.
  datatype Thread = Thread(start: World, world: World, code: Code, released: Option<nat>, log: seq<Op>)

  datatype System = System(threads: seq<Thread>, count: seq<int>)

  datatype Step =
    | Begin(t: nat, op: Op)                         // a thread enters a member
    | Advance(t: nat)                               // a thread makes its next memory operation

  /** A thread gives away only outside references of its own.  An object made while the threads run is one to which nobody
      has had a reference; a thread gets hold of it by `Acquire`. */
  predicate CanBegin(th: Thread, op: Op) {
    th.code.End? && !op.NewObject? && Enabled(th.world, op) && Honest(th.world, op)
  }

  function CountAfter(count: seq<int>, m: Micro): seq<int> {
    match m
    case AddRef(o) => Bump(count, o, 1)
    case Release(o) => Bump(count, o, -1)
    case _ => count
  }

  function Entered(th: Thread, op: Op): Thread
    requires CanBegin(th, op)
  {
    Thread(th.start, th.world, Program(th.world, op), Released(op), th.log + [op])
  }

  function Advanced(th: Thread): Thread
    requires th.code.Then?
  {
    var released := if th.code.rest.End? then None else th.released;
    Thread(th.start, Do(th.world, th.code.first), th.code.rest, released, th.log)
  }

  /** A step that the thread cannot take leaves everything as it is. */
  function Next(s: System, step: Step): System {
    if step.t >= |s.threads| then s
    else
      var th := s.threads[step.t];
      match step
      case Begin(t, op) => if CanBegin(th, op) then s.(threads := s.threads[t := Entered(th, op)]) else s
      case Advance(t) =>
        if th.code.Then? then System(s.threads[t := Advanced(th)], CountAfter(s.count, th.code.first)) else s
  }

  function RunAll(s: System, steps: seq<Step>): System
    decreases |steps|
  {
    if steps == [] then s else Next(RunAll(s, steps[..|steps| - 1]), steps[|steps| - 1])
  }

  /** The members that threads enter make no object. */
  predicate NoCreate(c: Code) {
    c.Then? ==> !c.first.Create? && NoCreate(c.rest)
  }

  lemma ProgramsDoNotCreate(w: World, op: Op)
    requires Enabled(w, op) && !op.NewObject?
    ensures NoCreate(Program(w, op))
  {
    var rest := Program(w, op).rest;
    assert rest.Then? && rest.rest.Then? ==> rest.rest.rest.End? && NoCreate(rest.rest.rest);
    assert rest.Then? ==> NoCreate(rest.rest);
  }

  // ---- the shares ----

  function Share(o: nat): Thread -> nat {
    (th: Thread) => if o < |th.world.count| && th.world.count[o] >= 0 then th.world.count[o] else 0
  }

  /** The count of every object is the sum of the threads' shares. */
  ghost predicate Shared(s: System) {
    forall o: nat {:trigger s.count[o]} :: o < |s.count| ==> s.count[o] == Sum(Share(o), s.threads)
  }

  /** One member after the other could be entered from this world. */
  ghost predicate Admissible(w: World, ops: seq<Op>) {
    forall k {:trigger ops[k]} :: 0 <= k < |ops| ==>
      !ops[k].NewObject? && Enabled(Run(w, ops[..k]), ops[k]) && Honest(Run(w, ops[..k]), ops[k])
  }

  /** Alone, the thread would go on without dropping anything, and end its member where the sequence of its members ends. */
  ghost predicate Sound(th: Thread, n: nat) {
    && |th.world.count| == n && |th.start.count| == n && Safe(th.start)
    && (forall o :: 0 <= o < n ==> th.world.count[o] >= 0)
    && Throughout(th.world, th.code, th.released)
    && Safe(Exec(th.world, th.code))
    && Exec(th.world, th.code) == Run(th.start, th.log)
    && NoCreate(th.code)
    && Admissible(th.start, th.log)
    && (th.code.End? ==> th.released.None?)
  }

  ghost predicate Inv(s: System) {
    && Shared(s)
    && forall t {:trigger s.threads[t]} :: 0 <= t < |s.threads| ==> Sound(s.threads[t], |s.count|)
  }

  /** Threads about to begin, in safe worlds, that together own the counted references. */
  ghost predicate Fresh(s: System) {
    && Shared(s)
    && forall t {:trigger s.threads[t]} :: 0 <= t < |s.threads| ==>
         var th := s.threads[t];
         th == Thread(th.start, th.start, End, None, []) && Safe(th.start) && |th.start.count| == |s.count|
  }

  lemma FreshIsSound(s: System)
    requires Fresh(s)
    ensures Inv(s)
  {
    forall t {:trigger s.threads[t]} | 0 <= t < |s.threads|
      ensures Sound(s.threads[t], |s.count|)
    {
      SafeDropsNothing(s.threads[t].world);
      forall o: nat | o < |s.count| ensures s.threads[t].world.count[o] >= 0 {
        SafeIsCounted(s.threads[t].world, o);
      }
    }
  }

  lemma AdmissibleOneMore(w: World, ops: seq<Op>, op: Op)
    requires Admissible(w, ops) && !op.NewObject? && Enabled(Run(w, ops), op) && Honest(Run(w, ops), op)
    ensures Admissible(w, ops + [op])
  {
    var all := ops + [op];
    forall k {:trigger all[k]} | 0 <= k < |all|
      ensures !all[k].NewObject? && Enabled(Run(w, all[..k]), all[k]) && Honest(Run(w, all[..k]), all[k])
    {
      assert all[..k] == ops[..k];
      if k == |ops| {
        assert ops[..k] == ops;
      } else {
        assert all[k] == ops[k];
      }
    }
  }

  lemma EnteredIsSound(th: Thread, op: Op, n: nat)
    requires Sound(th, n) && CanBegin(th, op)
    ensures Sound(Entered(th, op), n)
  {
    var w := th.world;
    NoEarlyDrop(w, op);
    SafeIffHonest(w, op);
    ProgramsDoNotCreate(w, op);
    assert (th.log + [op])[..|th.log|] == th.log;
    AdmissibleOneMore(th.start, th.log, op);
  }

  lemma AdvancedIsSound(th: Thread, n: nat)
    requires Sound(th, n) && th.code.Then?
    ensures Sound(Advanced(th), n)
    ensures forall o: nat :: o < n ==> Share(o)(Advanced(th)) == CountAfter(th.world.count, th.code.first)[o]
  {
    var v := Do(th.world, th.code.first);
    assert Throughout(v, th.code.rest, th.released);
    if th.code.rest.End? {
      assert v == Exec(th.world, th.code);
      SafeDropsNothing(v);
    }
  }

  lemma BeginKeeps(s: System, t: nat, op: Op)
    requires Inv(s) && t < |s.threads| && CanBegin(s.threads[t], op)
    ensures Inv(Next(s, Begin(t, op)))
  {
    var th := s.threads[t];
    EnteredIsSound(th, op, |s.count|);
    forall o: nat | o < |s.count|
      ensures Sum(Share(o), s.threads[t := Entered(th, op)]) == s.count[o]
    {
      SumUpdate(Share(o), s.threads, t, Entered(th, op));
    }
  }

  lemma AdvanceKeepsShares(s: System, t: nat)
    requires Shared(s) && t < |s.threads| && s.threads[t].code.Then? && Sound(s.threads[t], |s.count|)
    ensures Shared(Next(s, Advance(t)))
  {
    var th := s.threads[t];
    var v := Next(s, Advance(t));
    AdvancedIsSound(th, |s.count|);
    forall o: nat | o < |s.count|
      ensures v.count[o] == Sum(Share(o), v.threads)
    {
      SumUpdate(Share(o), s.threads, t, Advanced(th));
    }
  }

  lemma AdvanceKeeps(s: System, t: nat)
    requires Inv(s) && t < |s.threads| && s.threads[t].code.Then?
    ensures Inv(Next(s, Advance(t)))
  {
    AdvanceKeepsShares(s, t);
    AdvancedIsSound(s.threads[t], |s.count|);
  }

  lemma {:induction false} InvRun(s: System, steps: seq<Step>)
    requires Fresh(s)
    ensures Inv(RunAll(s, steps))
    decreases |steps|
  {
    if steps == [] {
      FreshIsSound(s);
    } else {
      var before, step := RunAll(s, steps[..|steps| - 1]), steps[|steps| - 1];
      InvRun(s, steps[..|steps| - 1]);
      if step.t < |before.threads| {
        match step {
          case Begin(t, op) => if CanBegin(before.threads[t], op) { BeginKeeps(before, t, op); }
          case Advance(t) => if before.threads[t].code.Then? { AdvanceKeeps(before, t); }
        }
      }
    }
  }

  // ---- results ----

  /** Between any two memory operations of any threads, every handle of every thread points at a live object, the one its
      thread is releasing aside, and the next `Release` of every thread is of a live object. */
  lemma NoThreadDropsAnothersObject(s: System, steps: seq<Step>, t: nat)
    requires Fresh(s) && t < |RunAll(s, steps).threads|
    ensures var u := RunAll(s, steps);
            var th := u.threads[t];
            && (forall h {:trigger th.world.handles[h]} ::
                  0 <= h < |th.world.handles| && th.world.handles[h].To? && th.released != Some(h) ==>
                    th.world.handles[h].obj < |u.count| && u.count[th.world.handles[h].obj] >= 1)
            && (th.code.End? ==> th.released.None?)
            && (th.code.Then? && th.code.first.Release? ==>
                  th.code.first.o < |u.count| && u.count[th.code.first.o] >= 1)
  {
    InvRun(s, steps);
    var u := RunAll(s, steps);
    var th := u.threads[t];
    forall o: nat | o < |u.count|
      ensures u.count[o] >= th.world.count[o]
    {
      SumAtLeast(Share(o), u.threads, t);
    }
    MoreIsDropFree(th.world, th.world.(count := u.count), th.released);
  }

  lemma {:induction false} LeakOverRun(w: World, ops: seq<Op>, o: nat)
    requires InRange(w) && o < |w.count|
    ensures InRange(Run(w, ops)) && o < |Run(w, ops).count|
    ensures Leak(Run(w, ops), o) == Leak(w, o) + Overwrites(w, ops, o)
    decreases |ops|
  {
    if ops != [] {
      var before := Run(w, ops[..|ops| - 1]);
      LeakOverRun(w, ops[..|ops| - 1], o);
      if Enabled(before, ops[|ops| - 1]) {
        LeakGrowsOnlyByOverwriting(before, ops[|ops| - 1], o);
      }
    }
  }

  /** However the threads' memory operations were interleaved, each thread's handles and outside references are what its own
      members, one after the other, make of those it began with, and the count of an object is the sum, over the threads, of
      its outside references, the handles that point at it, and the moves that overwrote one. */
  lemma AccountingOfThreads(s: System, steps: seq<Step>, o: nat)
    requires Fresh(s) && o < |s.count|
    requires forall t :: 0 <= t < |RunAll(s, steps).threads| ==> RunAll(s, steps).threads[t].code.End?
    ensures var u := RunAll(s, steps);
            && o < |u.count| && u.count[o] == Sum(Share(o), u.threads)
            && forall t {:trigger u.threads[t]} :: 0 <= t < |u.threads| ==>
                 var th := u.threads[t];
                 && th.world == Run(th.start, th.log)
                 && o < |th.start.count| == |th.start.external| && o < |th.world.external|
                 && Share(o)(th) == th.world.external[o] + Refs(th.world.handles, o) + Leak(th.start, o)
                                  + Overwrites(th.start, th.log, o)
  {
    InvRun(s, steps);
    SameSize(s, steps);
    var u := RunAll(s, steps);
    forall t {:trigger u.threads[t]} | 0 <= t < |u.threads|
      ensures var th := u.threads[t];
              && th.world == Run(th.start, th.log)
              && o < |th.start.count| == |th.start.external| && o < |th.world.external|
              && Share(o)(th) == th.world.external[o] + Refs(th.world.handles, o) + Leak(th.start, o)
                               + Overwrites(th.start, th.log, o)
    {
      LeakOverRun(u.threads[t].start, u.threads[t].log, o);
    }
  }

  lemma {:induction false} SameSize(s: System, steps: seq<Step>)
    ensures |RunAll(s, steps).threads| == |s.threads| && |RunAll(s, steps).count| == |s.count|
    ensures forall t {:trigger s.threads[t]} :: 0 <= t < |s.threads| ==>
              RunAll(s, steps).threads[t].start == s.threads[t].start
    decreases |steps|
  {
    if steps != [] {
      SameSize(s, steps[..|steps| - 1]);
    }
  }

  /** Two interleavings in which each thread enters the same members end in the same state: the same handles, the same
      outside references and the same counts. */
  lemma OrderDoesNotMatter(s: System, steps: seq<Step>, others: seq<Step>)
    requires Fresh(s)
    requires forall t :: 0 <= t < |RunAll(s, steps).threads| ==> RunAll(s, steps).threads[t].code.End?
    requires forall t :: 0 <= t < |RunAll(s, others).threads| ==> RunAll(s, others).threads[t].code.End?
    requires forall t {:trigger s.threads[t]} :: 0 <= t < |s.threads| ==>
               t < |RunAll(s, steps).threads| && t < |RunAll(s, others).threads|
               && RunAll(s, steps).threads[t].log == RunAll(s, others).threads[t].log
    ensures RunAll(s, steps) == RunAll(s, others)
  {
    var u, v := RunAll(s, steps), RunAll(s, others);
    InvRun(s, steps);
    InvRun(s, others);
    SameSize(s, steps);
    SameSize(s, others);
    forall t | 0 <= t < |s.threads|
      ensures u.threads[t] == v.threads[t]
    {
      assert s.threads[t].start == u.threads[t].start == v.threads[t].start;
      assert Sound(u.threads[t], |u.count|) && Sound(v.threads[t], |v.count|);
    }
    assert u.threads == v.threads;
    assert u.count == v.count;
  }

  // ---- threads go on ----

  lemma {:induction false} RunAllThen(s: System, first: seq<Step>, second: seq<Step>)
    ensures RunAll(s, first + second) == RunAll(RunAll(s, first), second)
    decreases |second|
  {
    if second == [] {
      assert first + second == first;
    } else {
      var all := first + second;
      assert all[..|all| - 1] == first + second[..|second| - 1];
      RunAllThen(s, first, second[..|second| - 1]);
    }
  }

  lemma RunAllFirst(s: System, step: Step, rest: seq<Step>)
    ensures RunAll(s, [step] + rest) == RunAll(Next(s, step), rest)
  {
    RunAllThen(s, [step], rest);
    assert [step][..0] == [];
    assert RunAll(s, [step]) == Next(RunAll(s, [step][..0]), step);
  }

  /** All steps are of this thread, and the others stand still. */
  ghost predicate OnlyOf(t: nat, steps: seq<Step>, s: System, u: System) {
    && (forall k {:trigger steps[k]} :: 0 <= k < |steps| ==> steps[k].t == t)
    && t < |s.threads| && |u.threads| == |s.threads| && u.threads == s.threads[t := u.threads[t]]
  }

  /** A thread inside a member can finish it by steps of its own, in any system at all. */
  lemma {:induction false} FinishMember(s: System, t: nat) returns (steps: seq<Step>)
    requires t < |s.threads|
    ensures var u, th := RunAll(s, steps), s.threads[t];
            OnlyOf(t, steps, s, u)
            && u.threads[t] == Thread(th.start, Exec(th.world, th.code), End,
                                      if th.code.End? then th.released else None, th.log)
    decreases s.threads[t].code
  {
    if s.threads[t].code.End? {
      steps := [];
    } else {
      var rest := FinishMember(Next(s, Advance(t)), t);
      RunAllFirst(s, Advance(t), rest);
      steps := [Advance(t)] + rest;
    }
  }

  lemma DoMember(s: System, t: nat, op: Op) returns (steps: seq<Step>)
    requires t < |s.threads| && s.threads[t].code.End?
    requires !op.NewObject? && Enabled(s.threads[t].world, op) && Honest(s.threads[t].world, op)
    ensures var u, th := RunAll(s, steps), s.threads[t];
            OnlyOf(t, steps, s, u) && u.threads[t] == Thread(th.start, Apply(th.world, op), End, None, th.log + [op])
  {
    var rest := FinishMember(Next(s, Begin(t, op)), t);
    RunAllFirst(s, Begin(t, op), rest);
    steps := [Begin(t, op)] + rest;
  }

  lemma OnlyOfThenOnlyOf(t: nat, first: seq<Step>, last: seq<Step>, s: System, u: System, v: System)
    requires OnlyOf(t, first, s, u) && OnlyOf(t, last, u, v)
    ensures OnlyOf(t, first + last, s, v)
  {
  }

  lemma AdmissibleFront(w: World, ops: seq<Op>)
    requires Admissible(w, ops) && ops != []
    ensures Admissible(w, ops[..|ops| - 1])
    ensures var op, v := ops[|ops| - 1], Run(w, ops[..|ops| - 1]);
            !op.NewObject? && Enabled(v, op) && Honest(v, op) && Run(w, ops) == HandleModel.Apply(v, op)
  {
    var front := ops[..|ops| - 1];
    forall k {:trigger front[k]} | 0 <= k < |front|
      ensures !front[k].NewObject? && Enabled(Run(w, front[..k]), front[k]) && Honest(Run(w, front[..k]), front[k])
    {
      assert front[k] == ops[k] && front[..k] == ops[..k];
    }
  }

  lemma {:induction false} DoMembers(s: System, t: nat, ops: seq<Op>) returns (steps: seq<Step>)
    requires t < |s.threads| && s.threads[t].code.End? && s.threads[t].released.None?
    requires Admissible(s.threads[t].world, ops)
    ensures var u, th := RunAll(s, steps), s.threads[t];
            OnlyOf(t, steps, s, u) && u.threads[t] == Thread(th.start, Run(th.world, ops), End, None, th.log + ops)
    decreases |ops|
  {
    var th := s.threads[t];
    if ops == [] {
      steps := [];
      assert th.log + ops == th.log;
    } else {
      var front, op := ops[..|ops| - 1], ops[|ops| - 1];
      AdmissibleFront(th.world, ops);
      var first := DoMembers(s, t, front);
      var u := RunAll(s, first);
      var last := DoMember(u, t, op);
      RunAllThen(s, first, last);
      OnlyOfThenOnlyOf(t, first, last, s, u, RunAll(u, last));
      steps := first + last;
      assert th.log + front + [op] == th.log + ops by {
        assert ops == front + [op];
      }
    }
  }

  /** In every state that threads can reach, whatever the others are in the middle of, each thread can finish its member and
      go on with any members that are enabled and honest in its own world, while the others stand still. */
  lemma AThreadCanAlwaysGoOn(s: System, before: seq<Step>, t: nat, ops: seq<Op>) returns (steps: seq<Step>)
    requires Fresh(s) && t < |RunAll(s, before).threads|
    requires var th := RunAll(s, before).threads[t];
             var w := Exec(th.world, th.code);
             forall k {:trigger ops[k]} :: 0 <= k < |ops| ==>
               !ops[k].NewObject? && Enabled(Run(w, ops[..k]), ops[k]) && Honest(Run(w, ops[..k]), ops[k])
    ensures var u, v := RunAll(s, before), RunAll(s, before + steps);
            && |v.threads| == |u.threads| && (forall k :: 0 <= k < |u.threads| && k != t ==> v.threads[k] == u.threads[k])
            && v.threads[t].code.End? && v.threads[t].log == u.threads[t].log + ops
            && v.threads[t].world == Run(Exec(u.threads[t].world, u.threads[t].code), ops)
            && forall k :: 0 <= k < |steps| ==> steps[k].t == t
  {
    InvRun(s, before);
    var u := RunAll(s, before);
    var finish := FinishMember(u, t);
    var m := RunAll(u, finish);
    assert m.threads[t].released.None?;
    var rest := DoMembers(m, t, ops);
    RunAllThen(u, finish, rest);
    steps := finish + rest;
    RunAllThen(s, before, steps);
  }

  /** The steps of each thread come before those of the next. */
  predicate InTurn(steps: seq<Step>) {
    forall j, k :: 0 <= j < k < |steps| ==> steps[j].t <= steps[k].t
  }

  lemma {:induction false} FirstInTurn(s: System, plan: seq<seq<Op>>, n: nat) returns (steps: seq<Step>)
    requires Fresh(s) && |plan| == |s.threads| && n <= |plan|
    requires forall t {:trigger plan[t]} :: 0 <= t < |plan| ==> Admissible(s.threads[t].start, plan[t])
    ensures var u := RunAll(s, steps);
            && |u.threads| == |s.threads| && InTurn(steps) && (forall k :: 0 <= k < |steps| ==> steps[k].t < n)
            && (forall t {:trigger u.threads[t]} :: 0 <= t < |u.threads| ==>
                  var start := s.threads[t].start;
                  u.threads[t] == if t < n then Thread(start, Run(start, plan[t]), End, None, plan[t]) else s.threads[t])
  {
    if n == 0 {
      steps := [];
    } else {
      var t: nat := n - 1;
      var first := FirstInTurn(s, plan, t);
      var u := RunAll(s, first);
      assert u.threads[t] == s.threads[t] && Admissible(s.threads[t].start, plan[t]);
      var rest := DoMembers(u, t, plan[t]);
      RunAllThen(s, first, rest);
      steps := first + rest;
      assert s.threads[t].log + plan[t] == plan[t];
      forall j, k | 0 <= j < k < |steps|
        ensures steps[j].t <= steps[k].t
      {
        assert k >= |first| ==> steps[k] == rest[k - |first|];
        assert j >= |first| ==> steps[j] == rest[j - |first|];
      }
    }
  }

  /** Whatever members each thread is to enter, if they are enabled and honest one after the other in its own world, the
      threads can enter exactly these and come to rest, one thread after the other. */
  lemma ThreadsCanRunInTurn(s: System, plan: seq<seq<Op>>) returns (steps: seq<Step>)
    requires Fresh(s) && |plan| == |s.threads|
    requires forall t {:trigger plan[t]} :: 0 <= t < |plan| ==>
               forall k {:trigger plan[t][k]} :: 0 <= k < |plan[t]| ==>
                 var w := Run(s.threads[t].start, plan[t][..k]);
                 !plan[t][k].NewObject? && Enabled(w, plan[t][k]) && Honest(w, plan[t][k])
    ensures var u := RunAll(s, steps);
            && |u.threads| == |s.threads|
            && (forall t {:trigger u.threads[t]} :: 0 <= t < |u.threads| ==> u.threads[t].code.End? && u.threads[t].log == plan[t])
            && forall j, k :: 0 <= j < k < |steps| ==> steps[j].t <= steps[k].t
  {
    forall t {:trigger plan[t]} | 0 <= t < |plan|
      ensures Admissible(s.threads[t].start, plan[t])
    {
    }
    steps := FirstInTurn(s, plan, |plan|);
  }

  /** Every interleaving that comes to rest ends where some run of the same threads one after the other ends. */
  lemma EveryInterleavingIsSerial(s: System, steps: seq<Step>) returns (serial: seq<Step>)
    requires Fresh(s)
    requires forall t :: 0 <= t < |RunAll(s, steps).threads| ==> RunAll(s, steps).threads[t].code.End?
    ensures RunAll(s, serial) == RunAll(s, steps)
    ensures forall j, k :: 0 <= j < k < |serial| ==> serial[j].t <= serial[k].t
  {
    InvRun(s, steps);
    SameSize(s, steps);
    var u := RunAll(s, steps);
    var plan := seq(|u.threads|, t requires 0 <= t < |u.threads| => u.threads[t].log);
    forall t {:trigger plan[t]} | 0 <= t < |plan|
      ensures Admissible(s.threads[t].start, plan[t])
    {
      assert Sound(u.threads[t], |u.count|) && u.threads[t].start == s.threads[t].start;
    }
    serial := FirstInTurn(s, plan, |plan|);
    var v := RunAll(s, serial);
    forall t {:trigger s.threads[t]} | 0 <= t < |s.threads|
      ensures u.threads[t].log == v.threads[t].log && v.threads[t].code.End?
    {
      assert v.threads[t].log == plan[t];
    }
    OrderDoesNotMatter(s, steps, serial);
  }

  // ---- a thread is started ----

  /** A thread that takes the handles from `k` on with it, as the closure moved into it, and the references they own. */
  function Child(w: World, k: nat): World
    requires k <= |w.handles|
  {
    World(w.handles[k..], seq(|w.count|, o requires 0 <= o < |w.count| => Refs(w.handles[k..], o)), seq(|w.count|, o => 0))
  }

  function Parent(w: World, k: nat): World
    requires k <= |w.handles|
  {
    World(w.handles[..k], seq(|w.count|, o requires 0 <= o < |w.count| => w.count[o] - Refs(w.handles[k..], o)), w.external)
  }

  function Begun(w: World): Thread {
    Thread(w, w, End, None, [])
  }

  /** Any number of threads may begin together, in any safe worlds of the same objects. */
  lemma SafeWorldsAreFresh(worlds: seq<World>, n: nat)
    requires forall i {:trigger worlds[i]} :: 0 <= i < |worlds| ==> Safe(worlds[i]) && |worlds[i].count| == n
    ensures var threads := seq(|worlds|, i requires 0 <= i < |worlds| => Begun(worlds[i]));
            Fresh(System(threads, seq(n, o requires 0 <= o < n => Sum(Share(o), threads))))
  {
  }

  /** From a safe world a thread can be started with any handles, and what is proved of interleavings holds from there. */
  lemma StartingAThread(w: World, k: nat)
    requires Safe(w) && k <= |w.handles|
    ensures Fresh(System([Begun(Parent(w, k)), Begun(Child(w, k))], w.count))
  {
    assert w.handles == w.handles[..k] + w.handles[k..];
    forall o: nat | o < |w.count|
      ensures Leak(Parent(w, k), o) >= 0 && Leak(Child(w, k), o) >= 0
      ensures w.count[o] == Sum(Share(o), [Begun(Parent(w, k)), Begun(Child(w, k))])
    {
      assert Leak(w, o) >= 0;
      assert Refs(w.handles, o) == Refs(w.handles[..k], o) + Refs(w.handles[k..], o);
      SumPush(Share(o), [Begun(Parent(w, k))], Begun(Child(w, k)));
      assert [Begun(Parent(w, k))] + [Begun(Child(w, k))] == [Begun(Parent(w, k)), Begun(Child(w, k))];
    }
  }
}
