/** Laws of the handles over arbitrary sequences of operations, aliased and self assignments included. */
module HandleLaws {
  import opened HandleModel

  // ---- closed forms ----

  /** What a whole operation does, its steps taken together. */
  lemma Effect(w: World, op: Op)
    requires Enabled(w, op)
    ensures var v, n := Apply(w, op), |w.handles|;
            match op
            case NewObject => v == World(w.handles, w.count + [1], w.external + [1])
            case Acquire(o) => v == World(w.handles, Bump(w.count, o, 1), Bump(w.external, o, 1))
            case OutsideRelease(o) => v == World(w.handles, Bump(w.count, o, -1), Bump(w.external, o, -1))
            case RawAddRef(h) => v == World(w.handles, Bump(w.count, w.handles[h].obj, 1), Bump(w.external, w.handles[h].obj, 1))
            case RawRelease(h) => v == World(w.handles, Bump(w.count, w.handles[h].obj, -1), Bump(w.external, w.handles[h].obj, -1))
            case ConstructNull => v == w.(handles := w.handles + [Empty])
            case ConstructCopy(src) =>
              v == World(w.handles + [w.handles[src]], Credit(w.count, w.handles[src], 1), w.external)
            case ConstructMove(src) => v == w.(handles := (w.handles + [w.handles[src]])[src := Empty])
            case AssignNull(dst) => v == World(w.handles[dst := Empty], Credit(w.count, w.handles[dst], -1), w.external)
            case AssignCopy(dst, src) =>
              v == World(w.handles[dst := w.handles[src]],
                         Credit(Credit(w.count, w.handles[src], 1), w.handles[dst], -1), w.external)
            case AssignMove(dst, src) => v == w.(handles := w.handles[dst := w.handles[src]][src := Empty])
            case Destroy(h) => v == World(w.handles[h := Dead], Credit(w.count, w.handles[h], -1), w.external)
            case Wrap(p) =>
              v == World(w.handles + [SlotOf(p)], w.count, if p.Some? then Bump(w.external, p.value, -1) else w.external)
  {
    Unroll(w, Program(w, op));
    if op.Wrap? {
      assert (w.handles + [Empty])[|w.handles| := SlotOf(op.p)] == w.handles + [SlotOf(op.p)];
    }
  }

  lemma Unroll(w: World, c: Code)
    ensures Exec(w, c) ==
            if c.End? then w
            else if c.rest.End? then Do(w, c.first)
            else if c.rest.rest.End? then Do(Do(w, c.first), c.rest.first)
            else Exec(Do(Do(Do(w, c.first), c.rest.first), c.rest.rest.first), c.rest.rest.rest)
  {
    if c.Then? && c.rest.Then? {
      assert Exec(Do(w, c.first), c.rest) == Exec(Do(Do(w, c.first), c.rest.first), c.rest.rest);
    }
  }

  function Credit(s: seq<int>, slot: Slot, d: int): seq<int> {
    if slot.To? then Bump(s, slot.obj, d) else s
  }

  // ---- the accounting law ----

  ghost predicate InRange(w: World) {
    && |w.external| == |w.count|
    && (forall h {:trigger w.handles[h]} :: 0 <= h < |w.handles| && w.handles[h].To? ==> w.handles[h].obj < |w.count|)
  }

  lemma InRangeKept(w: World, op: Op)
    requires InRange(w) && Enabled(w, op)
    ensures InRange(Apply(w, op)) && |Apply(w, op).count| >= |w.count|
  {
    Effect(w, op);
  }

  /** References counted that nobody owns any more. */
  function Leak(w: World, o: nat): int
    requires o < |w.count| && o < |w.external|
  {
    w.count[o] - w.external[o] - Refs(w.handles, o)
  }

  /** The operation is a move assignment onto a handle that points at this object. */
  function Overwrite(w: World, op: Op, o: nat): nat {
    if Enabled(w, op) && op.AssignMove? && w.handles[op.dst] == To(o) then 1 else 0
  }

  lemma RefsUpdate(handles: seq<Slot>, h: nat, slot: Slot, o: nat)
    requires h < |handles|
    ensures Refs(handles[h := slot], o) + (if handles[h] == To(o) then 1 else 0)
         == Refs(handles, o) + (if slot == To(o) then 1 else 0)
  {
  }

  lemma RefsPush(handles: seq<Slot>, slot: Slot, o: nat)
    ensures Refs(handles + [slot], o) == Refs(handles, o) + (if slot == To(o) then 1 else 0)
  {
  }

  lemma MoveLeaks(w: World, op: Op, o: nat)
    requires InRange(w) && Enabled(w, op) && o < |w.count| && (op.ConstructMove? || op.AssignMove?)
    ensures InRange(Apply(w, op)) && o < |Apply(w, op).count|
    ensures Leak(Apply(w, op), o) == Leak(w, o) + Overwrite(w, op, o)
  {
    InRangeKept(w, op);
    Effect(w, op);
    if op.ConstructMove? {
      RefsPush(w.handles, w.handles[op.src], o);
      RefsUpdate(w.handles + [w.handles[op.src]], op.src, Empty, o);
    } else {
      RefsUpdate(w.handles, op.dst, w.handles[op.src], o);
      RefsUpdate(w.handles[op.dst := w.handles[op.src]], op.src, Empty, o);
    }
  }

  lemma CopyLeaks(w: World, op: Op, o: nat)
    requires InRange(w) && Enabled(w, op) && o < |w.count| && (op.ConstructCopy? || op.AssignCopy?)
    ensures InRange(Apply(w, op)) && o < |Apply(w, op).count|
    ensures Leak(Apply(w, op), o) == Leak(w, o) + Overwrite(w, op, o)
  {
    InRangeKept(w, op);
    Effect(w, op);
    if op.ConstructCopy? {
      RefsPush(w.handles, w.handles[op.src], o);
    } else {
      RefsUpdate(w.handles, op.dst, w.handles[op.src], o);
    }
  }

  lemma OneHandleLeaks(w: World, op: Op, o: nat)
    requires InRange(w) && Enabled(w, op) && o < |w.count|
    requires op.ConstructNull? || op.AssignNull? || op.Destroy? || op.Wrap?
    ensures InRange(Apply(w, op)) && o < |Apply(w, op).count|
    ensures Leak(Apply(w, op), o) == Leak(w, o) + Overwrite(w, op, o)
  {
    InRangeKept(w, op);
    Effect(w, op);
    match op {
      case ConstructNull => RefsPush(w.handles, Empty, o);
      case AssignNull(dst) => RefsUpdate(w.handles, dst, Empty, o);
      case Destroy(h) => RefsUpdate(w.handles, h, Dead, o);
      case Wrap(p) => RefsPush(w.handles, SlotOf(p), o);
    }
  }

  lemma NoHandleLeaks(w: World, op: Op, o: nat)
    requires InRange(w) && Enabled(w, op) && o < |w.count|
    requires op.NewObject? || op.Acquire? || op.OutsideRelease? || op.RawAddRef? || op.RawRelease?
    ensures InRange(Apply(w, op)) && o < |Apply(w, op).count|
    ensures Leak(Apply(w, op), o) == Leak(w, o) + Overwrite(w, op, o)
  {
    InRangeKept(w, op);
    Effect(w, op);
  }

  /** The leak of an object grows by one when a move assignment overwrites a handle to it, the moved handle itself
      included, and no operation changes it otherwise. */
  lemma LeakGrowsOnlyByOverwriting(w: World, op: Op, o: nat)
    requires InRange(w) && Enabled(w, op) && o < |w.count|
    ensures InRange(Apply(w, op)) && o < |Apply(w, op).count|
    ensures Leak(Apply(w, op), o) == Leak(w, o) + Overwrite(w, op, o)
  {
    if op.ConstructCopy? || op.AssignCopy? {
      CopyLeaks(w, op, o);
    } else if op.ConstructMove? || op.AssignMove? {
      MoveLeaks(w, op, o);
    } else if op.ConstructNull? || op.AssignNull? || op.Destroy? || op.Wrap? {
      OneHandleLeaks(w, op, o);
    } else {
      NoHandleLeaks(w, op, o);
    }
  }

  /** How often a sequence of operations overwrites a handle to an object by a move assignment. */
  function Overwrites(w: World, ops: seq<Op>, o: nat): nat
    decreases |ops|
  {
    if ops == [] then 0
    else
      var front, op := ops[..|ops| - 1], ops[|ops| - 1];
      Overwrites(w, front, o) + Overwrite(Run(w, front), op, o)
  }

  lemma {:induction false} InRangeRun(w: World, ops: seq<Op>)
    requires InRange(w)
    ensures InRange(Run(w, ops)) && |Run(w, ops).count| >= |w.count|
    decreases |ops|
  {
    if ops != [] {
      InRangeRun(w, ops[..|ops| - 1]);
      var before := Run(w, ops[..|ops| - 1]);
      if Enabled(before, ops[|ops| - 1]) {
        InRangeKept(before, ops[|ops| - 1]);
      }
    }
  }

  /** The accounting law: over every sequence of operations from the empty world, the count of an object is the number of
      references owned outside, plus the number of handles that point at it, plus the number of times a move assignment
      overwrote such a handle. */
  lemma {:induction false} Accounting(ops: seq<Op>, o: nat)
    ensures InRange(Run(START, ops))
    ensures var w := Run(START, ops);
            if o < |w.count| then w.count[o] == w.external[o] + Refs(w.handles, o) + Overwrites(START, ops, o)
            else Overwrites(START, ops, o) == 0
    decreases |ops|
  {
    InRangeRun(START, ops);
    if ops != [] {
      var front, op := ops[..|ops| - 1], ops[|ops| - 1];
      var w := Run(START, front);
      Accounting(front, o);
      if Enabled(w, op) {
        if o < |w.count| {
          LeakGrowsOnlyByOverwriting(w, op, o);
        } else {
          NothingPointsBeyond(w, o);
          Effect(w, op);
        }
      }
    }
  }

  lemma NothingPointsBeyond(w: World, o: nat)
    requires InRange(w) && o >= |w.count|
    ensures Refs(w.handles, o) == 0
  {
    assert forall h {:trigger w.handles[h]} :: 0 <= h < |w.handles| ==> w.handles[h] != To(o);
    assert To(o) !in w.handles;
  }

  // ---- destroying everything ----

  /** Destroy handles 0 to n - 1; one that is dead already is left alone. */
  function DestroyFirst(n: nat): seq<Op> {
    if n == 0 then [] else DestroyFirst(n - 1) + [Destroy(n - 1)]
  }

  lemma {:induction false} RunThenRun(w: World, first: seq<Op>, second: seq<Op>)
    ensures Run(w, first + second) == Run(Run(w, first), second)
    ensures forall o: nat :: Overwrites(w, first + second, o) == Overwrites(w, first, o) + Overwrites(Run(w, first), second, o)
    decreases |second|
  {
    if second == [] {
      assert first + second == first;
    } else {
      var all := first + second;
      assert all[..|all| - 1] == first + second[..|second| - 1];
      RunThenRun(w, first, second[..|second| - 1]);
    }
  }

  lemma {:induction false} DestroyFirstDoes(w: World, n: nat)
    requires n <= |w.handles|
    ensures var v := Run(w, DestroyFirst(n));
            && |v.handles| == |w.handles| && v.external == w.external && |v.count| == |w.count|
            && (forall h {:trigger v.handles[h]} :: 0 <= h < n ==> v.handles[h].Dead?)
    ensures forall o: nat :: Overwrites(w, DestroyFirst(n), o) == 0
  {
    if n > 0 {
      DestroyFirstDoes(w, n - 1);
      var ops := DestroyFirst(n);
      assert ops[..|ops| - 1] == DestroyFirst(n - 1) && ops[|ops| - 1] == Destroy(n - 1);
      var v := Run(w, DestroyFirst(n - 1));
      if Enabled(v, Destroy(n - 1)) {
        Effect(v, Destroy(n - 1));
      }
    }
  }

  /** All operations of a run, and then the destruction of every handle that is left. */
  function ThenDestroyAll(ops: seq<Op>): seq<Op> {
    ops + DestroyFirst(|Run(START, ops).handles|)
  }

  /** After a run and the destruction of all its handles, the count of every object exceeds its outside references by
      exactly the number of overwriting moves: it balances if and only if there were none. */
  lemma BalanceAfterDestroyAll(ops: seq<Op>, o: nat)
    requires o < |Run(START, ops).count|
    ensures var w, v := Run(START, ops), Run(START, ThenDestroyAll(ops));
            && (forall h {:trigger v.handles[h]} :: 0 <= h < |v.handles| ==> v.handles[h].Dead?)
            && |v.count| == |w.count| && |v.external| == |w.count| && v.external == w.external
            && v.count[o] == v.external[o] + Overwrites(START, ops, o)
            && (v.count[o] == w.external[o] <==> Overwrites(START, ops, o) == 0)
  {
    var w := Run(START, ops);
    var last := DestroyFirst(|w.handles|);
    RunThenRun(START, ops, last);
    DestroyFirstDoes(w, |w.handles|);
    Accounting(ops + last, o);
    var v := Run(START, ops + last);
    assert Refs(v.handles, o) == 0 by {
      assert To(o) !in v.handles;
    }
  }

  /** If the operation is a move assignment, its target is an empty handle. */
  predicate MoveIntoEmpty(w: World, op: Op) {
    op.AssignMove? && Enabled(w, op) ==> w.handles[op.dst].Empty?
  }

  /** Every move assignment of the run has an empty handle as its target. */
  predicate MovesIntoEmpty(w: World, ops: seq<Op>)
    decreases |ops|
  {
    ops == [] || (MovesIntoEmpty(w, ops[..|ops| - 1]) && MoveIntoEmpty(Run(w, ops[..|ops| - 1]), ops[|ops| - 1]))
  }

  ghost predicate NeverOverwrites(w: World, ops: seq<Op>) {
    forall o: nat :: Overwrites(w, ops, o) == 0
  }

  lemma MoveIntoEmptyIffNoOverwrite(w: World, op: Op)
    ensures MoveIntoEmpty(w, op) <==> forall o: nat :: Overwrite(w, op, o) == 0
  {
    if !MoveIntoEmpty(w, op) {
      assert Overwrite(w, op, w.handles[op.dst].obj) == 1;
    }
  }

  /** That discipline is exactly what keeps every object in balance. */
  lemma {:induction false} MovesIntoEmptyIffNoOverwrite(w: World, ops: seq<Op>)
    ensures MovesIntoEmpty(w, ops) <==> forall o: nat :: Overwrites(w, ops, o) == 0
    decreases |ops|
  {
    if ops != [] {
      var front, op := ops[..|ops| - 1], ops[|ops| - 1];
      MovesIntoEmptyIffNoOverwrite(w, front);
      MoveIntoEmptyIffNoOverwrite(Run(w, front), op);
      if MovesIntoEmpty(w, ops) {
        forall o: nat
          ensures Overwrites(w, ops, o) == 0
        {
          assert Overwrites(w, front, o) == 0 && Overwrite(Run(w, front), op, o) == 0;
        }
      } else if NeverOverwrites(w, front) {
        var o: nat :| Overwrite(Run(w, front), op, o) != 0;
        assert Overwrites(w, ops, o) != 0;
      } else {
        var o: nat :| Overwrites(w, front, o) != 0;
        assert Overwrites(w, ops, o) != 0;
      }
    }
  }
}
