/** No object is dropped while a handle that is not being released points at it. */
module HandleSafety {
  import opened Options
  import opened HandleModel
  import opened HandleLaws

  /** Every counted reference is accounted for, and nobody outside has given away more than it owned. */
  ghost predicate Safe(w: World) {
    && InRange(w)
    && (forall o {:trigger w.external[o]} :: 0 <= o < |w.external| ==> w.external[o] >= 0)
    && (forall o: nat {:trigger Leak(w, o)} :: o < |w.count| ==> Leak(w, o) >= 0)
  }

  /** The operation gives away an outside reference only if there is one. */
  predicate Honest(w: World, op: Op) {
    match op
    case RawRelease(h) => IsTo(w, h) && w.handles[h].obj < |w.external| && w.external[w.handles[h].obj] >= 1
    case OutsideRelease(o) => o < |w.external| && w.external[o] >= 1
    case Wrap(p) => p.Some? ==> p.value < |w.external| && w.external[p.value] >= 1
    case _ => true
  }

  /** An operation keeps the world safe exactly when it gives away only references that are owned. */
  lemma SafeIffHonest(w: World, op: Op)
    requires Safe(w) && Enabled(w, op)
    ensures Safe(Apply(w, op)) <==> Honest(w, op)
  {
    var v := Apply(w, op);
    Effect(w, op);
    InRangeKept(w, op);
    forall o: nat | o < |v.count|
      ensures Leak(v, o) >= 0
    {
      if o < |w.count| {
        LeakGrowsOnlyByOverwriting(w, op, o);
        assert Leak(w, o) >= 0;
      } else {
        NothingPointsBeyond(w, o);
      }
    }
    if op.RawRelease? {
      var o := w.handles[op.h].obj;
      assert v.external[o] == w.external[o] - 1;
    } else if op.OutsideRelease? {
      assert v.external[op.o] == w.external[op.o] - 1;
    } else if op.Wrap? && op.p.Some? {
      assert v.external[op.p.value] == w.external[op.p.value] - 1;
    }
  }

  /** Every handle, the one being released aside, points at an object that is still alive. */
  ghost predicate NothingDropped(w: World, released: Option<nat>) {
    forall h: nat {:trigger w.handles[h]} :: h < |w.handles| && w.handles[h].To? && released != Some(h) ==>
      w.handles[h].obj < |w.count| && w.count[w.handles[h].obj] >= 1
  }

  /** The handle whose reference the operation gives up, while the pointer is still in it. */
  function Released(op: Op): Option<nat> {
    match op
    case AssignNull(dst) => Some(dst)
    case AssignCopy(dst, _) => Some(dst)
    case Destroy(h) => Some(h)
    case _ => None
  }

  /** At every point of the program nothing has been dropped, and every `Release` is of a live object. */
  ghost predicate Throughout(w: World, c: Code, released: Option<nat>)
    decreases c
  {
    && NothingDropped(w, released)
    && (c.Then? ==>
          && (c.first.Release? ==> c.first.o < |w.count| && w.count[c.first.o] >= 1)
          && Throughout(Do(w, c.first), c.rest, released))
  }

  lemma PointedAtIsCounted(w: World, h: nat)
    requires Safe(w) && IsTo(w, h)
    ensures w.handles[h].obj < |w.count|
    ensures w.count[w.handles[h].obj] >= w.external[w.handles[h].obj] + Refs(w.handles, w.handles[h].obj)
    ensures Refs(w.handles, w.handles[h].obj) >= 1
  {
    assert Leak(w, w.handles[h].obj) >= 0;
    assert w.handles[h] in multiset(w.handles);
  }

  lemma SafeIsCounted(w: World, o: nat)
    requires Safe(w) && o < |w.count|
    ensures w.count[o] >= 0
  {
    assert Leak(w, o) >= 0;
  }

  lemma SafeDropsNothing(w: World)
    requires Safe(w)
    ensures NothingDropped(w, None)
  {
    forall h: nat {:trigger w.handles[h]} | h < |w.handles| && w.handles[h].To?
      ensures w.handles[h].obj < |w.count| && w.count[w.handles[h].obj] >= 1
    {
      PointedAtIsCounted(w, h);
    }
  }

  lemma TwoHandles(w: World, h: nat, d: nat)
    requires h < |w.handles| && d < |w.handles| && h != d && w.handles[h].To? && w.handles[d] == w.handles[h]
    ensures Refs(w.handles, w.handles[h].obj) >= 2
  {
    RefsUpdate(w.handles, d, Dead, w.handles[h].obj);
    assert w.handles[d := Dead][h] in multiset(w.handles[d := Dead]);
  }

  /** Releasing one handle's reference leaves alive whatever other handles point at. */
  lemma ReleaseSparesOthers(w: World, d: nat)
    requires Safe(w) && IsTo(w, d)
    ensures w.handles[d].obj < |w.count| && w.count[w.handles[d].obj] >= 1
    ensures NothingDropped(Do(w, Release(w.handles[d].obj)), Some(d))
  {
    PointedAtIsCounted(w, d);
    forall h: nat {:trigger w.handles[h]} | h < |w.handles| && w.handles[h].To? && h != d
      ensures w.handles[h].obj < |w.count|
      ensures Do(w, Release(w.handles[d].obj)).count[w.handles[h].obj] >= 1
    {
      PointedAtIsCounted(w, h);
      if w.handles[h] == w.handles[d] {
        TwoHandles(w, h, d);
      }
    }
  }

  lemma MoreIsDropFree(w: World, v: World, released: Option<nat>)
    requires NothingDropped(w, released) && v.handles == w.handles && |v.count| == |w.count|
    requires forall o :: 0 <= o < |w.count| ==> w.count[o] <= v.count[o]
    ensures NothingDropped(v, released)
  {
  }

  /** A handle filled with a live object's pointer, or emptied, drops nothing. */
  lemma StoreIsDropFree(w: World, h: nat, slot: Slot, released: Option<nat>)
    requires NothingDropped(w, released) && h < |w.handles|
    requires slot.To? ==> slot.obj < |w.count| && w.count[slot.obj] >= 1
    ensures NothingDropped(Do(w, Store(h, slot)), released)
  {
  }

  /** From a safe world, at every intermediate point of every operation that gives away only what is owned, an object is
      alive if any handle other than the one being released points at it; and only live objects are released. */
  lemma NoEarlyDrop(w: World, op: Op)
    requires Safe(w) && Enabled(w, op) && Honest(w, op)
    ensures Throughout(w, Program(w, op), Released(op))
    ensures NothingDropped(Apply(w, op), None)
  {
    SafeDropsNothing(w);
    SafeIffHonest(w, op);
    SafeDropsNothing(Apply(w, op));
    match op {
      case ConstructCopy(src) => ThroughoutCopy(w, src);
      case AssignNull(dst) => ThroughoutRelease(w, dst, Empty);
      case Destroy(h) => ThroughoutRelease(w, h, Dead);
      case AssignCopy(dst, src) => ThroughoutAssignCopy(w, dst, src);
      case RawRelease(h) => ThroughoutOwnedRelease(w, w.handles[h].obj);
      case OutsideRelease(o) => ThroughoutOwnedRelease(w, o);
      case Wrap(p) => ThroughoutWrap(w, p);
      case ConstructMove(src) => ThroughoutMove(w, op);
      case AssignMove(dst, src) => ThroughoutMove(w, op);
      case _ => ThroughoutGrowth(w, op);
    }
  }

  lemma ThroughoutMove(w: World, op: Op)
    requires Safe(w) && Enabled(w, op) && (op.ConstructMove? || op.AssignMove?)
    ensures Throughout(w, Program(w, op), None)
  {
    SafeDropsNothing(w);
    var c := Program(w, op);
    var v := Do(w, c.first);
    assert NothingDropped(v, None);
    StoreIsDropFree(v, op.src, Empty, None);
    assert Throughout(v, c.rest, None);
  }

  lemma ThroughoutGrowth(w: World, op: Op)
    requires Safe(w) && Enabled(w, op) && (op.NewObject? || op.Acquire? || op.RawAddRef? || op.ConstructNull?)
    ensures Throughout(w, Program(w, op), None)
  {
    SafeDropsNothing(w);
    var c := Program(w, op);
    var v := Do(w, c.first);
    assert NothingDropped(v, None);
    if c.rest.Then? {
      MoreIsDropFree(v, Do(v, c.rest.first), None);
      assert Throughout(v, c.rest, None);
    }
  }

  lemma ThroughoutCopy(w: World, src: nat)
    requires Safe(w) && IsLive(w, src)
    ensures Throughout(w, Program(w, ConstructCopy(src)), None)
  {
    SafeDropsNothing(w);
    var v := Do(w, NewHandle(w.handles[src]));
    assert NothingDropped(v, None);
    if w.handles[src].To? {
      MoreIsDropFree(v, Do(v, AddRef(w.handles[src].obj)), None);
    }
  }

  lemma ThroughoutRelease(w: World, h: nat, slot: Slot)
    requires Safe(w) && IsLive(w, h) && !slot.To?
    ensures var store := Then(Store(h, slot), End);
            Throughout(w, if w.handles[h].To? then Then(Release(w.handles[h].obj), store) else store, Some(h))
  {
    SafeDropsNothing(w);
    if w.handles[h].To? {
      ReleaseSparesOthers(w, h);
      var v := Do(w, Release(w.handles[h].obj));
      StoreIsDropFree(v, h, slot, Some(h));
      assert Throughout(v, Then(Store(h, slot), End), Some(h));
    } else {
      StoreIsDropFree(w, h, slot, Some(h));
    }
  }

  /** After the reference of the source has been counted, the world is safe again. */
  lemma CountedIsSafe(w: World, o: nat)
    requires Safe(w) && o < |w.count|
    ensures Safe(Do(w, AddRef(o)))
  {
    var v := Do(w, AddRef(o));
    forall k: nat | k < |v.count|
      ensures Leak(v, k) >= 0
    {
      assert Leak(w, k) >= 0;
    }
  }

  lemma ThroughoutAssignCopy(w: World, dst: nat, src: nat)
    requires Safe(w) && IsLive(w, dst) && IsLive(w, src)
    ensures Throughout(w, Program(w, AssignCopy(dst, src)), Some(dst))
  {
    SafeDropsNothing(w);
    var d, s := w.handles[dst], w.handles[src];
    var store := Then(Store(dst, s), End);
    var v := if s.To? then Do(w, AddRef(s.obj)) else w;
    if s.To? {
      CountedIsSafe(w, s.obj);
      PointedAtIsCounted(w, src);
    }
    SafeDropsNothing(v);
    if d.To? {
      ReleaseSparesOthers(v, dst);
      var u := Do(v, Release(d.obj));
      if s.To? {
        assert v.count[s.obj] >= 2;
        assert u.count[s.obj] >= 1;
      }
      StoreIsDropFree(u, dst, s, Some(dst));
      assert Throughout(u, store, Some(dst));
      assert Throughout(v, Then(Release(d.obj), store), Some(dst));
    } else {
      StoreIsDropFree(v, dst, s, Some(dst));
      assert Throughout(v, store, Some(dst));
    }
  }

  /** Giving back a reference that somebody outside owns leaves the handles' references alone. */
  lemma ThroughoutOwnedRelease(w: World, o: nat)
    requires Safe(w) && o < |w.count| && w.external[o] >= 1
    ensures Throughout(w, Then(Release(o), Then(Spend(o), End)), None)
  {
    SafeDropsNothing(w);
    assert Leak(w, o) >= 0;
    var v := Do(w, Release(o));
    forall h: nat {:trigger v.handles[h]} | h < |v.handles| && v.handles[h].To?
      ensures v.handles[h].obj < |v.count| && v.count[v.handles[h].obj] >= 1
    {
      PointedAtIsCounted(w, h);
    }
    MoreIsDropFree(v, Do(v, Spend(o)), None);
    assert Throughout(v, Then(Spend(o), End), None);
  }

  lemma ThroughoutWrap(w: World, p: Option<nat>)
    requires Safe(w) && Enabled(w, Wrap(p)) && Honest(w, Wrap(p))
    ensures Throughout(w, Program(w, Wrap(p)), None)
  {
    SafeDropsNothing(w);
    var n, c := |w.handles|, Program(w, Wrap(p));
    var v := Do(w, NewHandle(Empty));
    assert NothingDropped(v, None);
    if p.Some? {
      assert Leak(w, p.value) >= 0;
      assert w.count[p.value] >= 1;
    }
    StoreIsDropFree(v, n, SlotOf(p), None);
    var u := Do(v, Store(n, SlotOf(p)));
    if p.Some? {
      MoreIsDropFree(u, Do(u, Spend(p.value)), None);
      assert Throughout(u, c.rest.rest, None);
    }
    assert Throughout(v, c.rest, None);
  }

  // ---- the handle being released ----

  /** The world just before the last memory operation of a program. */
  function BeforeLast(w: World, c: Code): World
    decreases c
  {
    if c.End? || c.rest.End? then w else BeforeLast(Do(w, c.first), c.rest)
  }

  /** The pointer of an assignment's target dangles for a moment, between the release and the store, exactly when the
      object had no other reference and the handle assigned from does not point at it too. */
  lemma TargetDanglesIffLastReference(w: World, dst: nat, src: nat)
    requires Safe(w) && IsTo(w, dst) && IsLive(w, src)
    ensures var o, mid := w.handles[dst].obj, BeforeLast(w, Program(w, AssignCopy(dst, src)));
            && mid.handles == w.handles && o < |w.count| == |mid.count|
            && (mid.count[o] == 0 <==> w.count[o] == 1 && w.handles[src] != w.handles[dst])
  {
    var d, s := w.handles[dst], w.handles[src];
    PointedAtIsCounted(w, dst);
    var c := Program(w, AssignCopy(dst, src));
    if s.To? {
      PointedAtIsCounted(w, src);
      var v := Do(w, AddRef(s.obj));
      assert c.first == AddRef(s.obj) && c.rest.first == Release(d.obj) && c.rest.rest.rest.End?;
      assert BeforeLast(w, c) == BeforeLast(v, c.rest) == BeforeLast(Do(v, Release(d.obj)), c.rest.rest);
    } else {
      assert c.first == Release(d.obj) && c.rest.rest.End?;
      assert BeforeLast(w, c) == BeforeLast(Do(w, Release(d.obj)), c.rest);
    }
  }

  /** The operation gives up the last reference to an object while the pointer is still in the handle. */
  predicate LastRef(w: World, op: Op)
    requires InRange(w) && Enabled(w, op)
  {
    match op
    case AssignNull(dst) => IsTo(w, dst) && w.count[w.handles[dst].obj] == 1
    case Destroy(h) => IsTo(w, h) && w.count[w.handles[h].obj] == 1
    case AssignCopy(dst, src) =>
      IsTo(w, dst) && w.count[w.handles[dst].obj] == 1 && w.handles[src] != w.handles[dst]
    case _ => false
  }

  lemma ReleaseThenStore(w: World, d: nat, slot: Slot)
    requires Safe(w) && IsTo(w, d)
    requires slot.To? ==> slot.obj < |w.count| && w.count[slot.obj] >= 1 + if slot == w.handles[d] then 1 else 0
    ensures w.handles[d].obj < |w.count|
    ensures Throughout(w, Then(Release(w.handles[d].obj), Then(Store(d, slot), End)), None) <==> w.count[w.handles[d].obj] != 1
  {
    var o := w.handles[d].obj;
    var v := Do(w, Release(o));
    SafeDropsNothing(w);
    PointedAtIsCounted(w, d);
    ReleaseSparesOthers(w, d);
    assert v.handles[d] == To(o) && v.count[o] == w.count[o] - 1;
    if w.count[o] != 1 {
      assert NothingDropped(v, None);
      StoreIsDropFree(v, d, slot, None);
      assert Throughout(v, Then(Store(d, slot), End), None);
    } else {
      assert !NothingDropped(v, None);
    }
  }

  lemma JustStore(w: World, d: nat, slot: Slot)
    requires Safe(w) && d < |w.handles| && (slot.To? ==> slot.obj < |w.count| && w.count[slot.obj] >= 1)
    ensures Throughout(w, Then(Store(d, slot), End), None)
  {
    SafeDropsNothing(w);
    StoreIsDropFree(w, d, slot, None);
  }

  lemma AssignCopyDrops(w: World, dst: nat, src: nat)
    requires Safe(w) && IsLive(w, dst) && IsLive(w, src)
    ensures Throughout(w, Program(w, AssignCopy(dst, src)), None) <==> !LastRef(w, AssignCopy(dst, src))
  {
    var d, s := w.handles[dst], w.handles[src];
    SafeDropsNothing(w);
    if s.To? {
      PointedAtIsCounted(w, src);
      CountedIsSafe(w, s.obj);
    }
    var v := if s.To? then Do(w, AddRef(s.obj)) else w;
    if d.To? {
      PointedAtIsCounted(w, dst);
      ReleaseThenStore(v, dst, s);
    } else {
      JustStore(v, dst, s);
    }
  }

  /** No handle at all, the one being released included, ever points at a dropped object while an operation is under way,
      except when a null assignment, a destruction, or a copy assignment from a handle to something else gives up the last
      reference: then the pointer dangles between the release and the store. */
  lemma DanglesIffLastReference(w: World, op: Op)
    requires Safe(w) && Enabled(w, op) && Honest(w, op)
    ensures Throughout(w, Program(w, op), None) <==> !LastRef(w, op)
  {
    match op {
      case AssignNull(dst) => if IsTo(w, dst) { ReleaseThenStore(w, dst, Empty); } else { JustStore(w, dst, Empty); }
      case Destroy(h) => if IsTo(w, h) { ReleaseThenStore(w, h, Dead); } else { JustStore(w, h, Dead); }
      case AssignCopy(dst, src) => AssignCopyDrops(w, dst, src);
      case _ => NoEarlyDrop(w, op);
    }
  }

  /** Copy-assigning a handle to itself changes nothing at all. */
  lemma SelfCopyAssignmentIsIdentity(w: World, h: nat)
    requires InRange(w) && IsLive(w, h)
    ensures Apply(w, AssignCopy(h, h)) == w
  {
    Effect(w, AssignCopy(h, h));
  }

  /** Move-assigning a handle to itself empties it and strands the reference it had. */
  lemma SelfMoveAssignmentStrands(w: World, h: nat)
    requires InRange(w) && IsTo(w, h)
    ensures var v, o := Apply(w, AssignMove(h, h)), w.handles[h].obj;
            && v == w.(handles := w.handles[h := Empty])
            && InRange(v) && o < |v.count| && Leak(v, o) == Leak(w, o) + 1
  {
    Effect(w, AssignMove(h, h));
    LeakGrowsOnlyByOverwriting(w, AssignMove(h, h), w.handles[h].obj);
  }

  /** Honesty is needed.  With the handle's own destruction, `handle->Release()` takes two references away for one handle,
      whatever the count; and if the count is one, which is never honest, it drops the object under the handle. */
  lemma ReleaseThroughAHandle(w: World, h: nat)
    requires Safe(w) && IsTo(w, h)
    ensures var o, v := w.handles[h].obj, Apply(w, RawRelease(h));
            && o < |w.count| && v.handles == w.handles && v.count == w.count[o := w.count[o] - 1]
            && (NothingDropped(v, None) <==> w.count[o] != 1)
            && (Honest(w, RawRelease(h)) ==> w.count[o] != 1)
            && Enabled(v, Destroy(h)) && Apply(v, Destroy(h)).count == w.count[o := w.count[o] - 2]
  {
    var o, v := w.handles[h].obj, Apply(w, RawRelease(h));
    PointedAtIsCounted(w, h);
    SafeDropsNothing(w);
    Effect(w, RawRelease(h));
    Effect(v, Destroy(h));
    assert v.handles[h].To?;
  }

  // ---- whole runs ----

  /** Every operation of the run gives away only references that are owned. */
  predicate HonestRun(w: World, ops: seq<Op>)
    decreases |ops|
  {
    ops == [] ||
    (HonestRun(w, ops[..|ops| - 1]) &&
     (Enabled(Run(w, ops[..|ops| - 1]), ops[|ops| - 1]) ==> Honest(Run(w, ops[..|ops| - 1]), ops[|ops| - 1])))
  }

  lemma {:induction false} HonestRunIsSafe(ops: seq<Op>)
    requires HonestRun(START, ops)
    ensures Safe(Run(START, ops))
    decreases |ops|
  {
    if ops != [] {
      HonestRunIsSafe(ops[..|ops| - 1]);
      var w, op := Run(START, ops[..|ops| - 1]), ops[|ops| - 1];
      if Enabled(w, op) {
        SafeIffHonest(w, op);
      }
    }
  }

  /** In every honest run, move assignments over live handles included, no handle ever points at a dropped object, at any
      point of the operation that comes next, the handle that operation releases aside. */
  lemma {:induction false} NoHandleOutlivesItsObject(ops: seq<Op>, op: Op)
    requires HonestRun(START, ops) && Enabled(Run(START, ops), op) && Honest(Run(START, ops), op)
    ensures var w := Run(START, ops);
            && (forall h {:trigger w.handles[h]} :: 0 <= h < |w.handles| && w.handles[h].To? ==>
                  w.handles[h].obj < |w.count| && w.count[w.handles[h].obj] >= 1)
            && Throughout(w, Program(w, op), Released(op))
            && NothingDropped(Apply(w, op), None)
  {
    HonestRunIsSafe(ops);
    SafeDropsNothing(Run(START, ops));
    NoEarlyDrop(Run(START, ops), op);
  }
}
