/** The handle class at work: one method per member, each making its memory operations in the order of its statements. */
module ComPtr {
  import opened Options
  import opened HandleModel
  import opened HandleLaws
  import opened HandleSafety

  /** The old handles are as they were, and all later ones are gone. */
  ghost predicate GrownByDead(h0: seq<Slot>, h: seq<Slot>) {
    && h0 <= h
    && forall k {:trigger h[k]} :: |h0| <= k < |h| ==> h[k].Dead?
  }

  class ComHandles {
    var handles: seq<Slot>
    var count: seq<int>
    ghost var external: seq<int>
    ghost var log: seq<Op>

    ghost function View(): World
      reads this
    {
      World(handles, count, external)
    }

    /** The table is what its logged operations made of the empty one. */
    ghost predicate Valid()
      reads this
    {
      View() == Run(START, log)
    }

    /** None of the operations so far gave away what nobody outside owned. */
    ghost predicate IsHonest()
      reads this
    {
      HonestRun(START, log)
    }

    ghost predicate Healthy()
      reads this
    {
      Valid() && IsHonest()
    }

    /** What the handle points at, if anything, is alive; on an honest table it always is. */
    ghost predicate MayTouch(h: nat)
      reads this
    {
      IsHonest() || (IsTo(View(), h) ==> handles[h].obj < |count| && count[handles[h].obj] >= 1)
    }

    constructor ()
      ensures Valid() && IsHonest() && View() == START && log == []
    {
      handles, count, external, log := [], [], [], [];
    }

    /** The accounting law for a table in use, honest or not; an honest one is safe. */
    lemma Law(o: nat)
      requires Valid()
      ensures InRange(View()) && (IsHonest() ==> Safe(View()))
      ensures o < |count| ==> o < |external| && count[o] == external[o] + Refs(handles, o) + Overwrites(START, log, o)
      ensures o >= |count| ==> Overwrites(START, log, o) == 0
    {
      if IsHonest() {
        HonestRunIsSafe(log);
      }
      Accounting(log, o);
    }

    /** How often a move assignment on this table has overwritten a handle to the object. */
    ghost function Overwritten(o: nat): nat
      reads this
    {
      Overwrites(START, log, o)
    }

    lemma LawForAll()
      requires Valid()
      ensures InRange(View())
      ensures forall o: nat {:trigger Overwritten(o)} ::
                Overwritten(o) == if o < |count| then count[o] - external[o] - Refs(handles, o) else 0
    {
      HandlesInRange();
      forall o: nat
        ensures Overwritten(o) == if o < |count| then count[o] - external[o] - Refs(handles, o) else 0
      {
        Law(o);
      }
    }

    lemma HandlesInRange()
      requires Valid()
      ensures InRange(View())
    {
      InRangeRun(START, log);
    }

    lemma IsAlive(h: nat)
      requires Valid() && MayTouch(h) && IsTo(View(), h)
      ensures handles[h].obj < |count| && count[handles[h].obj] >= 1
    {
      if IsHonest() {
        HonestRunIsSafe(log);
        PointedAtIsCounted(View(), h);
      }
    }

    ghost method Record(op: Op, before: World)
      requires before == Run(START, log) && Enabled(before, op) && View() == Apply(before, op)
      modifies this`log
      ensures Valid() && log == old(log) + [op]
      ensures IsHonest() <==> old(IsHonest()) && Honest(before, op)
    {
      log := log + [op];
      assert log[..|log| - 1] == old(log);
    }

    // ---- the COM runtime's side ----

    method AddRef(o: nat)
      requires o < |count| && count[o] >= 1
      modifies this`count
      ensures count == Bump(old(count), o, 1)
    {
      count := count[o := count[o] + 1];
    }

    /** Only a live object may be released. */
    method Release(o: nat)
      requires o < |count| && count[o] >= 1
      modifies this`count
      ensures count == Bump(old(count), o, -1)
    {
      count := count[o := count[o] - 1];
    }

    method NewObject() returns (o: nat)
      requires Valid()
      modifies this
      ensures Valid() && log == old(log) + [Op.NewObject]
      ensures IsHonest() <==> old(IsHonest())
      ensures o == |old(count)| && handles == old(handles) && count == old(count) + [1] && external == old(external) + [1]
    {
      ghost var before := View();
      HandlesInRange();
      o := |count|;
      count := count + [1];
      external := external + [1];
      Effect(before, Op.NewObject);
      Record(Op.NewObject, before);
    }

    /** A COM call hands out a raw pointer that the receiver owns, or the server keeps a reference for itself. */
    method Acquire(o: nat)
      requires Valid() && o < |count|
      modifies this
      ensures Valid() && log == old(log) + [Op.Acquire(o)]
      ensures IsHonest() <==> old(IsHonest())
      ensures handles == old(handles) && count == Bump(old(count), o, 1) && external == Bump(old(external), o, 1)
    {
      ghost var before := View();
      HandlesInRange();
      count := count[o := count[o] + 1];
      external := external[o := external[o] + 1];
      Effect(before, Op.Acquire(o));
      Record(Op.Acquire(o), before);
    }

    /** Code outside gives back a reference of its own. */
    method OutsideRelease(o: nat)
      requires Valid() && o < |count| && count[o] >= 1
      modifies this
      ensures Valid() && log == old(log) + [Op.OutsideRelease(o)]
      ensures IsHonest() <==> old(IsHonest()) && old(Honest(View(), Op.OutsideRelease(o)))
      ensures handles == old(handles) && count == Bump(old(count), o, -1) && external == Bump(old(external), o, -1)
    {
      ghost var before := View();
      HandlesInRange();
      Release(o);
      external := external[o := external[o] - 1];
      Effect(before, Op.OutsideRelease(o));
      Record(Op.OutsideRelease(o), before);
    }

    /** `handle->AddRef()`: the caller owns one more reference. */
    method RawAddRef(h: nat)
      requires Valid() && IsTo(View(), h) && MayTouch(h)
      modifies this
      ensures Valid() && log == old(log) + [Op.RawAddRef(h)]
      ensures IsHonest() <==> old(IsHonest())
      ensures var o := old(handles)[h].obj;
              handles == old(handles) && count == Bump(old(count), o, 1) && external == Bump(old(external), o, 1)
    {
      ghost var before := View();
      HandlesInRange();
      IsAlive(h);
      var o := handles[h].obj;
      AddRef(o);
      external := external[o := external[o] + 1];
      Effect(before, Op.RawAddRef(h));
      Record(Op.RawAddRef(h), before);
    }

    /** `handle->Release()`: a reference owned outside is given up, the caller's own if he has one. */
    method RawRelease(h: nat)
      requires Valid() && IsTo(View(), h) && MayTouch(h)
      modifies this
      ensures Valid() && log == old(log) + [Op.RawRelease(h)]
      ensures IsHonest() <==> old(IsHonest()) && old(Honest(View(), Op.RawRelease(h)))
      ensures var o := old(handles)[h].obj;
              handles == old(handles) && count == Bump(old(count), o, -1) && external == Bump(old(external), o, -1)
    {
      ghost var before := View();
      HandlesInRange();
      IsAlive(h);
      var o := handles[h].obj;
      Release(o);
      external := external[o := external[o] - 1];
      Effect(before, Op.RawRelease(h));
      Record(Op.RawRelease(h), before);
    }

    // ---- constructors ----

    method ConstructNull() returns (h: nat)
      requires Valid()
      modifies this
      ensures Valid() && log == old(log) + [Op.ConstructNull]
      ensures IsHonest() <==> old(IsHonest())
      ensures h == |old(handles)| && handles == old(handles) + [Empty] && count == old(count) && external == old(external)
    {
      ghost var before := View();
      HandlesInRange();
      h := |handles|;
      handles := handles + [Empty];
      Effect(before, Op.ConstructNull);
      Record(Op.ConstructNull, before);
    }

    method ThreeNulls() returns (a: nat, b: nat, c: nat)
      requires Valid()
      modifies this
      ensures Valid() && count == old(count) && external == old(external)
      ensures IsHonest() <==> old(IsHonest())
      ensures a == |old(handles)| && b == a + 1 && c == a + 2
      ensures handles == old(handles) + [Empty, Empty, Empty]
    {
      a := ConstructNull();
      b := ConstructNull();
      c := ConstructNull();
      assert handles == old(handles) + [Empty, Empty, Empty];
    }

    method ConstructCopy(src: nat) returns (h: nat)
      requires Valid() && IsLive(View(), src) && MayTouch(src)
      modifies this
      ensures Valid() && log == old(log) + [Op.ConstructCopy(src)]
      ensures IsHonest() <==> old(IsHonest())
      ensures h == |old(handles)| && handles == old(handles) + [old(handles)[src]]
      ensures count == Credit(old(count), old(handles)[src], 1) && external == old(external)
    {
      ghost var before := View();
      HandlesInRange();
      if handles[src].To? { IsAlive(src); }
      h := |handles|;
      handles := handles + [handles[src]];
      if handles[h].To? {
        AddRef(handles[h].obj);
      }
      Effect(before, Op.ConstructCopy(src));
      Record(Op.ConstructCopy(src), before);
    }

    method ConstructMove(src: nat) returns (h: nat)
      requires Valid() && IsLive(View(), src)
      modifies this
      ensures Valid() && log == old(log) + [Op.ConstructMove(src)]
      ensures IsHonest() <==> old(IsHonest())
      ensures h == |old(handles)| && handles == old(handles)[src := Empty] + [old(handles)[src]]
      ensures count == old(count) && external == old(external)
    {
      ghost var before := View();
      HandlesInRange();
      h := |handles|;
      handles := handles + [handles[src]];
      handles := handles[src := Empty];
      Effect(before, Op.ConstructMove(src));
      Record(Op.ConstructMove(src), before);
    }

    // ---- assignments ----

    method AssignNull(dst: nat)
      requires Valid() && IsLive(View(), dst) && MayTouch(dst)
      modifies this
      ensures Valid() && log == old(log) + [Op.AssignNull(dst)]
      ensures IsHonest() <==> old(IsHonest())
      ensures handles == old(handles)[dst := Empty]
      ensures count == Credit(old(count), old(handles)[dst], -1) && external == old(external)
    {
      ghost var before := View();
      HandlesInRange();
      if handles[dst].To? {
        IsAlive(dst);
        Release(handles[dst].obj);
      }
      handles := handles[dst := Empty];
      Effect(before, Op.AssignNull(dst));
      Record(Op.AssignNull(dst), before);
    }

    /** The new object is counted before the old one is released, so that assigning a handle to itself is harmless. */
    method AssignCopy(dst: nat, src: nat)
      requires Valid() && IsLive(View(), dst) && IsLive(View(), src) && MayTouch(dst) && MayTouch(src)
      modifies this
      ensures Valid() && log == old(log) + [Op.AssignCopy(dst, src)]
      ensures IsHonest() <==> old(IsHonest())
      ensures handles == old(handles)[dst := old(handles)[src]]
      ensures count == Credit(Credit(old(count), old(handles)[src], 1), old(handles)[dst], -1) && external == old(external)
    {
      ghost var before := View();
      HandlesInRange();
      if handles[dst].To? { IsAlive(dst); }
      if handles[src].To? {
        IsAlive(src);
        AddRef(handles[src].obj);
      }
      if handles[dst].To? {
        Release(handles[dst].obj);
      }
      handles := handles[dst := handles[src]];
      Effect(before, Op.AssignCopy(dst, src));
      Record(Op.AssignCopy(dst, src), before);
    }

    /** The target's old pointer is overwritten, not released. */
    method AssignMove(dst: nat, src: nat)
      requires Valid() && IsLive(View(), dst) && IsLive(View(), src)
      modifies this
      ensures Valid() && log == old(log) + [Op.AssignMove(dst, src)]
      ensures IsHonest() <==> old(IsHonest())
      ensures handles == old(handles)[dst := old(handles)[src]][src := Empty]
      ensures count == old(count) && external == old(external)
    {
      ghost var before := View();
      HandlesInRange();
      handles := handles[dst := handles[src]];
      handles := handles[src := Empty];
      Effect(before, Op.AssignMove(dst, src));
      Record(Op.AssignMove(dst, src), before);
    }

    method Destroy(h: nat)
      requires Valid() && IsLive(View(), h) && MayTouch(h)
      modifies this
      ensures Valid() && log == old(log) + [Op.Destroy(h)]
      ensures IsHonest() <==> old(IsHonest())
      ensures handles == old(handles)[h := Dead]
      ensures count == Credit(old(count), old(handles)[h], -1) && external == old(external)
    {
      ghost var before := View();
      HandlesInRange();
      if handles[h].To? {
        IsAlive(h);
        Release(handles[h].obj);
      }
      handles := handles[h := Dead];
      Effect(before, Op.Destroy(h));
      Record(Op.Destroy(h), before);
    }

    /** A null handle is built, the raw pointer stored in it, and with it a reference somebody else owned. */
    method Wrap(p: Option<nat>) returns (h: nat)
      requires Valid() && (p.Some? ==> p.value < |count|)
      modifies this
      ensures Valid() && log == old(log) + [Op.Wrap(p)]
      ensures IsHonest() <==> old(IsHonest()) && old(Honest(View(), Op.Wrap(p)))
      ensures h == |old(handles)| && handles == old(handles) + [SlotOf(p)] && count == old(count)
      ensures external == if p.Some? then Bump(old(external), p.value, -1) else old(external)
    {
      ghost var before := View();
      HandlesInRange();
      h := |handles|;
      handles := handles + [Empty];
      handles := handles[h := SlotOf(p)];
      if p.Some? {
        external := external[p.value := external[p.value] - 1];
      }
      Effect(before, Op.Wrap(p));
      Record(Op.Wrap(p), before);
    }

    /** A COM call that returns an interface, or null, to be wrapped: the caller gets a handle that owns one new reference.
        `QueryInterface` and the calls of the generated wrappers are of this form. */
    method CallAndWrap(p: Option<nat>) returns (h: nat)
      requires Valid() && (p.Some? ==> p.value < |count|)
      modifies this
      ensures Valid() && log == old(log) + (if p.Some? then [Op.Acquire(p.value)] else []) + [Op.Wrap(p)]
      ensures IsHonest() <==> old(IsHonest())
      ensures h == |old(handles)| && handles == old(handles) + [SlotOf(p)]
      ensures count == Credit(old(count), SlotOf(p), 1) && external == old(external)
    {
      Law(0);
      if p.Some? {
        Acquire(p.value);
      }
      h := Wrap(p);
    }

    method QueryInterface(h: nat, result: Option<nat>) returns (q: nat)
      requires Valid() && IsTo(View(), h) && MayTouch(h) && (result.Some? ==> result.value < |count|)
      modifies this
      ensures Valid() && log == old(log) + (if result.Some? then [Op.Acquire(result.value)] else []) + [Op.Wrap(result)]
      ensures IsHonest() <==> old(IsHonest())
      ensures q == |old(handles)| && handles == old(handles) + [SlotOf(result)]
      ensures count == Credit(old(count), SlotOf(result), 1) && external == old(external)
    {
      q := CallAndWrap(result);
    }

    // ---- statements of the form `handle = call()` ----

    /** The returned temporary is move-assigned and goes out of scope. */
    method AssignTemporary(dst: nat, temporary: nat)
      requires Valid() && IsLive(View(), dst) && IsLive(View(), temporary) && dst != temporary
      modifies this
      ensures Valid() && count == old(count) && external == old(external)
      ensures IsHonest() <==> old(IsHonest())
      ensures handles == old(handles)[dst := old(handles)[temporary]][temporary := Dead]
    {
      AssignMove(dst, temporary);
      Destroy(temporary);
      assert handles == old(handles)[dst := old(handles)[temporary]][temporary := Dead];
    }

    /** How the generated wrappers return an interface-valued property: a null local handle is move-assigned the wrapped
        pointer and returned. */
    method GetProperty(p: Option<nat>) returns (result: nat)
      requires Valid() && (p.Some? ==> p.value < |count|)
      modifies this
      ensures Valid()
      ensures IsHonest() <==> old(IsHonest())
      ensures result == |old(handles)| && handles == old(handles) + [SlotOf(p), Dead]
      ensures count == Credit(old(count), SlotOf(p), 1) && external == old(external)
    {
      result := ConstructNull();
      var temporary := CallAndWrap(p);
      AssignTemporary(result, temporary);
      assert handles == old(handles) + [SlotOf(p), Dead];
    }

    method AssignCall(dst: nat, p: Option<nat>)
      requires Valid() && IsLive(View(), dst) && (p.Some? ==> p.value < |count|)
      modifies this
      ensures Valid() && count == Credit(old(count), SlotOf(p), 1) && external == old(external)
      ensures IsHonest() <==> old(IsHonest())
      ensures handles == old(handles)[dst := SlotOf(p)] + [Dead]
    {
      var temporary := CallAndWrap(p);
      AssignTemporary(dst, temporary);
      assert handles == old(handles)[dst := SlotOf(p)] + [Dead];
    }

    method AssignProperty(dst: nat, p: Option<nat>)
      requires Valid() && IsLive(View(), dst) && (p.Some? ==> p.value < |count|)
      modifies this
      ensures Valid() && count == Credit(old(count), SlotOf(p), 1) && external == old(external)
      ensures IsHonest() <==> old(IsHonest())
      ensures handles == old(handles)[dst := SlotOf(p)] + [Dead, Dead]
    {
      var temporary := GetProperty(p);
      AssignTemporary(dst, temporary);
      assert handles == old(handles)[dst := SlotOf(p)] + [Dead, Dead];
    }
  }
}
