/** Reference-counted handles to COM objects: what each member of the handle class does, step by step.

    A `World` is a table of handles and the reference count of every object.  `external` says how many references to an
    object are owned by code other than handles: the COM server, or a raw interface pointer that somebody was given. */
module HandleModel {
  import opened Options

  datatype Slot =
    | Dead                                          // not constructed yet, or destroyed
    | Empty                                         // a null interface pointer
    | To(obj: nat)

  datatype World = World(handles: seq<Slot>, count: seq<int>, external: seq<int>)

  datatype Op =
    | NewObject                                     // an object appears, with one reference owned outside
    | Acquire(o: nat)                               // code outside gets a counted reference: an owned raw pointer
    | OutsideRelease(o: nat)                        // code outside gives back a reference of its own
    | RawAddRef(h: nat)                             // `handle->AddRef()`
    | RawRelease(h: nat)                            // `handle->Release()`
    | ConstructNull
    | ConstructCopy(src: nat)
    | ConstructMove(src: nat)
    | AssignNull(dst: nat)
    | AssignCopy(dst: nat, src: nat)
    | AssignMove(dst: nat, src: nat)
    | Destroy(h: nat)
    | Wrap(p: Option<nat>)                          // adopts a raw pointer, or wraps a null one

  /** One memory operation.  `Lend` and `Spend` only record who owns a reference. */
  datatype Micro =
    | AddRef(o: nat)
    | Release(o: nat)
    | Lend(o: nat)
    | Spend(o: nat)
    | NewHandle(slot: Slot)
    | Store(h: nat, slot: Slot)
    | Create

  datatype Code = End | Then(first: Micro, rest: Code)

  predicate IsLive(w: World, h: nat) {
    h < |w.handles| && !w.handles[h].Dead?
  }

  predicate IsTo(w: World, h: nat) {
    h < |w.handles| && w.handles[h].To?
  }

  /** The handles an operation names exist; calling through a handle needs an object behind it. */
  predicate Enabled(w: World, op: Op) {
    match op
    case NewObject => true
    case Acquire(o) => o < |w.count|
    case OutsideRelease(o) => o < |w.count|
    case RawAddRef(h) => IsTo(w, h)
    case RawRelease(h) => IsTo(w, h)
    case ConstructNull => true
    case ConstructCopy(src) => IsLive(w, src)
    case ConstructMove(src) => IsLive(w, src)
    case AssignNull(dst) => IsLive(w, dst)
    case AssignCopy(dst, src) => IsLive(w, dst) && IsLive(w, src)
    case AssignMove(dst, src) => IsLive(w, dst) && IsLive(w, src)
    case Destroy(h) => IsLive(w, h)
    case Wrap(p) => p.Some? ==> p.value < |w.count|
  }

  function SlotOf(p: Option<nat>): Slot {
    if p.Some? then To(p.value) else Empty
  }

  /** The memory operations of each member, in the order of its statements. */
  function Program(w: World, op: Op): Code
    requires Enabled(w, op)
  {
    match op
    case NewObject => Then(Create, End)
    case Acquire(o) => Then(AddRef(o), Then(Lend(o), End))
    case OutsideRelease(o) => Then(Release(o), Then(Spend(o), End))
    case RawAddRef(h) => Then(AddRef(w.handles[h].obj), Then(Lend(w.handles[h].obj), End))
    case RawRelease(h) => Then(Release(w.handles[h].obj), Then(Spend(w.handles[h].obj), End))
    case ConstructNull => Then(NewHandle(Empty), End)
    case ConstructCopy(src) =>
      var s := w.handles[src];
      Then(NewHandle(s), if s.To? then Then(AddRef(s.obj), End) else End)
    case ConstructMove(src) => Then(NewHandle(w.handles[src]), Then(Store(src, Empty), End))
    case AssignNull(dst) =>
      var d := w.handles[dst];
      if d.To? then Then(Release(d.obj), Then(Store(dst, Empty), End)) else Then(Store(dst, Empty), End)
    case AssignCopy(dst, src) =>
      var d, s := w.handles[dst], w.handles[src];
      var store := Then(Store(dst, s), End);
      var release := if d.To? then Then(Release(d.obj), store) else store;
      if s.To? then Then(AddRef(s.obj), release) else release
    case AssignMove(dst, src) => Then(Store(dst, w.handles[src]), Then(Store(src, Empty), End))
    case Destroy(h) =>
      var d := w.handles[h];
      if d.To? then Then(Release(d.obj), Then(Store(h, Dead), End)) else Then(Store(h, Dead), End)
    case Wrap(p) =>
      var n := |w.handles|;
      Then(NewHandle(Empty), Then(Store(n, SlotOf(p)), if p.Some? then Then(Spend(p.value), End) else End))
  }

  function Bump(s: seq<int>, o: nat, d: int): seq<int> {
    if o < |s| then s[o := s[o] + d] else s
  }

  function Do(w: World, m: Micro): World {
    match m
    case AddRef(o) => w.(count := Bump(w.count, o, 1))
    case Release(o) => w.(count := Bump(w.count, o, -1))
    case Lend(o) => w.(external := Bump(w.external, o, 1))
    case Spend(o) => w.(external := Bump(w.external, o, -1))
    case NewHandle(slot) => w.(handles := w.handles + [slot])
    case Store(h, slot) => if h < |w.handles| then w.(handles := w.handles[h := slot]) else w
    case Create => w.(count := w.count + [1], external := w.external + [1])
  }

  function Exec(w: World, c: Code): World
    decreases c
  {
    match c
    case End => w
    case Then(m, rest) => Exec(Do(w, m), rest)
  }

  function Apply(w: World, op: Op): World
    requires Enabled(w, op)
  {
    Exec(w, Program(w, op))
  }

  /** An operation on handles that do not exist is not a run of the program and leaves the world alone. */
  function Next(w: World, op: Op): World {
    if Enabled(w, op) then Apply(w, op) else w
  }

  const START := World([], [], [])

  /** The world after a sequence of whole operations. */
  function Run(w: World, ops: seq<Op>): World
    decreases |ops|
  {
    if ops == [] then w else Next(Run(w, ops[..|ops| - 1]), ops[|ops| - 1])
  }

  /** The number of live handles that point at an object. */
  function Refs(handles: seq<Slot>, o: nat): nat {
    multiset(handles)[To(o)]
  }
}
