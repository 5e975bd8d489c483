/** A third client of the handles: starting a machine.  Like most operations of the API it calls `machine->Release()` on the
    handle it holds, and the handle's destructor then releases once more. */
module MachineStart {
  import opened Options
  import opened HandleModel
  import opened HandleLaws
  import opened ComPtr
  import opened ErrorReport

  /** The machine is in no state to be started; it is launched; or launching it fails, and the exception leaves errors. */
  datatype Launch =
    | Refused
    | Launched(session: nat, progress: nat)
    | Failed(session: nat, info: nat, chain: seq<nat>)

  predicate Known(launch: Launch, objects: nat) {
    match launch
    case Refused => true
    case Launched(session, progress) => session < objects && progress < objects
    case Failed(session, info, chain) =>
      session < objects && info < objects && forall k :: 0 <= k < |chain| ==> chain[k] < objects
  }

  predicate NonNegative(count: seq<int>) {
    forall o :: 0 <= o < |count| ==> count[o] >= 0
  }

  /** What the locals `session` and `progress` end up with. */
  function SessionSlot(launch: Launch): Slot {
    match launch
    case Refused => Empty
    case Launched(session, _) => To(session)
    case Failed(session, _, _) => To(session)
  }

  function ProgressSlot(launch: Launch): Slot {
    if launch.Launched? then To(launch.progress) else Empty
  }

  /** The locals, and the machine found. */
  method FindMachine(t: ComHandles, machineObj: nat) returns (machine: nat, session: nat, progress: nat)
    requires t.Valid() && machineObj < |t.count|
    modifies t
    ensures t.Valid() && (t.IsHonest() <==> old(t.IsHonest())) && t.external == old(t.external)
    ensures machine == |old(t.handles)| && session == machine + 1 && progress == machine + 2
    ensures t.handles == old(t.handles) + [To(machineObj), Empty, Empty, Dead]
    ensures t.count == Bump(old(t.count), machineObj, 1)
  {
    machine, session, progress := t.ThreeNulls();
    t.AssignCall(machine, Some(machineObj));
    assert t.handles == old(t.handles) + [To(machineObj), Empty, Empty, Dead];
  }

  /** The `switch` up to the call of `Release`. */
  method TryLaunch(t: ComHandles, session: nat, progress: nat, launch: Launch)
    requires t.Valid() && Known(launch, |t.count|) && session != progress
    requires IsLive(t.View(), session) && t.handles[session].Empty?
    requires IsLive(t.View(), progress) && t.handles[progress].Empty?
    modifies t
    ensures t.Valid() && (t.IsHonest() <==> old(t.IsHonest())) && t.external == old(t.external)
    ensures GrownByDead(old(t.handles)[session := SessionSlot(launch)][progress := ProgressSlot(launch)], t.handles)
    ensures t.count == Credit(Credit(old(t.count), SessionSlot(launch), 1), ProgressSlot(launch), 1)
    ensures session < |t.handles| && progress < |t.handles|
    ensures match launch
            case Refused => t.handles[session] == Empty && t.handles[progress] == Empty
            case Launched(s, p) => t.handles[session] == To(s) && t.handles[progress] == To(p)
            case Failed(s, _, _) => t.handles[session] == To(s) && t.handles[progress] == Empty
  {
    if !launch.Refused? {
      t.AssignProperty(session, Some(launch.session));
    }
    if launch.Launched? {
      t.AssignCall(progress, Some(launch.progress));
    }
  }

  method FindAndLaunch(t: ComHandles, machineObj: nat, launch: Launch) returns (machine: nat)
    requires t.Valid() && machineObj < |t.count| && Known(launch, |t.count|)
    modifies t
    ensures t.Valid() && (t.IsHonest() <==> old(t.IsHonest())) && t.external == old(t.external)
    ensures machine == |old(t.handles)|
    ensures GrownByDead(old(t.handles) + [To(machineObj), SessionSlot(launch), ProgressSlot(launch)], t.handles)
    ensures t.count == Credit(Credit(Bump(old(t.count), machineObj, 1), SessionSlot(launch), 1), ProgressSlot(launch), 1)
  {
    ghost var locals := old(t.handles) + [To(machineObj), SessionSlot(launch), ProgressSlot(launch)];
    var session, progress;
    machine, session, progress := FindMachine(t, machineObj);
    TryLaunch(t, session, progress, launch);
    assert t.handles[..|locals| + 1] == locals + [Dead];
    assert t.handles[..|locals|] == locals;
  }

  /** The counts before the call and when the machine is launched; then its reference is given up or not, and the locals
      `progress` and `session` are destroyed. */
  lemma LocalsAreBalanced(c0: seq<int>, m: nat, s: Slot, p: Slot, d: int)
    requires m < |c0| && (s.To? ==> s.obj < |c0|) && (p.To? ==> p.obj < |c0|)
    requires NonNegative(c0) && -1 <= d <= 0
    ensures var c := Credit(Credit(Bump(c0, m, 1), s, 1), p, 1);
            && |c| == |c0| && c[m] >= 1
            && (p.To? ==> Bump(c, m, d)[p.obj] >= 1)
            && (s.To? ==> Credit(Bump(c, m, d), p, -1)[s.obj] >= 1)
            && Credit(Credit(Bump(c, m, d), p, -1), s, -1) == Bump(c0, m, 1 + d)
  {
  }

  /** The handles of the three locals and, the machine's aside, what their destruction leaves. */
  lemma LocalsAreGone(h0: seq<Slot>, m: Slot, s: Slot, p: Slot)
    ensures forall h: seq<Slot> {:trigger GrownByDead(h0 + [m, s, p], h)} :: GrownByDead(h0 + [m, s, p], h) ==>
              var n := |h0|;
              && n + 2 < |h| && h[n] == m && h[n + 1] == s && h[n + 2] == p
              && GrownByDead(h0, h[n + 2 := Dead][n + 1 := Dead][n := Dead])
  {
  }

  /** What `machine->Release()` does to the machine's count; an exception passes it by. */
  function GivenUp(launch: Launch): int {
    if launch.Failed? then 0 else -1
  }

  method FindLaunchAndRelease(t: ComHandles, machineObj: nat, launch: Launch) returns (machine: nat)
    requires t.Valid() && machineObj < |t.count| && Known(launch, |t.count|) && NonNegative(t.count)
    modifies t
    ensures t.Valid() && machine == |old(t.handles)| && |old(t.external)| == |old(t.count)|
    ensures t.IsHonest() <==> old(t.IsHonest()) && (launch.Failed? || old(t.external)[machineObj] >= 1)
    ensures GrownByDead(old(t.handles) + [To(machineObj), SessionSlot(launch), ProgressSlot(launch)], t.handles)
    ensures var c := Credit(Credit(Bump(old(t.count), machineObj, 1), SessionSlot(launch), 1), ProgressSlot(launch), 1);
            t.count == Bump(c, machineObj, GivenUp(launch))
    ensures t.external == Bump(old(t.external), machineObj, GivenUp(launch))
  {
    t.HandlesInRange();
    LocalsAreBalanced(t.count, machineObj, SessionSlot(launch), ProgressSlot(launch), GivenUp(launch));
    LocalsAreGone(t.handles, To(machineObj), SessionSlot(launch), ProgressSlot(launch));
    machine := FindAndLaunch(t, machineObj, launch);
    if !launch.Failed? {
      t.RawRelease(machine);
    }
  }

  /** The destructors of `progress` and `session`. */
  method Unwind(t: ComHandles, session: nat)
    requires t.Valid() && IsLive(t.View(), session) && IsLive(t.View(), session + 1)
    requires var s, p := t.handles[session], t.handles[session + 1];
             && (p.To? ==> p.obj < |t.count| && t.count[p.obj] >= 1)
             && (s.To? ==> s.obj < |t.count| && Credit(t.count, p, -1)[s.obj] >= 1)
    modifies t
    ensures t.Valid() && (t.IsHonest() <==> old(t.IsHonest())) && t.external == old(t.external)
    ensures t.handles == old(t.handles)[session + 1 := Dead][session := Dead]
    ensures t.count == Credit(Credit(old(t.count), old(t.handles)[session + 1], -1), old(t.handles)[session], -1)
  {
    t.Destroy(session + 1);
    t.Destroy(session);
  }

  /** All of the function's `try` block but the destructor of `machine`.  Unless an exception left it, the reference that the
      handle stands for is given up already: the object under the handle is alive exactly when its count was positive before
      the call, and what was given up is a reference of the server's or nobody's. */
  method UpToTheDestructor(t: ComHandles, machineObj: nat, launch: Launch) returns (machine: nat)
    requires t.Valid() && machineObj < |t.count|
    requires Known(launch, |t.count|) && NonNegative(t.count)
    modifies t
    ensures t.Valid() && |old(t.external)| == |old(t.count)|
    ensures t.IsHonest() <==> old(t.IsHonest()) && (launch.Failed? || old(t.external)[machineObj] >= 1)
    ensures machine == |old(t.handles)| < |t.handles| && t.handles[machine] == To(machineObj)
    ensures GrownByDead(old(t.handles), t.handles[machine := Dead])
    ensures t.count == Bump(old(t.count), machineObj, 1 + GivenUp(launch))
    ensures t.external == Bump(old(t.external), machineObj, GivenUp(launch))
    ensures t.count[machineObj] >= 1 <==> launch.Failed? || old(t.count)[machineObj] >= 1
  {
    LocalsAreBalanced(t.count, machineObj, SessionSlot(launch), ProgressSlot(launch), GivenUp(launch));
    LocalsAreGone(t.handles, To(machineObj), SessionSlot(launch), ProgressSlot(launch));
    machine := FindLaunchAndRelease(t, machineObj, launch);
    Unwind(t, machine + 1);
  }

  lemma NothingOverwritten(w: World, v: World, m: nat, d: int)
    requires InRange(w) && GrownByDead(w.handles, v.handles)
    requires v.count == Bump(w.count, m, d) && v.external == Bump(w.external, m, d)
    ensures forall o: nat :: o < |w.count| ==>
              v.count[o] - v.external[o] - Refs(v.handles, o) == w.count[o] - w.external[o] - Refs(w.handles, o)
  {
    forall o: nat | o < |w.count|
      ensures Refs(v.handles, o) == Refs(w.handles, o)
    {
      SameRefs(w.handles, v.handles, o);
    }
  }

  /** With the destructor: unless an exception left the block, the machine's count is one lower than before, and every other
      count as it was; no move overwrites a handle, so what is missing is not made up anywhere. */
  method TryBlock(t: ComHandles, machineObj: nat, launch: Launch)
    requires t.Valid() && machineObj < |t.count|
    requires Known(launch, |t.count|) && NonNegative(t.count)
    requires launch.Failed? || t.count[machineObj] >= 1
    modifies t
    ensures t.Valid() && GrownByDead(old(t.handles), t.handles) && |old(t.external)| == |old(t.count)|
    ensures t.IsHonest() <==> old(t.IsHonest()) && (launch.Failed? || old(t.external)[machineObj] >= 1)
    ensures t.count == if launch.Failed? then old(t.count) else Bump(old(t.count), machineObj, -1)
    ensures t.external == if launch.Failed? then old(t.external) else Bump(old(t.external), machineObj, -1)
    ensures forall o: nat :: t.Overwritten(o) == old(t.Overwritten(o))
  {
    t.LawForAll();
    ghost var w := t.View();
    var machine := UpToTheDestructor(t, machineObj, launch);
    t.Destroy(machine);
    t.LawForAll();
    NothingOverwritten(w, t.View(), machineObj, GivenUp(launch));
  }

  /** The whole operation: a call that starts the machine, or declines to, leaves its count one lower than before; a call
      that fails leaves the machine's count alone, and the surplus references of the report. */
  method StartUp(t: ComHandles, machineObj: nat, launch: Launch)
    returns (data: Option<int>, texts: seq<nat>)
    requires t.Valid() && machineObj < |t.count|
    requires forall o :: 0 <= o < |t.count| ==> t.count[o] >= 0
    requires match launch
             case Refused => true
             case Launched(session, progress) => session < |t.count| && progress < |t.count|
             case Failed(session, info, chain) =>
               session < |t.count| && info < |t.count| && forall k :: 0 <= k < |chain| ==> chain[k] < |t.count|
    requires if launch.Failed? then t.IsHonest() else t.count[machineObj] >= 1
    modifies t
    ensures t.Valid() && GrownByDead(old(t.handles), t.handles) && |old(t.external)| == |old(t.count)| == |t.count|
    ensures t.IsHonest() <==> old(t.IsHonest()) && (launch.Failed? || old(t.external)[machineObj] >= 1)
    ensures data == match launch { case Refused => Some(0) case Launched(_, _) => Some(1) case Failed(_, _, _) => None }
    ensures texts == if launch.Failed? then launch.chain else []
    ensures launch.Failed? ==> forall o: nat :: o < |t.count| ==> t.count[o] == old(t.count)[o] + multiset(launch.chain)[o]
    ensures launch.Failed? ==> forall o: nat :: t.Overwritten(o) == old(t.Overwritten(o)) + multiset(launch.chain)[o]
    ensures !launch.Failed? ==> t.count == old(t.count)[machineObj := old(t.count)[machineObj] - 1]
    ensures !launch.Failed? ==> forall o: nat :: t.Overwritten(o) == old(t.Overwritten(o))
    ensures t.external == if launch.Failed? then old(t.external) else Bump(old(t.external), machineObj, -1)
  {
    texts := [];
    TryBlock(t, machineObj, launch);
    match launch {
      case Refused => data := Some(0);
      case Launched(_, _) => data := Some(1);
      case Failed(_, info, chain) =>
        data := None;
        ghost var h := t.handles;
        texts := ReportErrors(t, info, chain);
        assert GrownByDead(old(t.handles), h) && GrownByDead(h, t.handles);
    }
  }
}
