/** A client of the handles: an event listener that moves handles into locals, captures copies for a thread, and polls. */
module EventListener {
  import opened Options
  import opened HandleModel
  import opened HandleLaws
  import opened ComPtr

  // A state-change interface of an event, and what its two `state()` calls return: one is printed, the other compared.
  datatype StateChange = StateChange(obj: nat, printed: int, compared: int)

  // What one `getEvent` call yields: nothing within the timeout, or an event and, if it has one, its state-change interface.
  datatype Poll = Timeout | Event(obj: nat, change: Option<StateChange>)

  const RUNNING := 5

  predicate IsStop(p: Poll) {
    p.Event? && p.change.Some? && p.change.value.compared == RUNNING
  }

  // ---- what the loop must do with a stream of polls ----

  /** The position of the first stop, or the end. */
  function FirstStop(polls: seq<Poll>): (k: nat)
    ensures k <= |polls|
    ensures forall j :: 0 <= j < k && polls[j].Event? && polls[j].change.Some? ==> polls[j].change.value.compared != 5
    ensures k < |polls| ==> polls[k].Event? && polls[k].change.Some? && polls[k].change.value.compared == 5
  {
    if polls == [] || IsStop(polls[0]) then 0 else 1 + FirstStop(polls[1..])
  }

  /** What the polls yield, one after the other, those that yield nothing aside. */
  function Picked<T>(pick: Poll -> Option<T>, polls: seq<Poll>): seq<T> {
    if polls == [] then []
    else
      var p := pick(polls[|polls| - 1]);
      Picked(pick, polls[..|polls| - 1]) + if p.Some? then [p.value] else []
  }

  function EventOf(p: Poll): Option<nat> {
    if p.Event? then Some(p.obj) else None
  }

  function StateOf(p: Poll): Option<int> {
    if p.Event? && p.change.Some? then Some(p.change.value.printed) else None
  }

  function Events(polls: seq<Poll>): seq<nat> {
    Picked(EventOf, polls)
  }

  function States(polls: seq<Poll>): seq<int> {
    Picked(StateOf, polls)
  }

  /** The events to acknowledge: all of them before the first stop, in order. */
  function Acknowledged(polls: seq<Poll>): seq<nat> {
    Events(polls[..FirstStop(polls)])
  }

  lemma {:induction false} FirstStopOfLonger(polls: seq<Poll>, more: seq<Poll>)
    ensures FirstStop(polls + more) == if FirstStop(polls) < |polls| then FirstStop(polls) else |polls| + FirstStop(more)
  {
    if polls == [] {
      assert polls + more == more;
    } else if !IsStop(polls[0]) {
      FirstStopOfLonger(polls[1..], more);
      assert (polls + more)[1..] == polls[1..] + more;
    }
  }

  lemma {:induction false} PickedOfLonger<T>(pick: Poll -> Option<T>, polls: seq<Poll>, more: seq<Poll>)
    ensures Picked(pick, polls + more) == Picked(pick, polls) + Picked(pick, more)
    decreases |more|
  {
    if more == [] {
      assert polls + more == polls;
    } else {
      PickedOfLonger(pick, polls, more[..|more| - 1]);
      assert (polls + more)[..|polls + more| - 1] == polls + more[..|more| - 1];
    }
  }

  ghost function Yielding<T>(pick: Poll -> Option<T>, polls: seq<Poll>): set<nat> {
    set k: nat | k < |polls| && pick(polls[k]).Some?
  }

  lemma {:induction false} PickedLength<T>(pick: Poll -> Option<T>, polls: seq<Poll>)
    ensures |Picked(pick, polls)| == |Yielding(pick, polls)|
  {
    if polls != [] {
      var n: nat := |polls| - 1;
      PickedLength(pick, polls[..n]);
      assert Yielding(pick, polls) == Yielding(pick, polls[..n]) + (if pick(polls[n]).Some? then {n} else {});
    }
  }

  /** What poll `k` yields comes after what the earlier ones yield. */
  lemma PickedInOrder<T>(pick: Poll -> Option<T>, polls: seq<Poll>, k: nat)
    requires k < |polls| && pick(polls[k]).Some?
    ensures var p := |Yielding(pick, polls[..k])|; p < |Picked(pick, polls)| && Picked(pick, polls)[p] == pick(polls[k]).value
  {
    PickedLength(pick, polls[..k]);
    assert polls[..k + 1][..k] == polls[..k];
    assert polls == polls[..k + 1] + polls[k + 1..];
    PickedOfLonger(pick, polls[..k + 1], polls[k + 1..]);
  }

  /** The events are listed in the order of their delivery: each stands at the position given by the number of events before
      it, and there are no others. */
  lemma EventsInOrder(polls: seq<Poll>, k: nat)
    ensures |Events(polls)| == |set j: nat | j < |polls| && polls[j].Event?|
    ensures k < |polls| && polls[k].Event? ==>
              var p := |set j: nat | j < k && polls[j].Event?|; p < |Events(polls)| && Events(polls)[p] == polls[k].obj
  {
    PickedLength(EventOf, polls);
    assert Yielding(EventOf, polls) == set j: nat | j < |polls| && polls[j].Event?;
    if k < |polls| && polls[k].Event? {
      PickedInOrder(EventOf, polls, k);
      assert Yielding(EventOf, polls[..k]) == set j: nat | j < k && polls[j].Event?;
    }
  }

  /** And so are the printed states. */
  lemma StatesInOrder(polls: seq<Poll>, k: nat)
    ensures |States(polls)| == |set j: nat | j < |polls| && polls[j].Event? && polls[j].change.Some?|
    ensures k < |polls| && polls[k].Event? && polls[k].change.Some? ==>
              var p := |set j: nat | j < k && polls[j].Event? && polls[j].change.Some?|;
              p < |States(polls)| && States(polls)[p] == polls[k].change.value.printed
  {
    PickedLength(StateOf, polls);
    assert Yielding(StateOf, polls) == set j: nat | j < |polls| && polls[j].Event? && polls[j].change.Some?;
    if k < |polls| && polls[k].Event? && polls[k].change.Some? {
      PickedInOrder(StateOf, polls, k);
      assert Yielding(StateOf, polls[..k]) == set j: nat | j < k && polls[j].Event? && polls[j].change.Some?;
    }
  }

  lemma TakeOfConcat(a: seq<Poll>, b: seq<Poll>, m: nat)
    requires m <= |b|
    ensures (a + b)[..|a| + m] == a + b[..m] && a[..|a|] == a
  {
  }

  lemma {:induction false} AcknowledgedAfterStop(polls: seq<Poll>, more: seq<Poll>)
    requires FirstStop(polls) < |polls|
    ensures Acknowledged(polls + more) == Acknowledged(polls)
  {
    FirstStopOfLonger(polls, more);
    assert (polls + more)[..FirstStop(polls)] == polls[..FirstStop(polls)];
  }

  lemma {:induction false} AcknowledgedBeforeStop(polls: seq<Poll>, more: seq<Poll>)
    requires FirstStop(polls) == |polls|
    ensures Acknowledged(polls + more) == Acknowledged(polls) + Acknowledged(more)
  {
    FirstStopOfLonger(polls, more);
    var m := FirstStop(more);
    TakeOfConcat(polls, more, m);
    PickedOfLonger(EventOf, polls, more[..m]);
  }

  /** As the stream goes on, acknowledgements are only added; after a stop not even that.  So the finite streams below say
      what the loop does with an endless one. */
  lemma {:induction false} AcknowledgedOnlyGrows(polls: seq<Poll>, more: seq<Poll>)
    ensures Acknowledged(polls) <= Acknowledged(polls + more)
    ensures FirstStop(polls) < |polls| ==> Acknowledged(polls + more) == Acknowledged(polls)
    ensures FirstStop(polls) == |polls| ==> Acknowledged(polls + more) == Acknowledged(polls) + Acknowledged(more)
  {
    if FirstStop(polls) < |polls| {
      AcknowledgedAfterStop(polls, more);
    } else {
      AcknowledgedBeforeStop(polls, more);
    }
  }

  /** The positions at which an event object was delivered. */
  function Deliveries(polls: seq<Poll>, o: nat): set<nat> {
    set k: nat | k < |polls| && polls[k].Event? && polls[k].obj == o
  }

  lemma DeliveriesLast(polls: seq<Poll>, o: nat)
    requires polls != []
    ensures var last := |polls| - 1;
            |Deliveries(polls, o)| == |Deliveries(polls[..last], o)|
                                    + if polls[last].Event? && polls[last].obj == o then 1 else 0
  {
    var last := |polls| - 1;
    var before := Deliveries(polls[..last], o);
    assert Deliveries(polls, o) == before + (if polls[last].Event? && polls[last].obj == o then {last} else {});
  }

  /** An event is acknowledged as often as it was delivered before the first stop, and so never for the stop itself. */
  lemma {:induction false} EventsCount(polls: seq<Poll>, o: nat)
    ensures multiset(Events(polls))[o] == |set k: nat | k < |polls| && polls[k].Event? && polls[k].obj == o|
  {
    assert Deliveries(polls, o) == set k: nat | k < |polls| && polls[k].Event? && polls[k].obj == o;
    if polls != [] {
      EventsCount(polls[..|polls| - 1], o);
      DeliveriesLast(polls, o);
    }
  }

  // ---- listenObject ----

  /** `current_vbox`, `source` and `listener` are filled by move assignment; the parameter is left empty. */
  method Subscribe(t: ComHandles, vbox: nat, sourceObj: nat, listenerObj: nat)
    returns (source: nat, listener: nat, current: nat)
    requires t.Healthy() && IsTo(t.View(), vbox) && sourceObj < |t.count| && listenerObj < |t.count|
    modifies t
    ensures t.Healthy() && t.external == old(t.external)
    ensures var n := |old(t.handles)|;
            && source == n && listener == n + 1 && current == n + 2
            && t.handles == old(t.handles)[vbox := Empty]
                            + [To(sourceObj), To(listenerObj), old(t.handles)[vbox], Dead, Dead, Dead]
    ensures t.count == Bump(Bump(old(t.count), sourceObj, 1), listenerObj, 1)
  {
    ghost var h0 := t.handles;
    source, listener, current := t.ThreeNulls();
    t.AssignMove(current, vbox);
    assert t.handles == h0[vbox := Empty] + [Empty, Empty, h0[vbox]];
    t.AssignProperty(source, Some(sourceObj));
    t.AssignCall(listener, Some(listenerObj));
    assert t.handles == h0[vbox := Empty] + [To(sourceObj), To(listenerObj), h0[vbox], Dead, Dead, Dead];
  }

  /** `registerListener` passes the raw pointers of two handles; whether the server counts a reference of its own to the
      listener is its business. */
  method RegisterListener(t: ComHandles, source: nat, listener: nat, kept: bool)
    requires t.Healthy() && IsTo(t.View(), source) && IsTo(t.View(), listener)
    modifies t
    ensures t.Healthy() && t.handles == old(t.handles)
    ensures t.count == Bump(old(t.count), old(t.handles)[listener].obj, if kept then 1 else 0)
    ensures t.external == Bump(old(t.external), old(t.handles)[listener].obj, if kept then 1 else 0)
  {
    t.HandlesInRange();
    if kept {
      t.Acquire(t.handles[listener].obj);
    }
  }

  /** The closure captures copies of two handles. */
  method Capture(t: ComHandles, source: nat, listener: nat) returns (capturedSource: nat, capturedListener: nat)
    requires t.Healthy() && IsTo(t.View(), source) && IsTo(t.View(), listener)
    modifies t
    ensures t.Healthy() && t.external == old(t.external)
    ensures capturedSource == |old(t.handles)| && capturedListener == capturedSource + 1
    ensures t.handles == old(t.handles) + [old(t.handles)[source], old(t.handles)[listener]]
    ensures t.count == Bump(Bump(old(t.count), old(t.handles)[source].obj, 1), old(t.handles)[listener].obj, 1)
  {
    capturedSource := t.ConstructCopy(source);
    capturedListener := t.ConstructCopy(listener);
    assert t.handles == old(t.handles) + [old(t.handles)[source], old(t.handles)[listener]];
  }

  /** The closure is moved into the thread and its original destroyed. */
  method IntoThread(t: ComHandles, capturedSource: nat, capturedListener: nat)
    returns (threadSource: nat, threadListener: nat)
    requires t.Healthy() && capturedSource + 2 == capturedListener + 1 == |t.handles|
    requires IsLive(t.View(), capturedSource) && IsLive(t.View(), capturedListener)
    modifies t
    ensures t.Healthy() && t.count == old(t.count) && t.external == old(t.external)
    ensures threadSource == |old(t.handles)| && threadListener == threadSource + 1
    ensures t.handles == old(t.handles)[..capturedSource]
                         + [Dead, Dead, old(t.handles)[capturedSource], old(t.handles)[capturedListener]]
  {
    threadSource := t.ConstructMove(capturedSource);
    threadListener := t.ConstructMove(capturedListener);
    t.Destroy(capturedListener);
    t.Destroy(capturedSource);
    assert t.handles == old(t.handles)[..capturedSource]
                        + [Dead, Dead, old(t.handles)[capturedSource], old(t.handles)[capturedListener]];
  }

  /** `std::thread event_thread(closure)`: the closure ends up in the thread, with counted copies of both handles. */
  method SpawnThread(t: ComHandles, source: nat, listener: nat) returns (threadSource: nat, threadListener: nat)
    requires t.Healthy() && IsTo(t.View(), source) && IsTo(t.View(), listener)
    modifies t
    ensures t.Healthy() && t.external == old(t.external)
    ensures t.handles == old(t.handles) + [Dead, Dead, old(t.handles)[source], old(t.handles)[listener]]
    ensures threadSource == |t.handles| - 2 && threadListener == |t.handles| - 1
    ensures t.count == Bump(Bump(old(t.count), old(t.handles)[source].obj, 1), old(t.handles)[listener].obj, 1)
  {
    var capturedSource, capturedListener := Capture(t, source, listener);
    threadSource, threadListener := IntoThread(t, capturedSource, capturedListener);
    assert t.handles == old(t.handles) + [Dead, Dead, old(t.handles)[source], old(t.handles)[listener]];
  }

  const EIGHT_DEAD: seq<Slot> := [Dead, Dead, Dead, Dead, Dead, Dead, Dead, Dead]

  /** The locals go out of scope, last constructed first, and then the parameter. */
  method LeaveScope(t: ComHandles, vbox: nat, source: nat, listener: nat, current: nat)
    requires t.Healthy() && IsTo(t.View(), source) && IsTo(t.View(), listener) && IsTo(t.View(), current)
    requires vbox < source && source + 2 == listener + 1 == current && t.handles[vbox].Empty?
    modifies t
    ensures t.Healthy() && t.external == old(t.external)
    ensures t.handles == old(t.handles)[current := Dead][listener := Dead][source := Dead][vbox := Dead]
    ensures t.count == Bump(Bump(Bump(old(t.count), old(t.handles)[current].obj, -1), old(t.handles)[listener].obj, -1),
                            old(t.handles)[source].obj, -1)
  {
    t.Destroy(current);
    t.Destroy(listener);
    t.Destroy(source);
    t.Destroy(vbox);
  }

  /** The counts at the start, after the locals are filled, after the registration, after the thread is started, and after the
      locals are gone. */
  lemma ScopeCounts(c0: seq<int>, c1: seq<int>, r: seq<int>, c2: seq<int>, c3: seq<int>, v: nat, a: nat, b: nat, k: int)
    requires v < |c0| && a < |c0| && b < |c0|
    requires c1 == Bump(Bump(c0, a, 1), b, 1)
    requires r == Bump(c1, b, k)
    requires c2 == Bump(Bump(r, a, 1), b, 1)
    requires c3 == Bump(Bump(Bump(c2, v, -1), b, -1), a, -1)
    ensures c3 == Bump(Bump(Bump(c0, v, -1), a, 1), b, 1 + k)
  {
  }

  /** The handles at the start, after the locals are filled, after the thread is started, and after the locals are gone. */
  lemma ScopeHandles(h0: seq<Slot>, h1: seq<Slot>, h2: seq<Slot>, h3: seq<Slot>, vbox: nat, a: Slot, b: Slot)
    requires vbox < |h0|
    requires h1 == h0[vbox := Empty] + [a, b, h0[vbox], Dead, Dead, Dead]
    requires h2 == h1 + [Dead, Dead, a, b]
    requires h3 == h2[|h0| + 2 := Dead][|h0| + 1 := Dead][|h0| := Dead][vbox := Dead]
    ensures h3 == h0[vbox := Dead] + EIGHT_DEAD + [a, b]
  {
  }

  method SubscribeAndSpawn(t: ComHandles, vbox: nat, sourceObj: nat, listenerObj: nat, kept: bool)
    returns (threadSource: nat, threadListener: nat)
    requires t.Healthy() && IsTo(t.View(), vbox) && sourceObj < |t.count| && listenerObj < |t.count|
    modifies t
    ensures t.Healthy() && t.external == Bump(old(t.external), listenerObj, if kept then 1 else 0)
    ensures t.handles == old(t.handles)[vbox := Dead] + EIGHT_DEAD + [To(sourceObj), To(listenerObj)]
    ensures threadSource == |t.handles| - 2 && threadListener == |t.handles| - 1
    ensures t.count
         == Bump(Bump(Bump(old(t.count), old(t.handles)[vbox].obj, -1), sourceObj, 1), listenerObj, if kept then 2 else 1)
  {
    t.HandlesInRange();
    ghost var h0, c0 := t.handles, t.count;
    var source, listener, current := Subscribe(t, vbox, sourceObj, listenerObj);
    ghost var h1, c1 := t.handles, t.count;
    assert h1[source] == To(sourceObj) && h1[listener] == To(listenerObj) && h1[current] == h0[vbox];
    RegisterListener(t, source, listener, kept);
    ghost var r := t.count;
    threadSource, threadListener := SpawnThread(t, source, listener);
    ghost var h2, c2 := t.handles, t.count;
    assert h2[source] == h1[source] && h2[listener] == h1[listener] && h2[current] == h1[current] && h2[vbox].Empty?;
    LeaveScope(t, vbox, source, listener, current);
    ScopeHandles(h0, h1, h2, t.handles, vbox, To(sourceObj), To(listenerObj));
    ScopeCounts(c0, c1, r, c2, t.count, h0[vbox].obj, sourceObj, listenerObj, if kept then 1 else 0);
  }

  /** The by-value argument is consumed: its object has one reference less.  The detached thread is left with exactly one
      reference each to the event source and the listener, besides the one the server may have taken to the listener; every
      other handle the function made is gone; and no move assignment has overwritten a handle, whatever objects are the
      same. */
  method ListenObject(t: ComHandles, vbox: nat, sourceObj: nat, listenerObj: nat, kept: bool)
    returns (threadSource: nat, threadListener: nat)
    requires t.Healthy() && IsTo(t.View(), vbox) && sourceObj < |t.count| && listenerObj < |t.count|
    modifies t
    ensures t.Healthy() && t.external == Bump(old(t.external), listenerObj, if kept then 1 else 0)
    ensures t.handles == old(t.handles)[vbox := Dead] + EIGHT_DEAD + [To(sourceObj), To(listenerObj)]
    ensures threadSource == |t.handles| - 2 && threadListener == |t.handles| - 1
    ensures t.count
         == Bump(Bump(Bump(old(t.count), old(t.handles)[vbox].obj, -1), sourceObj, 1), listenerObj, if kept then 2 else 1)
    ensures forall o: nat :: t.Overwritten(o) == old(t.Overwritten(o))
  {
    ghost var before := t.View();
    t.LawForAll();
    threadSource, threadListener := SubscribeAndSpawn(t, vbox, sourceObj, listenerObj, kept);
    t.LawForAll();
    ScopeBalances(before, t.View(), vbox, sourceObj, listenerObj, if kept then 1 else 0);
  }

  /** What counts and handles say together about the references nobody owns. */
  lemma ScopeBalances(w: World, v: World, vbox: nat, a: nat, b: nat, k: int)
    requires InRange(w) && IsTo(w, vbox) && a < |w.count| && b < |w.count| && v.external == Bump(w.external, b, k)
    requires v.handles == w.handles[vbox := Dead] + EIGHT_DEAD + [To(a), To(b)]
    requires v.count == Bump(Bump(Bump(w.count, w.handles[vbox].obj, -1), a, 1), b, 1 + k)
    ensures forall o: nat :: o < |w.count| ==>
              v.count[o] - v.external[o] - Refs(v.handles, o) == w.count[o] - w.external[o] - Refs(w.handles, o)
  {
    forall o: nat | o < |w.count|
      ensures v.count[o] - v.external[o] - Refs(v.handles, o) == w.count[o] - w.external[o] - Refs(w.handles, o)
    {
      ScopeRefs(w.handles, vbox, a, b, o);
    }
  }

  lemma ScopeRefs(h0: seq<Slot>, vbox: nat, a: nat, b: nat, o: nat)
    requires vbox < |h0|
    ensures Refs(h0[vbox := Dead] + EIGHT_DEAD + [To(a), To(b)], o) + (if h0[vbox] == To(o) then 1 else 0)
         == Refs(h0, o) + (if a == o then 1 else 0) + (if b == o then 1 else 0)
  {
    RefsUpdate(h0, vbox, Dead, o);
    assert multiset(EIGHT_DEAD)[To(o)] == 0;
    var h := h0[vbox := Dead] + EIGHT_DEAD;
    assert h + [To(a), To(b)] == h + [To(a)] + [To(b)];
    RefsPush(h, To(a), o);
    RefsPush(h + [To(a)], To(b), o);
  }

  // ---- the polling loop ----

  lemma CreditBack(c: seq<int>, slot: Slot)
    requires slot.To? ==> slot.obj < |c|
    ensures Credit(Credit(c, slot, 1), slot, -1) == c
  {
  }

  /** The `if` statement over the event's state-change interface: its handle lives to the end of it, `break` or not. */
  method Inspect(t: ComHandles, event: nat, change: Option<StateChange>) returns (stop: bool, printed: seq<int>)
    requires t.Healthy() && IsTo(t.View(), event) && (change.Some? ==> change.value.obj < |t.count|)
    modifies t
    ensures t.Healthy() && t.count == old(t.count) && t.external == old(t.external)
    ensures t.handles == old(t.handles) + [Dead]
    ensures stop <==> change.Some? && change.value.compared == 5
    ensures printed == if change.Some? then [change.value.printed] else []
  {
    stop, printed := false, [];
    var interface := if change.Some? then Some(change.value.obj) else None;
    CreditBack(t.count, SlotOf(interface));
    var stateChanged := t.QueryInterface(event, interface);
    if t.handles[stateChanged].To? {
      printed := [change.value.printed];
      if change.value.compared == RUNNING {
        stop := true;
      }
    }
    t.Destroy(stateChanged);
  }

  /** `getEvent` is called through both of the thread's handles and yields an owned event, or null. */
  method GetEvent(t: ComHandles, source: nat, listener: nat, p: Poll) returns (event: nat)
    requires t.Healthy() && IsTo(t.View(), source) && IsTo(t.View(), listener)
    requires p.Event? ==> p.obj < |t.count| && (p.change.Some? ==> p.change.value.obj < |t.count|)
    modifies t
    ensures t.Healthy() && t.external == old(t.external)
    ensures event == |old(t.handles)|
    ensures t.handles == old(t.handles) + [if p.Event? then To(p.obj) else Empty]
    ensures t.count == if p.Event? then Bump(old(t.count), p.obj, 1) else old(t.count)
  {
    event := t.CallAndWrap(if p.Event? then Some(p.obj) else None);
  }

  /** `eventProcessed` passes the raw pointers of three handles, none of them null. */
  method EventProcessed(t: ComHandles, source: nat, listener: nat, event: nat) returns (acknowledged: nat)
    requires IsTo(t.View(), source) && IsTo(t.View(), listener) && IsTo(t.View(), event)
    ensures acknowledged == t.handles[event].obj
  {
    acknowledged := t.handles[event].obj;
  }

  /** One round of the loop; `stopped` is its `break`.  Whatever the round meets, every count is as it was before. */
  method Round(t: ComHandles, source: nat, listener: nat, p: Poll)
    returns (stopped: bool, acknowledged: seq<nat>, printed: seq<int>)
    requires t.Healthy() && IsTo(t.View(), source) && IsTo(t.View(), listener)
    requires p.Event? ==> p.obj < |t.count| && (p.change.Some? ==> p.change.value.obj < |t.count|)
    modifies t
    ensures t.Healthy() && t.count == old(t.count) && t.external == old(t.external)
    ensures t.handles == old(t.handles) + if p.Event? then [Dead, Dead] else [Dead]
    ensures stopped <==> p.Event? && p.change.Some? && p.change.value.compared == 5
    ensures acknowledged == if p.Event? && !(p.change.Some? && p.change.value.compared == 5) then [p.obj] else []
    ensures printed == if p.Event? && p.change.Some? then [p.change.value.printed] else []
  {
    stopped, acknowledged, printed := false, [], [];
    CreditBack(t.count, if p.Event? then To(p.obj) else Empty);
    var event := GetEvent(t, source, listener, p);
    if t.handles[event].Empty? {
      t.Destroy(event);
      return;
    }
    stopped, printed := Inspect(t, event, p.change);
    if !stopped {
      var o := EventProcessed(t, source, listener, event);
      acknowledged := [o];
    }
    t.Destroy(event);
  }

  lemma GrownFurther(h0: seq<Slot>, h: seq<Slot>, p: Poll)
    requires GrownByDead(h0, h)
    ensures GrownByDead(h0, h + if p.Event? then [Dead, Dead] else [Dead])
  {
  }

  lemma OneMore(polls: seq<Poll>, k: nat)
    requires k < |polls|
    ensures Events(polls[..k + 1]) == Events(polls[..k]) + if polls[k].Event? then [polls[k].obj] else []
    ensures States(polls[..k + 1])
         == States(polls[..k]) + if polls[k].Event? && polls[k].change.Some? then [polls[k].change.value.printed] else []
  {
    assert polls[..k + 1][..k] == polls[..k];
  }

  /** The loop until its `break`, or until the stream of polls runs dry. */
  method PollUntilStop(t: ComHandles, source: nat, listener: nat, polls: seq<Poll>)
    returns (stopped: bool, acknowledged: seq<nat>, printed: seq<int>)
    requires t.Healthy() && IsTo(t.View(), source) && IsTo(t.View(), listener)
    requires forall k :: 0 <= k < |polls| && polls[k].Event? ==>
               polls[k].obj < |t.count| && (polls[k].change.Some? ==> polls[k].change.value.obj < |t.count|)
    modifies t
    ensures t.Healthy() && t.count == old(t.count) && t.external == old(t.external)
    ensures GrownByDead(old(t.handles), t.handles)
    ensures stopped <==> FirstStop(polls) < |polls|
    ensures acknowledged == Acknowledged(polls)
    ensures printed == States(polls[..if stopped then FirstStop(polls) + 1 else |polls|])
  {
    stopped, acknowledged, printed := false, [], [];
    var k := 0;
    while k < |polls|
      invariant 0 <= k <= |polls| && !stopped
      invariant t.Healthy() && t.count == old(t.count) && t.external == old(t.external)
      invariant GrownByDead(old(t.handles), t.handles)
      invariant forall j :: 0 <= j < k ==> !IsStop(polls[j])
      invariant acknowledged == Events(polls[..k]) && printed == States(polls[..k])
    {
      OneMore(polls, k);
      GrownFurther(old(t.handles), t.handles, polls[k]);
      var s, a, o := Round(t, source, listener, polls[k]);
      acknowledged, printed := acknowledged + a, printed + o;
      if s {
        stopped := true;
        return;
      }
      k := k + 1;
    }
  }

  /** The thread's loop over a stream of polls of any length.  It acknowledges exactly the events before the first change
      to Running, in order, and stops if and only if there is such a change.  Until then every count is where it was; when
      it stops, the two references the closure held are given back. */
  method PollEvents(t: ComHandles, source: nat, listener: nat, polls: seq<Poll>)
    returns (stopped: bool, acknowledged: seq<nat>, printed: seq<int>)
    requires t.Healthy() && IsTo(t.View(), source) && IsTo(t.View(), listener) && source != listener
    requires forall k :: 0 <= k < |polls| && polls[k].Event? ==>
               polls[k].obj < |t.count| && (polls[k].change.Some? ==> polls[k].change.value.obj < |t.count|)
    modifies t
    ensures t.Healthy() && t.external == old(t.external)
    ensures stopped <==> exists k :: 0 <= k < |polls| && polls[k].Event? && polls[k].change.Some?
                                     && polls[k].change.value.compared == 5
    ensures acknowledged == Events(polls[..FirstStop(polls)])
    ensures acknowledged == Acknowledged(polls)
    ensures printed == States(polls[..if stopped then FirstStop(polls) + 1 else |polls|])
    ensures GrownByDead(if stopped then old(t.handles)[listener := Dead][source := Dead] else old(t.handles), t.handles)
    ensures t.count == if stopped then Bump(Bump(old(t.count), old(t.handles)[listener].obj, -1), old(t.handles)[source].obj, -1)
                       else old(t.count)
  {
    stopped, acknowledged, printed := PollUntilStop(t, source, listener, polls);
    if stopped {
      assert IsStop(polls[FirstStop(polls)]);
      t.Destroy(listener);
      t.Destroy(source);
    }
  }

  /** From the call of `listenObject` to the end of its thread, only the argument's reference is used up, and the server's
      own reference to the listener, if it took one, is all that is added. */
  method ListenToTheEnd(t: ComHandles, vbox: nat, sourceObj: nat, listenerObj: nat, kept: bool, polls: seq<Poll>)
    returns (acknowledged: seq<nat>)
    requires t.Healthy() && IsTo(t.View(), vbox) && sourceObj < |t.count| && listenerObj < |t.count|
    requires forall k :: 0 <= k < |polls| && polls[k].Event? ==>
               polls[k].obj < |t.count| && (polls[k].change.Some? ==> polls[k].change.value.obj < |t.count|)
    requires exists k :: 0 <= k < |polls| && polls[k].Event? && polls[k].change.Some? && polls[k].change.value.compared == 5
    modifies t
    ensures t.Healthy() && acknowledged == Acknowledged(polls)
    ensures t.count == Bump(Bump(old(t.count), old(t.handles)[vbox].obj, -1), listenerObj, if kept then 1 else 0)
    ensures t.external == Bump(old(t.external), listenerObj, if kept then 1 else 0)
    ensures GrownByDead(old(t.handles)[vbox := Dead], t.handles)
  {
    t.HandlesInRange();
    ghost var h0, c0 := t.handles, t.count;
    var source, listener := ListenObject(t, vbox, sourceObj, listenerObj, kept);
    ghost var h1, c1 := t.handles, t.count;
    assert h1[source] == To(sourceObj) && h1[listener] == To(listenerObj);
    var _, a, _ := PollEvents(t, source, listener, polls);
    acknowledged := a;
    ListenCounts(c0, c1, t.count, h0[vbox].obj, sourceObj, listenerObj, if kept then 1 else 0);
    ListenHandles(h0, h1, t.handles, vbox, To(sourceObj), To(listenerObj));
  }

  lemma ListenCounts(c0: seq<int>, c1: seq<int>, c2: seq<int>, v: nat, a: nat, b: nat, k: int)
    requires v < |c0| && a < |c0| && b < |c0|
    requires c1 == Bump(Bump(Bump(c0, v, -1), a, 1), b, 1 + k)
    requires c2 == Bump(Bump(c1, b, -1), a, -1)
    ensures c2 == Bump(Bump(c0, v, -1), b, k)
  {
  }

  lemma ListenHandles(h0: seq<Slot>, h1: seq<Slot>, h2: seq<Slot>, vbox: nat, a: Slot, b: Slot)
    requires vbox < |h0| && h1 == h0[vbox := Dead] + EIGHT_DEAD + [a, b]
    requires GrownByDead(h1[|h1| - 1 := Dead][|h1| - 2 := Dead], h2)
    ensures GrownByDead(h0[vbox := Dead], h2)
  {
    var h := h1[|h1| - 1 := Dead][|h1| - 2 := Dead];
    assert h2[..|h|] == h;
    forall k {:trigger h2[k]} | |h0| <= k < |h2|
      ensures h2[k].Dead?
    {
      if k < |h| {
        assert h2[k] == h[k];
      }
    }
    assert h0[vbox := Dead] <= h <= h2;
  }
}
