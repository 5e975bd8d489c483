/** Another client of the handles: the loop by which every operation of the API reports a chain of errors.  It steps along
    the chain by move-assigning the next error to the handle of the current one, and so never releases the current one. */
module ErrorReport {
  import opened Options
  import opened HandleModel
  import opened HandleLaws
  import opened ComPtr

  /** One more reference to each of these objects, as often as it is listed. */
  function CountAll(c: seq<int>, objects: seq<nat>): seq<int> {
    if objects == [] then c else Bump(CountAll(c, objects[..|objects| - 1]), objects[|objects| - 1], 1)
  }

  lemma {:induction false} CountAllAt(c: seq<int>, objects: seq<nat>, o: nat)
    requires o < |c|
    ensures |CountAll(c, objects)| == |c| && CountAll(c, objects)[o] == c[o] + multiset(objects)[o]
  {
    if objects != [] {
      CountAllAt(c, objects[..|objects| - 1], o);
      assert objects == objects[..|objects| - 1] + [objects[|objects| - 1]];
    }
  }

  function At(chain: seq<nat>, k: nat): Option<nat> {
    if k < |chain| then Some(chain[k]) else None
  }

  /** The `while` loop: on entry the handle owns the first error of the chain, if there is one. */
  method WalkChain(t: ComHandles, vboxError: nat, chain: seq<nat>) returns (texts: seq<nat>)
    requires t.Healthy() && vboxError < |t.handles| && t.handles[vboxError] == SlotOf(At(chain, 0))
    requires forall k :: 0 <= k < |chain| ==> chain[k] < |t.count|
    modifies t
    ensures t.Healthy() && t.external == old(t.external)
    ensures texts == chain
    ensures GrownByDead(old(t.handles)[vboxError := Empty], t.handles)
    ensures chain != [] ==> t.count == CountAll(old(t.count), chain[1..])
    ensures chain == [] ==> t.count == old(t.count)
  {
    texts := [];
    var k := 0;
    ghost var rest := if chain == [] then [] else chain[1..];
    while t.handles[vboxError].To?
      invariant 0 <= k <= |chain| && texts == chain[..k]
      invariant t.Healthy() && t.external == old(t.external)
      invariant vboxError < |t.handles| && t.handles[vboxError] == SlotOf(At(chain, k))
      invariant GrownByDead(old(t.handles)[vboxError := t.handles[vboxError]], t.handles)
      invariant |t.count| == |old(t.count)|
      invariant t.count == CountAll(old(t.count), rest[..if k < |rest| then k else |rest|])
      decreases |chain| - k
    {
      texts := texts + [t.handles[vboxError].obj];
      StepAlong(old(t.count), chain, rest, k);
      t.AssignProperty(vboxError, At(chain, k + 1));
      k := k + 1;
    }
    assert chain[..k] == chain;
    assert rest[..|rest|] == rest;
  }

  lemma StepAlong(c: seq<int>, chain: seq<nat>, rest: seq<nat>, k: nat)
    requires k < |chain| && rest == chain[1..]
    ensures Credit(CountAll(c, rest[..k]), SlotOf(At(chain, k + 1)), 1)
         == CountAll(c, rest[..if k + 1 < |rest| then k + 1 else |rest|])
  {
    if k < |rest| {
      assert rest[..k + 1][..k] == rest[..k];
      assert rest[k] == chain[k + 1];
    }
  }

  lemma ChainCounted(c: seq<int>, info: nat, chain: seq<nat>, o: nat)
    requires o < |c| && info < |c|
    ensures var c2 := Credit(Bump(c, info, 1), SlotOf(At(chain, 0)), 1);
            var c3 := if chain == [] then c2 else CountAll(c2, chain[1..]);
            |c3| == |c| && Bump(c3, info, -1)[o] == c[o] + multiset(chain)[o]
  {
    var c2 := Credit(Bump(c, info, 1), SlotOf(At(chain, 0)), 1);
    if chain != [] {
      CountAllAt(c2, chain[1..], o);
      assert chain == [chain[0]] + chain[1..];
    }
  }

  lemma HandlesGone(h0: seq<Slot>, a: Slot, b: Slot, h: seq<Slot>)
    requires GrownByDead((h0 + [a, b])[|h0| + 1 := Empty], h)
    ensures |h| >= |h0| + 2 && h[|h0|] == a && h[|h0| + 1].Empty?
    ensures GrownByDead(h0, h[|h0| + 1 := Dead][|h0| := Dead])
  {
  }

  lemma SameRefs(h0: seq<Slot>, h: seq<Slot>, o: nat)
    requires GrownByDead(h0, h)
    ensures Refs(h, o) == Refs(h0, o)
  {
    assert h == h0 + h[|h0|..];
    assert To(o) !in h[|h0|..];
  }

  method ReportAndCount(t: ComHandles, info: nat, chain: seq<nat>) returns (texts: seq<nat>)
    requires t.Healthy() && info < |t.count| && forall k :: 0 <= k < |chain| ==> chain[k] < |t.count|
    modifies t
    ensures t.Healthy() && t.external == old(t.external) && texts == chain
    ensures GrownByDead(old(t.handles), t.handles)
    ensures var c2 := Credit(Bump(old(t.count), info, 1), SlotOf(At(chain, 0)), 1);
            t.count == Bump(if chain == [] then c2 else CountAll(c2, chain[1..]), info, -1)
  {
    ghost var h0 := t.handles;
    var errorInfo := t.CallAndWrap(Some(info));
    var vboxError := t.QueryInterface(errorInfo, At(chain, 0));
    assert t.handles == h0 + [To(info), SlotOf(At(chain, 0))];
    texts := WalkChain(t, vboxError, chain);
    HandlesGone(h0, To(info), SlotOf(At(chain, 0)), t.handles);
    t.Destroy(vboxError);
    t.Destroy(errorInfo);
  }

  /** Reporting leaves every error of the chain with one reference more than before for each time it was visited, each the
      work of one overwriting move; so the counts are back where they were if and only if there was no error to report.
      Nothing else changes, and every handle used is gone. */
  method ReportErrors(t: ComHandles, info: nat, chain: seq<nat>) returns (texts: seq<nat>)
    requires t.Healthy() && info < |t.count| && forall k :: 0 <= k < |chain| ==> chain[k] < |t.count|
    modifies t
    ensures t.Healthy() && t.external == old(t.external) && texts == chain
    ensures GrownByDead(old(t.handles), t.handles)
    ensures |t.count| == |old(t.count)|
    ensures forall o: nat :: o < |t.count| ==> t.count[o] == old(t.count)[o] + multiset(chain)[o]
    ensures forall o: nat :: t.Overwritten(o) == old(t.Overwritten(o)) + multiset(chain)[o]
    ensures t.count == old(t.count) <==> chain == []
  {
    ghost var before := t.View();
    t.LawForAll();
    texts := ReportAndCount(t, info, chain);
    t.LawForAll();
    ReportBalances(before, t.View(), info, chain);
  }

  lemma ReportBalances(w: World, v: World, info: nat, chain: seq<nat>)
    requires InRange(w) && info < |w.count| && forall k :: 0 <= k < |chain| ==> chain[k] < |w.count|
    requires GrownByDead(w.handles, v.handles) && v.external == w.external
    requires var c2 := Credit(Bump(w.count, info, 1), SlotOf(At(chain, 0)), 1);
             v.count == Bump(if chain == [] then c2 else CountAll(c2, chain[1..]), info, -1)
    ensures |v.count| == |w.count|
    ensures forall o: nat :: o < |w.count| ==>
              && v.count[o] == w.count[o] + multiset(chain)[o]
              && v.count[o] - v.external[o] - Refs(v.handles, o)
              == w.count[o] - w.external[o] - Refs(w.handles, o) + multiset(chain)[o]
    ensures forall o: nat :: o >= |w.count| ==> multiset(chain)[o] == 0
    ensures v.count == w.count <==> chain == []
  {
    forall o: nat | o < |w.count|
      ensures |v.count| == |w.count| && v.count[o] == w.count[o] + multiset(chain)[o]
      ensures Refs(v.handles, o) == Refs(w.handles, o)
    {
      ChainCounted(w.count, info, chain, o);
      SameRefs(w.handles, v.handles, o);
    }
    if chain != [] {
      assert chain[0] in multiset(chain);
    }
  }
}
