// Runs of the layer store: any number of calls by any number of users, interleaved
// at every point where the code lets go of its locks (docker/layer/layer_store.go,
// docker/layer/migration.go, docker/layer/mounted_layer.go).
module LayerRuns {
  import opened Options
  import opened ChainIDs
  import opened Layers
  import opened LayerStates
  import opened LayerStores
  import opened LayerSteps

  // ---- What the invariant says about the store at any moment ----

  ghost function MountsOn(mounts: map<string, MountedLayer>, l: RoLayer): set<string> {
    set n | n in mounts && mounts[n].parent == l
  }

  ghost function CallsHolding(frames: map<nat, Frame>, l: RoLayer): set<nat> {
    set t | t in frames && frames[t].Holds() == l
  }

  ghost function MountHolders(ns: set<string>): set<Holder> {
    set n | n in ns :: Mount(n)
  }

  ghost function CallHolders(ts: set<nat>): set<Holder> {
    set t | t in ts :: Call(t)
  }

  lemma {:induction false} AsManyMounts(ns: set<string>)
    ensures |MountHolders(ns)| == |ns|
  {
    if ns != {} {
      var n :| n in ns;
      AsManyMounts(ns - {n});
      assert MountHolders(ns) == MountHolders(ns - {n}) + {Mount(n)};
    }
  }

  lemma {:induction false} AsManyCalls(ts: set<nat>)
    ensures |CallHolders(ts)| == |ts|
  {
    if ts != {} {
      var t :| t in ts;
      AsManyCalls(ts - {t});
      assert CallHolders(ts) == CallHolders(ts - {t}) + {Call(t)};
    }
  }

  // The reference count of a layer is the number of its live handles, of its child
  // layers, of the mounts on it, and of the calls in progress that have counted it.
  lemma CountIsWhatHolds(ls: LayerStore, l: RoLayer)
    requires ls.Valid() && InMap(ls.layerMap, l)
    ensures l.referenceCount == |l.references| + |Children(ls.layerMap, l)| + |MountsOn(ls.mounts, l)| + |CallsHolding(ls.frames, l)|
  {
    ls.LayerIsReal(l);
    assert ls.state.counts[l.chainID] == HolderCount(ls.state, l.chainID);
    HoldersAreMountsAndCalls(ls.state.holds, ls.mounts, ls.frames, l);
  }

  lemma HoldersAreMountsAndCalls(holds: map<Holder, RoLayer>, mounts: map<string, MountedLayer>, frames: map<nat, Frame>, l: RoLayer)
    requires HoldsMatch(holds, mounts, frames)
    ensures |HoldersOf(holds, l)| == |MountsOn(mounts, l)| + |CallsHolding(frames, l)|
  {
    var ms, cs := MountHolders(MountsOn(mounts, l)), CallHolders(CallsHolding(frames, l));
    AsManyMounts(MountsOn(mounts, l));
    AsManyCalls(CallsHolding(frames, l));
    forall h ensures h in HoldersOf(holds, l) <==> h in ms + cs {
      HolderIsMountOrCall(holds, mounts, frames, l, h);
    }
    assert HoldersOf(holds, l) == ms + cs && ms !! cs;
  }

  lemma HolderIsMountOrCall(holds: map<Holder, RoLayer>, mounts: map<string, MountedLayer>, frames: map<nat, Frame>, l: RoLayer, h: Holder)
    requires HoldsMatch(holds, mounts, frames)
    ensures h in HoldersOf(holds, l) <==> h in MountHolders(MountsOn(mounts, l)) || h in CallHolders(CallsHolding(frames, l))
  {
    assert h in holds ==> HoldFits(h, holds[h], mounts, frames);
  }

  // A live handle keeps its layer and every layer below in the store.
  lemma LiveHandleKeepsAncestry(ls: LayerStore, ref: LayerHandle, i: nat)
    requires ls.Valid() && ls.Live(ref)
    ensures Rooted(ref.layer)
    ensures i < |Ancestry(ref.layer)| ==> InMap(ls.layerMap, Ancestry(ref.layer)[i])
  {
    assert ref.layer == ls.layerMap[ref.layer.chainID];
    AncestryInMap(ls.state, ls.fromBytes, ref.layer, i);
  }

  // A mount reference in use keeps its mount in the store, and every layer below.
  lemma MountInUseStays(ls: LayerStore, r: RWReference, i: nat)
    requires ls.Valid() && r in ls.rwReferences && r.activityCount > 0
    ensures r.mount.name in ls.mounts && ls.mounts[r.mount.name] == r.mount && r in r.mount.references
    ensures r.mount.parent != null ==>
              Rooted(r.mount.parent) && (i < |Ancestry(r.mount.parent)| ==> InMap(ls.layerMap, Ancestry(r.mount.parent)[i]))
  {
    assert r in r.mount.references;
    if r.mount.parent != null {
      assert Mount(r.mount.name) in ls.state.holds;
      AncestryInMap(ls.state, ls.fromBytes, r.mount.parent, i);
    }
  }

  // Once no call is in progress, no mount is left and no handle is live, a store
  // that has left no layer unheld is empty.
  lemma UnusedStoreIsEmpty(ls: LayerStore)
    requires ls.Valid() && NoneUnheld(ls.state)
    requires ls.frames == map[] && ls.mounts == map[] && forall id | id in ls.layerMap :: ls.layerMap[id].references == {}
    ensures ls.layerMap == map[] && ls.metadata == map[]
  {
    assert forall h: Holder, l: RoLayer :: !HoldFits(h, l, ls.mounts, ls.frames);
    assert ls.state.holds.Keys == {};
    UnusedIsEmpty(ls.state, ls.fromBytes);
    assert ls.metadata.Keys == {};
  }

  // ---- Runs ----

  ghost function SetOf<T>(s: seq<T>): set<T> {
    set x | x in s
  }

  // What steps of some calls do not do: end a live handle outside `gone`, change
  // another call's place, or, without failures, leave a layer unheld.
  ghost predicate Considerate(s: State, s': State, frames: map<nat, Frame>, frames': map<nat, Frame>,
                              calls: set<nat>, gone: set<LayerHandle>, faultless: bool)
  {
    && HandlesKept(s, s', gone)
    && FramesKept(frames, frames', calls)
    && (faultless && NoneUnheld(s) ==> NoneUnheld(s'))
  }

  ghost predicate FramesKept(frames: map<nat, Frame>, frames': map<nat, Frame>, calls: set<nat>) {
    forall u {:trigger u in frames} {:trigger u in frames'} | u !in calls ::
      (u in frames <==> u in frames') && (u in frames ==> frames'[u] == frames[u])
  }

  lemma FramesChanged(frames: map<nat, Frame>, frames': map<nat, Frame>, calls: set<nat>, t: nat)
    requires frames' == frames || (t in calls && (frames' == frames - {t} || (t in frames' && frames' == frames[t := frames'[t]])))
    ensures FramesKept(frames, frames', calls)
  {
  }

  lemma Unchanged(s: State, gone: set<LayerHandle>)
    ensures HandlesKept(s, s, gone)
  {
  }

  lemma Taken(s: State, h: Holder, l: RoLayer)
    requires l.chainID in s.counts
    ensures HandlesKept(s, Take(s, h, l), {}) && (NoneUnheld(s) ==> NoneUnheld(Take(s, h, l)))
  {
  }

  lemma Handled(s: State, h: Holder, ref: LayerHandle)
    requires h in s.holds && s.holds[h].chainID in s.handles
    ensures HandlesKept(s, HoldToHandle(s, h, ref), {}) && (NoneUnheld(s) ==> NoneUnheld(HoldToHandle(s, h, ref)))
  {
  }

  lemma Passed(s: State, h: Holder, h': Holder)
    requires h in s.holds
    ensures HandlesKept(s, Pass(s, h, h'), {}) && (NoneUnheld(s) ==> NoneUnheld(Pass(s, h, h')))
  {
  }

  lemma Inserted(s: State, l: RoLayer, ref: LayerHandle, h: Holder)
    requires l.chainID !in s.handles
    ensures HandlesKept(s, Insert(s, l, ref, h), {}) && (NoneUnheld(s) ==> NoneUnheld(Insert(s, l, ref, h)))
  {
  }

  lemma Unhandled(s: State, ref: LayerHandle, h: Holder)
    requires ref.layer.chainID in s.handles
    ensures HandlesKept(s, HandleToHold(s, ref, h), {ref}) && (NoneUnheld(s) ==> NoneUnheld(HandleToHold(s, ref, h)))
  {
  }

  lemma ReleasedEvents(s: State, h: Holder, faults: Faults, fromBytes: string -> string)
    requires Sound(s, fromBytes) && h in s.holds
    ensures HandlesKept(s, Released(s, h, faults, fromBytes).state, {})
    ensures faults == Faults({}, {}) && NoneUnheld(s) ==> NoneUnheld(Released(s, h, faults, fromBytes).state)
  {
    hide Sound, Released;
    ReleasedKeepsHandles(s, h, faults, fromBytes);
    if faults == Faults({}, {}) && NoneUnheld(s) {
      ReleasedLeavesNoneUnheld(s, h, faults, fromBytes);
    }
  }

  lemma HandedOut(s: State, h: Holder, l: RoLayer, ref: LayerHandle)
    requires l.chainID in s.counts && l.chainID in s.handles
    ensures HandlesKept(s, HoldToHandle(Take(s, h, l), h, ref), {})
    ensures NoneUnheld(s) ==> NoneUnheld(HoldToHandle(Take(s, h, l), h, ref))
  {
    hide HandlesKept, NoneUnheld;
    Taken(s, h, l);
    Handled(Take(s, h, l), h, ref);
    HandlesKeptTwice(s, Take(s, h, l), HoldToHandle(Take(s, h, l), h, ref), {}, {}, {});
  }

  // ---- Steps as methods ----

  lemma MapIsStates(ls: LayerStore)
    requires ls.Valid()
    ensures ls.state.layerMap == ls.layerMap
    ensures ls.state.counts.Keys == ls.state.handles.Keys == ls.layerMap.Keys
  {
  }

  method DoGetStart(ls: LayerStore, t: nat, id: ChainID, ghost handed: seq<LayerHandle>, ghost rws: seq<RWReference>)
    requires ls.Valid()
    modifies ls`state, ls`frames, ls.layers
    ensures GetStarted(old(WorldOf(ls, handed, rws)), WorldOf(ls, handed, rws), t, id)
    ensures ls.Valid() && ls.RWReferencesKept()
  {
    hide Sound, HoldsMatch, MountsOrdered, LayerStore.StateIsReal, LayerStore.RWReferencesTracked;
    MapIsStates(ls);
    if t !in ls.frames {
      var ok := ls.GetBegin(t, id);
    }
  }

  method DoGetEnd(ls: LayerStore, t: nat, ghost handed: seq<LayerHandle>, ghost rws: seq<RWReference>) returns (refs: seq<LayerHandle>)
    requires ls.Valid()
    modifies ls`state, ls`frames, ls.layers
    ensures GetEnded(old(WorldOf(ls, handed, rws)), WorldOf(ls, handed + refs, rws), t)
    ensures ls.Valid() && ls.RWReferencesKept() && forall ref | ref in refs :: fresh(ref)
  {
    hide Sound, HoldsMatch, MountsOrdered, LayerStore.StateIsReal, LayerStore.RWReferencesTracked;
    refs := [];
    assert handed + [] == handed;
    if t in ls.frames && ls.frames[t].Got? {
      var ref := ls.GetFinish(t);
      refs := [ref];
    }
  }

  method DoRegisterStart(ls: LayerStore, t: nat, parent: ChainID, limited: bool, ghost handed: seq<LayerHandle>, ghost rws: seq<RWReference>)
    requires ls.Valid()
    modifies ls`state, ls`frames, ls.layers
    ensures RegisterStarted(old(WorldOf(ls, handed, rws)), WorldOf(ls, handed, rws), t, parent, limited)
    ensures ls.Valid() && ls.RWReferencesKept()
  {
    hide Sound, HoldsMatch, MountsOrdered, LayerStore.StateIsReal, LayerStore.RWReferencesTracked;
    MapIsStates(ls);
    if t !in ls.frames {
      var r := ls.RegisterBegin(t, parent, limited);
    }
  }

  method DoRegisterFail(ls: LayerStore, t: nat, ghost handed: seq<LayerHandle>, ghost rws: seq<RWReference>)
    requires ls.Valid()
    modifies ls`frames
    ensures RegisterFailed(old(WorldOf(ls, handed, rws)), WorldOf(ls, handed, rws), t)
    ensures ls.Valid() && ls.RWReferencesKept()
  {
    hide Sound, HoldsMatch, MountsOrdered, LayerStore.StateIsReal, LayerStore.RWReferencesTracked;
    if t in ls.frames && ls.frames[t].Registering? {
      ls.RegisterAbort(t);
    }
  }

  method DoRegisterEnd(ls: LayerStore, t: nat, diffID: DiffID, size: int, cacheID: string, committed: bool,
                       ghost handed: seq<LayerHandle>, ghost rws: seq<RWReference>)
    returns (refs: seq<LayerHandle>)
    requires ls.Valid()
    modifies ls`layerMap, ls`metadata, ls`state, ls`frames, ls`layers, ls.layers
    ensures RegisterEnded(old(WorldOf(ls, handed, rws)), WorldOf(ls, handed + refs, rws), t, diffID, size, cacheID, committed, ls.fromBytes)
    ensures ls.Valid() && ls.RWReferencesKept() && forall ref | ref in refs :: fresh(ref)
    ensures fresh(ls.layers - old(ls.layers))
  {
    hide LayerStore.LayersValid, NewChainID, HoldsMatch, MountsOrdered, LayerStore.RWReferencesTracked;
    MapIsStates(ls);
    refs := [];
    assert handed + [] == handed;
    if t in ls.frames && ls.frames[t].Registering? {
      var ref := ls.RegisterFinish(t, diffID, size, cacheID, committed);
      refs := if ref == null then [] else [ref];
    }
  }

  method DoParentRelease(ls: LayerStore, t: nat, faults: Faults, ghost handed: seq<LayerHandle>, ghost rws: seq<RWReference>)
    requires ls.Valid()
    modifies ls`layerMap, ls`metadata, ls`state, ls`frames, ls.layers
    ensures ParentReleased(old(WorldOf(ls, handed, rws)), WorldOf(ls, handed, rws), t, faults, ls.fromBytes)
    ensures ls.Valid() && ls.RWReferencesKept()
  {
    hide Sound, HoldsMatch, MountsOrdered, Released, LayerStore.StateIsReal, LayerStore.RWReferencesTracked;
    if t in ls.frames && ls.frames[t].CleaningUp? {
      var report, err := ls.CleanUp(t, faults);
    }
  }

  method DoMountReleaseEnd(ls: LayerStore, t: nat, faults: Faults, ghost handed: seq<LayerHandle>, ghost rws: seq<RWReference>)
    requires ls.Valid()
    modifies ls`layerMap, ls`metadata, ls`state, ls`frames, ls`mountL, ls.layers
    ensures MountReleaseEnded(old(WorldOf(ls, handed, rws)), WorldOf(ls, handed, rws), t, faults, ls.fromBytes)
    ensures ls.Valid() && ls.RWReferencesKept()
  {
    hide Sound, HoldsMatch, MountsOrdered, Released, LayerStore.StateIsReal, LayerStore.RWReferencesTracked;
    if t in ls.frames && ls.frames[t].Unmounting? {
      var report, err := ls.ReleaseRWFinish(t, faults);
    }
  }

  method DoHandleRelease(ls: LayerStore, i: nat, faults: Faults, handed: seq<LayerHandle>, ghost rws: seq<RWReference>)
    requires ls.Valid()
    modifies ls`layerMap, ls`metadata, ls`state, ls.layers
    ensures HandleReleased(old(WorldOf(ls, handed, rws)), WorldOf(ls, handed, rws), i, faults, ls.fromBytes)
    ensures ls.Valid() && ls.RWReferencesKept()
  {
    hide Sound, HoldsMatch, MountsOrdered, Released, LayerStore.StateIsReal, LayerStore.RWReferencesTracked;
    MapIsStates(ls);
    if i < |handed| {
      var report, res := ls.Release(handed[i], faults);
    }
  }

  method DoMountStart(ls: LayerStore, t: nat, name: string, parent: ChainID, ghost handed: seq<LayerHandle>, ghost rws: seq<RWReference>)
    requires ls.Valid()
    modifies ls`state, ls`frames, ls`mountL, ls.layers
    ensures MountStarted(old(WorldOf(ls, handed, rws)), WorldOf(ls, handed, rws), t, name, parent, true)
    ensures ls.Valid() && ls.RWReferencesKept()
  {
    hide Sound, HoldsMatch, MountsOrdered, LayerStore.StateIsReal, LayerStore.RWReferencesTracked;
    MapIsStates(ls);
    if t !in ls.frames && ls.mountL == None {
      var r := ls.CreateRWBegin(t, name, parent);
    }
  }

  method DoByGraphIDStart(ls: LayerStore, t: nat, name: string, graphID: string, parent: ChainID, exists_: bool,
                          ghost handed: seq<LayerHandle>, ghost rws: seq<RWReference>)
    requires ls.Valid()
    modifies ls`state, ls`frames, ls`mountL, ls.layers
    ensures MountStarted(old(WorldOf(ls, handed, rws)), WorldOf(ls, handed, rws), t, name, parent, exists_)
    ensures ls.Valid() && ls.RWReferencesKept()
  {
    hide Sound, HoldsMatch, MountsOrdered, LayerStore.StateIsReal, LayerStore.RWReferencesTracked;
    MapIsStates(ls);
    if t !in ls.frames && ls.mountL == None {
      var r := ls.CreateRWByGraphIDBegin(t, name, graphID, parent, exists_);
    }
  }

  method DoMountFail(ls: LayerStore, t: nat, faults: Faults, ghost handed: seq<LayerHandle>, ghost rws: seq<RWReference>)
    requires ls.Valid()
    modifies ls`layerMap, ls`metadata, ls`state, ls`frames, ls`mountL, ls.layers
    ensures MountFailed(old(WorldOf(ls, handed, rws)), WorldOf(ls, handed, rws), t, faults, ls.fromBytes)
    ensures ls.Valid() && ls.RWReferencesKept()
  {
    hide Sound, HoldsMatch, MountsOrdered, Released, LayerStore.StateIsReal, LayerStore.RWReferencesTracked;
    if t in ls.frames && ls.frames[t].CreatingMount? {
      ls.CreateRWAbort(t, faults);
    }
  }

  lemma UsesAdded(known: set<RWReference>, r: RWReference)
    requires r !in known && r.activityCount == 0
    ensures UsesOf(known + {r}) == UsesOf(known)[r := 0]
  {
  }

  method DoMountEnd(ls: LayerStore, t: nat, mountID: string, initID: string, reference: bool,
                    ghost handed: seq<LayerHandle>, ghost rws: seq<RWReference>)
    returns (made: seq<RWReference>)
    requires ls.Valid()
    modifies ls`mounts, ls`mountMetadata, ls`state, ls`frames, ls`mountL, ls`mountObjects, ls`rwReferences
    ensures MountEnded(old(WorldOf(ls, handed, rws)), WorldOf(ls, handed, rws + made), t, mountID, initID, reference)
    ensures ls.Valid() && ls.RWReferencesKept() && SetOf(made) <= ls.rwReferences
    ensures fresh(ls.mountObjects - old(ls.mountObjects)) && fresh(ls.rwReferences - old(ls.rwReferences))
  {
    hide Sound, HoldsMatch, MountsOrdered, LayerStore.StateIsReal, LayerStore.RWReferencesTracked;
    made := [];
    assert rws + [] == rws;
    if t in ls.frames && ls.frames[t].CreatingMount? {
      var m, r := ls.CreateRWFinish(t, mountID, initID, reference);
      if r != null {
        made := [r];
        UsesAdded(old(ls.rwReferences), r);
      }
    }
  }

  method DoMountGet(ls: LayerStore, name: string, ghost handed: seq<LayerHandle>, ghost rws: seq<RWReference>) returns (made: seq<RWReference>)
    requires ls.Valid()
    modifies ls`rwReferences, ls.mountObjects
    ensures MountGot(old(WorldOf(ls, handed, rws)), WorldOf(ls, handed, rws + made), name)
    ensures ls.Valid() && ls.RWReferencesKept() && SetOf(made) <= ls.rwReferences
    ensures fresh(ls.rwReferences - old(ls.rwReferences))
  {
    hide Sound, HoldsMatch, MountsOrdered, LayerStore.StateIsReal, LayerStore.RWReferencesTracked;
    made := [];
    assert rws + [] == rws;
    if ls.mountL == None {
      var r := ls.GetRWLayer(name);
      if r != null {
        made := [r];
        UsesAdded(old(ls.rwReferences), r);
      }
    }
  }

  // Which references a mount has, from their uses.
  lemma RetainedAre(ls: LayerStore, r: RWReference, handed: seq<LayerHandle>, rws: seq<RWReference>)
    requires ls.Valid() && r in ls.rwReferences
    ensures r.mount.name in ls.mounts ==>
              var m := ls.mounts[r.mount.name];
              && (r in m.references <==> Retained(WorldOf(ls, handed, rws), r))
              && (r in m.references ==>
                    && m == r.mount
                    && (m.references == {r} <==> !exists q :: q in ls.rwReferences && q != r && q.mount == r.mount && q.activityCount != -1))
    ensures r.mount.name !in ls.mounts ==> !Retained(WorldOf(ls, handed, rws), r)
  {
    if r.mount.name in ls.mounts {
      var m := ls.mounts[r.mount.name];
      ls.MountIsObject(r.mount.name);
      if r in m.references {
        assert m.references == {r} <==> forall q | q in m.references :: q == r;
      }
    }
  }

  method DoMountRelease(ls: LayerStore, t: nat, i: nat, removable: bool, ghost handed: seq<LayerHandle>, rws: seq<RWReference>)
    requires ls.Valid() && SetOf(rws) <= ls.rwReferences
    modifies ls`mounts, ls`mountMetadata, ls`state, ls`frames, ls`mountL, ls.mountObjects, ls.rwReferences
    ensures MountReleased(old(WorldOf(ls, handed, rws)), WorldOf(ls, handed, rws), t, i, removable)
    ensures ls.Valid() && ls.RWReferencesKept()
  {
    hide Sound, HoldsMatch, MountsOrdered, LayerStore.StateIsReal, LayerStore.RWReferencesTracked;
    if i < |rws| && t !in ls.frames && ls.mountL == None {
      assert rws[i] in ls.rwReferences;
      RetainedAre(ls, rws[i], handed, rws);
      var res := ls.ReleaseRWBegin(t, rws[i], removable);
    }
  }

  lemma UsesAreCounted(ls: LayerStore, r: RWReference)
    requires ls.Valid() && r in ls.rwReferences
    ensures r.activityCount >= -1
  {
  }

  method DoMountUse(ls: LayerStore, i: nat, mount: bool, ghost handed: seq<LayerHandle>, rws: seq<RWReference>)
    requires ls.Valid() && SetOf(rws) <= ls.rwReferences
    modifies ls.rwReferences
    ensures MountUsed(old(WorldOf(ls, handed, rws)), WorldOf(ls, handed, rws), i, mount)
    ensures ls.Valid() && ls.RWReferencesKept()
  {
    hide Sound, HoldsMatch, MountsOrdered, LayerStore.StateIsReal, LayerStore.RWReferencesTracked;
    if i < |rws| {
      assert rws[i] in ls.rwReferences;
      UsesAreCounted(ls, rws[i]);
      var res := ls.UseRWLayer(rws[i], mount);
    }
  }

  lemma ConsiderateToAll(s: State, s': State, frames: map<nat, Frame>, frames': map<nat, Frame>,
                         calls: set<nat>, a: set<LayerHandle>, b: set<LayerHandle>, faultless: bool)
    requires Considerate(s, s', frames, frames', calls, a, faultless) && a <= b
    ensures Considerate(s, s', frames, frames', calls, b, faultless)
  {
    forall id ensures HandlesOn(s, id) - b <= HandlesOn(s', id) {
      assert HandlesOn(s, id) - a <= HandlesOn(s', id);
    }
  }

  // What any step does, it does to nobody else.
  lemma StepIsConsiderate(step: Step, w: World, w': World, fromBytes: string -> string)
    requires Sound(w.state, fromBytes) && StepDone(step, w, w', fromBytes)
    ensures Considerate(w.state, w'.state, w.frames, w'.frames, step.Calls(), SetOf(w.handed), step.Faultless())
  {
    hide Sound, HandlesKept, FramesKept, NoneUnheld, Released;
    var s := w.state;
    Unchanged(s, {});
    if step.HandleRelease? {
      HandleReleaseIsConsiderate(step, w, w', fromBytes);
    } else {
      StateIsConsiderate(step, w, w', fromBytes);
      Unchanged(w'.state, {});
      HandlesKeptTwice(s, w'.state, w'.state, {}, {}, SetOf(w.handed));
    }
    FramesAreKept(step, w, w', fromBytes);
  }

  lemma FramesAreKept(step: Step, w: World, w': World, fromBytes: string -> string)
    requires StepDone(step, w, w', fromBytes)
    ensures FramesKept(w.frames, w'.frames, step.Calls())
  {
    hide FramesKept;
    OneCallMoves(step, w, w', fromBytes);
    var t := if step.Calls() == {} then 0 else step.t;
    FramesChanged(w.frames, w'.frames, step.Calls(), t);
  }

  ghost predicate OneCallMoved(step: Step, frames: map<nat, Frame>, frames': map<nat, Frame>) {
    || frames' == frames
    || (step.Calls() != {}
        && (frames' == frames - {step.t} || (step.t in frames' && frames' == frames[step.t := frames'[step.t]])))
  }

  lemma OneCallMoves(step: Step, w: World, w': World, fromBytes: string -> string)
    requires StepDone(step, w, w', fromBytes)
    ensures OneCallMoved(step, w.frames, w'.frames)
  {
    if step.MountStart? || step.ByGraphIDStart? || step.MountFail? || step.MountEnd? || step.MountRelease? || step.MountReleaseEnd? {
      MountCallMoves(step, w, w', fromBytes);
    } else {
      hide Sound, Released, Take, HoldToHandle, HandleToHold, Insert, NewChainID, HandsOut, HandsOutMount, MountStarted, MountFailed,
           MountEnded, MountReleased, MountReleaseEnded;
    }
  }

  lemma MountCallMoves(step: Step, w: World, w': World, fromBytes: string -> string)
    requires StepDone(step, w, w', fromBytes)
    requires step.MountStart? || step.ByGraphIDStart? || step.MountFail? || step.MountEnd? || step.MountRelease? || step.MountReleaseEnd?
    ensures OneCallMoved(step, w.frames, w'.frames)
  {
    hide Sound, Released, Take, Pass, HandsOutMount;
  }

  lemma HandleReleaseIsConsiderate(step: Step, w: World, w': World, fromBytes: string -> string)
    requires step.HandleRelease? && StepDone(step, w, w', fromBytes)
    ensures HandlesKept(w.state, w'.state, SetOf(w.handed))
    ensures step.Faultless() && NoneUnheld(w.state) ==> NoneUnheld(w'.state)
  {
    hide Sound, HandlesKept, NoneUnheld, Released;
    var s := w.state;
    Unchanged(s, SetOf(w.handed));
    if step.i < |w.handed| && LiveIn(s, w.handed[step.i]) {
      var ref := w.handed[step.i];
      var held := HandleToHold(s, ref, Locked);
      Unhandled(s, ref, Locked);
      ReleasedEvents(held, Locked, step.faults, fromBytes);
      HandlesKeptTwice(s, held, w'.state, {ref}, {}, SetOf(w.handed));
    }
  }

  lemma StateIsConsiderate(step: Step, w: World, w': World, fromBytes: string -> string)
    requires Sound(w.state, fromBytes) && StepDone(step, w, w', fromBytes) && !step.HandleRelease?
    ensures HandlesKept(w.state, w'.state, {})
    ensures step.Faultless() && NoneUnheld(w.state) ==> NoneUnheld(w'.state)
  {
    hide Sound, HandlesKept, NoneUnheld, Released;
    var s := w.state;
    Unchanged(s, {});
    match step {
      case GetStart(t, id) =>
        if t !in w.frames && id in s.layerMap {
          Taken(s, Call(t), s.layerMap[id]);
        }
      case GetEnd(t) =>
        if t in w.frames && w.frames[t].Got? {
          Handled(s, Call(t), w'.handed[|w.handed|]);
        }
      case RegisterStart(t, parent, limited) =>
        if t !in w.frames && parent != "" && parent in s.layerMap {
          Taken(s, Call(t), s.layerMap[parent]);
        }
      case RegisterFail(t) =>
      case RegisterEnd(_, _, _, _, _) => RegisterEndIsConsiderate(step, w, w', fromBytes);
      case ParentRelease(t, faults) =>
        if t in w.frames && w.frames[t].CleaningUp? {
          ReleasedEvents(s, Call(t), faults, fromBytes);
        }
      case MountStart(t, name, parent) =>
        if parent != "" && parent in s.layerMap && s.layerMap[parent].chainID in s.counts {
          Taken(s, Call(t), s.layerMap[parent]);
        }
      case ByGraphIDStart(t, name, _, parent, _) =>
        if parent != "" && parent in s.layerMap && s.layerMap[parent].chainID in s.counts {
          Taken(s, Call(t), s.layerMap[parent]);
        }
      case MountFail(t, faults) =>
        if t in w.frames && w.frames[t].CreatingMount? && w.frames[t].parent != null {
          ReleasedEvents(s, Call(t), faults, fromBytes);
        }
      case MountEnd(t, _, _, _) =>
        if t in w.frames && w.frames[t].CreatingMount? && w.frames[t].parent != null {
          Passed(s, Call(t), Mount(w.frames[t].name));
        }
      case MountGet(_) =>
      case MountRelease(t, i, _) =>
        if i < |w.rws| && Mount(w.rws[i].mount.name) in s.holds {
          Passed(s, Mount(w.rws[i].mount.name), Call(t));
        }
      case MountReleaseEnd(t, faults) =>
        if t in w.frames && w.frames[t].Unmounting? {
          ReleasedEvents(s, Call(t), faults, fromBytes);
        }
      case MountUse(_, _) =>
    }
  }

  lemma RegisterEndIsConsiderate(step: Step, w: World, w': World, fromBytes: string -> string)
    requires Sound(w.state, fromBytes) && StepDone(step, w, w', fromBytes) && step.RegisterEnd?
    ensures HandlesKept(w.state, w'.state, {}) && (NoneUnheld(w.state) ==> NoneUnheld(w'.state))
  {
    var s, t := w.state, step.t;
    assert s.handles.Keys == s.layerMap.Keys;
    hide Sound, HandlesKept, NoneUnheld;
    Unchanged(s, {});
    if |w'.handed| > |w.handed| {
      var ref := w'.handed[|w.handed|];
      if ref.layer.chainID in s.layerMap {
        HandedOut(s, Locked, ref.layer, ref);
      } else {
        Inserted(s, ref.layer, ref, Call(t));
      }
    }
  }

  // One step, if the call it belongs to is at the right place; else nothing.
  method Do(ls: LayerStore, step: Step, handed: seq<LayerHandle>, rws: seq<RWReference>)
    returns (handles: seq<LayerHandle>, references: seq<RWReference>)
    requires ls.Valid() && SetOf(rws) <= ls.rwReferences
    modifies ls, ls.layers, ls.mountObjects, ls.rwReferences
    ensures StepDone(step, old(WorldOf(ls, handed, rws)), WorldOf(ls, handed + handles, rws + references), ls.fromBytes)
    ensures ls.Valid() && ls.RWReferencesKept() && SetOf(references) <= ls.rwReferences
    ensures forall ref | ref in handles :: fresh(ref)
    ensures Considerate(old(ls.state), ls.state, old(ls.frames), ls.frames, step.Calls(), SetOf(handed), step.Faultless())
    ensures fresh(ls.layers - old(ls.layers)) && fresh(ls.mountObjects - old(ls.mountObjects)) && fresh(ls.rwReferences - old(ls.rwReferences))
  {
    handles, references := DoStep(ls, step, handed, rws);
    StepIsConsiderate(step, old(WorldOf(ls, handed, rws)), WorldOf(ls, handed + handles, rws + references), ls.fromBytes);
  }

  method DoStep(ls: LayerStore, step: Step, handed: seq<LayerHandle>, rws: seq<RWReference>)
    returns (handles: seq<LayerHandle>, references: seq<RWReference>)
    requires ls.Valid() && SetOf(rws) <= ls.rwReferences
    modifies ls, ls.layers, ls.mountObjects, ls.rwReferences
    ensures StepDone(step, old(WorldOf(ls, handed, rws)), WorldOf(ls, handed + handles, rws + references), ls.fromBytes)
    ensures ls.Valid() && ls.RWReferencesKept() && SetOf(references) <= ls.rwReferences
    ensures forall ref | ref in handles :: fresh(ref)
    ensures fresh(ls.layers - old(ls.layers)) && fresh(ls.mountObjects - old(ls.mountObjects)) && fresh(ls.rwReferences - old(ls.rwReferences))
  {
    hide LayerStore.Valid, GetStarted, GetEnded, RegisterStarted, RegisterFailed, RegisterEnded, ParentReleased, HandleReleased,
         MountStarted, MountFailed, MountEnded, MountGot, MountReleased, MountReleaseEnded, MountUsed, WorldOf;
    handles, references := [], [];
    assert handed + [] == handed && rws + [] == rws;
    match step {
      case GetStart(t, id) => DoGetStart(ls, t, id, handed, rws);
      case GetEnd(t) => handles := DoGetEnd(ls, t, handed, rws);
      case RegisterStart(t, parent, limited) => DoRegisterStart(ls, t, parent, limited, handed, rws);
      case RegisterFail(t) => DoRegisterFail(ls, t, handed, rws);
      case RegisterEnd(t, diffID, size, cacheID, committed) =>
        handles := DoRegisterEnd(ls, t, diffID, size, cacheID, committed, handed, rws);
      case ParentRelease(t, faults) => DoParentRelease(ls, t, faults, handed, rws);
      case HandleRelease(i, faults) => DoHandleRelease(ls, i, faults, handed, rws);
      case MountStart(t, name, parent) => DoMountStart(ls, t, name, parent, handed, rws);
      case ByGraphIDStart(t, name, graphID, parent, exists_) =>
        DoByGraphIDStart(ls, t, name, graphID, parent, exists_, handed, rws);
      case MountFail(t, faults) => DoMountFail(ls, t, faults, handed, rws);
      case MountEnd(t, mountID, initID, reference) =>
        references := DoMountEnd(ls, t, mountID, initID, reference, handed, rws);
      case MountGet(name) => references := DoMountGet(ls, name, handed, rws);
      case MountRelease(t, i, removable) => DoMountRelease(ls, t, i, removable, handed, rws);
      case MountReleaseEnd(t, faults) => DoMountReleaseEnd(ls, t, faults, handed, rws);
      case MountUse(i, mount) => DoMountUse(ls, i, mount, handed, rws);
    }
  }

  lemma Idle(s: State, frames: map<nat, Frame>, calls: set<nat>, faultless: bool)
    ensures Considerate(s, s, frames, frames, calls, {}, faultless)
  {
  }

  ghost function CallsOf(steps: seq<Step>): set<nat> {
    set i, t | 0 <= i < |steps| && t in steps[i].Calls() :: t
  }

  ghost predicate AllFaultless(steps: seq<Step>) {
    forall i | 0 <= i < |steps| :: steps[i].Faultless()
  }

  lemma ConsiderateTwice(s0: State, s1: State, s2: State, f0: map<nat, Frame>, f1: map<nat, Frame>, f2: map<nat, Frame>,
                         calls0: set<nat>, calls1: set<nat>, gone0: set<LayerHandle>, gone1: set<LayerHandle>, faultless0: bool, faultless1: bool)
    requires Considerate(s0, s1, f0, f1, calls0, gone0, faultless0) && Considerate(s1, s2, f1, f2, calls1, gone1, faultless1)
    ensures Considerate(s0, s2, f0, f2, calls0 + calls1, gone0 + gone1, faultless0 && faultless1)
  {
    HandlesKeptTwice(s0, s1, s2, gone0, gone1, gone0 + gone1);
  }

  lemma NotOfNewHandles(s: State, s': State, frames: map<nat, Frame>, frames': map<nat, Frame>,
                        calls: set<nat>, a: set<LayerHandle>, b: set<LayerHandle>, faultless: bool)
    requires Considerate(s, s', frames, frames', calls, a, faultless)
    requires forall id, ref {:trigger ref in HandlesOn(s, id)} | ref in HandlesOn(s, id) && ref in a :: ref in b
    ensures Considerate(s, s', frames, frames', calls, b, faultless)
  {
    forall id ensures HandlesOn(s, id) - b <= HandlesOn(s', id) {
      assert HandlesOn(s, id) - a <= HandlesOn(s', id);
    }
  }

  // Any run: the steps of any number of calls in any order. Everything the invariant
  // says holds at the end, and so, of every prefix, at every moment; `worlds` are these
  // moments, between which each step does exactly what it should. Handles that were not
  // handed to these calls stay live, other calls stay where they are, and a run without
  // failures leaves no layer that nothing holds.
  method Run(ls: LayerStore, steps: seq<Step>, handed: seq<LayerHandle>, rws: seq<RWReference>)
    returns (handles: seq<LayerHandle>, references: seq<RWReference>, ghost worlds: seq<World>)
    requires ls.Valid() && SetOf(rws) <= ls.rwReferences
    modifies ls, ls.layers, ls.mountObjects, ls.rwReferences
    ensures IsTrace(worlds, steps, ls.fromBytes)
    ensures worlds[0] == old(WorldOf(ls, handed, rws)) && worlds[|steps|] == WorldOf(ls, handed + handles, rws + references)
    ensures ls.Valid() && ls.RWReferencesKept() && SetOf(references) <= ls.rwReferences
    ensures forall ref | ref in handles :: fresh(ref)
    ensures Considerate(old(ls.state), ls.state, old(ls.frames), ls.frames, CallsOf(steps), SetOf(handed), AllFaultless(steps))
    ensures fresh(ls.layers - old(ls.layers)) && fresh(ls.mountObjects - old(ls.mountObjects)) && fresh(ls.rwReferences - old(ls.rwReferences))
  {
    hide LayerStore.Valid, Considerate, UsesOf, StepDone, IsTrace, CallsOf, AllFaultless;
    handles, references := [], [];
    assert handed + [] == handed && rws + [] == rws;
    worlds := [WorldOf(ls, handed, rws)];
    WorldIsSound(ls, handed, rws);
    TraceStarts(worlds[0], ls.fromBytes);
    for i := 0 to |steps|
      invariant ls.Valid() && ls.RWReferencesKept() && SetOf(references) <= ls.rwReferences && SetOf(rws) <= ls.rwReferences
      invariant forall ref | ref in handles :: fresh(ref)
      invariant IsTrace(worlds, steps[..i], ls.fromBytes) && |worlds| == i + 1
      invariant worlds[0] == old(WorldOf(ls, handed, rws)) && worlds[i] == WorldOf(ls, handed + handles, rws + references)
      invariant fresh(ls.layers - old(ls.layers)) && fresh(ls.mountObjects - old(ls.mountObjects)) && fresh(ls.rwReferences - old(ls.rwReferences))
    {
      var hs, rs := DoStep(ls, steps[i], handed + handles, rws + references);
      assert handed + handles + hs == handed + (handles + hs) && rws + references + rs == rws + (references + rs);
      handles, references := handles + hs, references + rs;
      WorldIsSound(ls, handed + handles, rws + references);
      TraceGoesOn(worlds, steps[..i], ls.fromBytes, steps[i], WorldOf(ls, handed + handles, rws + references));
      worlds := worlds + [WorldOf(ls, handed + handles, rws + references)];
      assert steps[..i + 1] == steps[..i] + [steps[i]];
    }
    assert steps[..|steps|] == steps;
    TraceIsConsiderate(worlds, steps, ls.fromBytes);
    NotOfNewHandles(old(ls.state), ls.state, old(ls.frames), ls.frames, CallsOf(steps), SetOf(handed + handles), SetOf(handed), AllFaultless(steps));
  }

  lemma {:induction false} TraceIsConsiderate(worlds: seq<World>, steps: seq<Step>, fromBytes: string -> string)
    requires IsTrace(worlds, steps, fromBytes)
    ensures var w, w' := worlds[0], worlds[|steps|];
            && w.handed <= w'.handed
            && Considerate(w.state, w'.state, w.frames, w'.frames, CallsOf(steps), SetOf(w'.handed), AllFaultless(steps))
    decreases |steps|
  {
    var w := worlds[0];
    if steps == [] {
      Idle(w.state, w.frames, CallsOf(steps), AllFaultless(steps));
      ConsiderateToAll(w.state, w.state, w.frames, w.frames, CallsOf(steps), {}, SetOf(w.handed), AllFaultless(steps));
      return;
    }
    hide Sound, StepDone, Considerate;
    var n := |steps| - 1;
    TraceBefore(worlds, steps, fromBytes, n);
    TraceIsConsiderate(worlds[..n + 1], steps[..n], fromBytes);
    StepIsConsiderate(steps[n], worlds[n], worlds[n + 1], fromBytes);
    HandedGrows(steps[n], worlds[n], worlds[n + 1], fromBytes);
    ConsiderateGoesOn(w, worlds[n], worlds[n + 1], steps);
  }

  lemma ConsiderateGoesOn(w: World, w1: World, w': World, steps: seq<Step>)
    requires steps != [] && w1.handed <= w'.handed
    requires var front, step := steps[..|steps| - 1], steps[|steps| - 1];
             && Considerate(w.state, w1.state, w.frames, w1.frames, CallsOf(front), SetOf(w1.handed), AllFaultless(front))
             && Considerate(w1.state, w'.state, w1.frames, w'.frames, step.Calls(), SetOf(w1.handed), step.Faultless())
    ensures Considerate(w.state, w'.state, w.frames, w'.frames, CallsOf(steps), SetOf(w'.handed), AllFaultless(steps))
  {
    hide Considerate, Step.Calls, Step.Faultless;
    var front, step := steps[..|steps| - 1], steps[|steps| - 1];
    ConsiderateTwice(w.state, w1.state, w'.state, w.frames, w1.frames, w'.frames, CallsOf(front), step.Calls(),
                     SetOf(w1.handed), SetOf(w1.handed), AllFaultless(front), step.Faultless());
    assert steps == front + [step];
    assert CallsOf(steps) == CallsOf(front) + step.Calls();
    assert AllFaultless(steps) == (AllFaultless(front) && step.Faultless());
    ConsiderateToAll(w.state, w'.state, w.frames, w'.frames, CallsOf(steps), SetOf(w1.handed) + SetOf(w1.handed), SetOf(w'.handed), AllFaultless(steps));
  }

  lemma WorldIsSound(ls: LayerStore, handed: seq<LayerHandle>, rws: seq<RWReference>)
    requires ls.Valid()
    ensures Sound(WorldOf(ls, handed, rws).state, ls.fromBytes)
  {
  }

  // Of a run without failures, from an empty store: when its calls have ended, its
  // mounts are gone and every handle it handed out was released, the store is empty.
  lemma EverythingReturned(ls: LayerStore, worlds: seq<World>, steps: seq<Step>)
    requires ls.Valid() && IsTrace(worlds, steps, ls.fromBytes) && worlds[|steps|].state == ls.state
    requires worlds[0].state == State(map[], map[], map[], map[], map[]) && AllFaultless(steps)
    requires ls.frames == map[] && ls.mounts == map[]
    requires forall ref | ref in worlds[|steps|].handed :: exists i :: 0 <= i < |steps| && Releases(steps[i], worlds[i], ref)
    ensures ls.layerMap == map[] && ls.metadata == map[]
  {
    TraceIsConsiderate(worlds, steps, ls.fromBytes);
    forall id, ref | id in ls.layerMap && ref in ls.layerMap[id].references ensures false {
      HandleIsLive(ls, id, ref);
      NoneLeftLive(worlds, steps, ls.fromBytes, ref);
    }
    hide LayerStore.Valid, IsTrace;
    UnusedStoreIsEmpty(ls);
  }

  lemma NoneLeftLive(worlds: seq<World>, steps: seq<Step>, fromBytes: string -> string, ref: LayerHandle)
    requires IsTrace(worlds, steps, fromBytes) && worlds[0].state.handles == map[]
    requires forall r | r in worlds[|steps|].handed :: exists i :: 0 <= i < |steps| && Releases(steps[i], worlds[i], r)
    ensures !LiveIn(worlds[|steps|].state, ref)
  {
    LiveUntilReleased(worlds, steps, fromBytes, ref);
    var made := worlds[|steps|].handed[|worlds[0].handed|..];
    assert forall r | r in made :: r in worlds[|steps|].handed;
  }

  lemma HandleIsLive(ls: LayerStore, id: ChainID, ref: LayerHandle)
    requires ls.Valid() && id in ls.layerMap && ref in ls.layerMap[id].references
    ensures LiveIn(ls.state, ref)
  {
    ls.MappedIsInMap(id);
    assert ls.state.handles[id] == ls.layerMap[id].references;
  }

  // ---- One user's calls, with any run of the others in between ----

  // Get, with other calls' steps between its two.
  method GetAmongOthers(ls: LayerStore, t: nat, id: ChainID, others: seq<Step>, handed: seq<LayerHandle>, rws: seq<RWReference>)
    returns (ref: LayerHandle?, handles: seq<LayerHandle>, references: seq<RWReference>)
    requires ls.Valid() && t !in ls.frames && t !in CallsOf(others) && SetOf(rws) <= ls.rwReferences
    modifies ls, ls.layers, ls.mountObjects, ls.rwReferences
    ensures ls.Valid() && SetOf(references) <= ls.rwReferences && t !in ls.frames
    ensures (forall h | h in handles :: fresh(h)) && ref !in handles
    ensures ref == null <==> id !in old(ls.layerMap)
    ensures ref != null ==> fresh(ref) && ls.Live(ref) && ref.layer == old(ls.layerMap[id]) && ref.layer.chainID == id
    ensures HandlesKept(old(ls.state), ls.state, SetOf(handed)) && FramesKept(old(ls.frames), ls.frames, CallsOf(others))
    ensures fresh(ls.layers - old(ls.layers)) && fresh(ls.mountObjects - old(ls.mountObjects)) && fresh(ls.rwReferences - old(ls.rwReferences))
  {
    hide LayerStore.Valid, HandlesKept, FramesKept, NoneUnheld, CallsOf, IsTrace, WorldOf, Take, HoldToHandle;
    handles, references := [], [];
    ghost var f0, s0 := ls.frames, ls.state;
    var ok := ls.GetBegin(t, id);
    if !ok {
      FramesChanged(f0, ls.frames, CallsOf(others), t);
      Unchanged(s0, SetOf(handed));
      return null, [], [];
    }
    ghost var f1, s1 := ls.frames, ls.state;
    Taken(s0, Call(t), ls.layerMap[id]);
    ghost var worlds;
    handles, references, worlds := Run(ls, others, handed, rws);
    ghost var f2, s2 := ls.frames, ls.state;
    FramesKeptAround(f0, f1, f2, CallsOf(others), t);
    ref := ls.GetFinish(t);
    Handled(s2, Call(t), ref);
    HandlesKeptTwice(s0, s1, s2, {}, SetOf(handed), SetOf(handed));
    HandlesKeptTwice(s0, s2, ls.state, SetOf(handed), {}, SetOf(handed));
  }

  lemma FramesKeptAround(f0: map<nat, Frame>, f1: map<nat, Frame>, f2: map<nat, Frame>, calls: set<nat>, t: nat)
    requires t !in f0 && t !in calls && t in f1 && f1 == f0[t := f1[t]] && FramesKept(f1, f2, calls)
    ensures t in f2 && f2[t] == f1[t] && FramesKept(f0, f2 - {t}, calls)
  {
  }

  // What the release of a live handle does, and what it returns: the removed layers,
  // or an error.
  ghost predicate ReleasesHandle(s: State, s': State, ref: LayerHandle, faults: Faults, fromBytes: string -> string,
                                 report: seq<Metadata>, err: bool)
  {
    && ref.layer.chainID in s.handles
    && var held := HandleToHold(s, ref, Locked);
    && Sound(held, fromBytes) && Locked in held.holds
    && var r := Released(held, Locked, faults, fromBytes);
    s' == r.state && err == r.err && (if err then report == [] else IsReport(report, r.removed))
  }

  // Release of a live handle: afterwards it is not live, and every other one still is.
  method ReleaseLive(ls: LayerStore, ref: LayerHandle, faults: Faults) returns (report: seq<Metadata>, err: bool)
    requires ls.Valid() && ls.Live(ref)
    modifies ls`layerMap, ls`metadata, ls`state, ls.layers
    ensures ls.Valid() && !ls.Live(ref)
    ensures HandlesKept(old(ls.state), ls.state, {ref})
    ensures ReleasesHandle(old(ls.state), ls.state, ref, faults, ls.fromBytes, report, err)
  {
    hide Sound, HandlesKept, FramesKept, NoneUnheld, HoldsMatch, MountsOrdered, Released;
    ls.LiveIsInMap(ref);
    var res;
    report, res := ls.Release(ref, faults);
    err := res == DeleteFailed;
    ghost var s := HandleToHold(old(ls.state), ref, Locked);
    Unhandled(old(ls.state), ref, Locked);
    ReleasedEvents(s, Locked, faults, ls.fromBytes);
    HandlesKeptTwice(old(ls.state), s, ls.state, {ref}, {}, {ref});
    ReleasedAddsNoHandles(s, Locked, faults, ls.fromBytes, ref.layer.chainID);
    assert ref !in HandlesOn(s, ref.layer.chainID);
  }
}
