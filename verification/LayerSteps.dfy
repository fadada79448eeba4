// What each step of a call does to the layer store, and what this says about runs
// (docker/layer/layer_store.go, docker/layer/migration.go, docker/layer/mounted_layer.go).
module LayerSteps {
  import opened Options
  import opened ChainIDs
  import opened Layers
  import opened LayerStates
  import opened LayerStores

  // One step of a call t, or a whole call that is one step. Handles and mount
  // references are named by their place among those handed out so far.
  datatype Step =
    | GetStart(t: nat, id: ChainID)
    | GetEnd(t: nat)
    | RegisterStart(t: nat, parent: ChainID, limited: bool)
    | RegisterFail(t: nat)
    | RegisterEnd(t: nat, diffID: DiffID, size: int, cacheID: string, committed: bool)
    | ParentRelease(t: nat, faults: Faults)
    | HandleRelease(i: nat, faults: Faults)
    | MountStart(t: nat, name: string, parent: ChainID)
    | ByGraphIDStart(t: nat, name: string, graphID: string, parent: ChainID, exists_: bool)
    | MountFail(t: nat, faults: Faults)
    | MountEnd(t: nat, mountID: string, initID: string, reference: bool)
    | MountGet(name: string)
    | MountRelease(t: nat, i: nat, removable: bool)
    | MountReleaseEnd(t: nat, faults: Faults)
    | MountUse(i: nat, mount: bool)
  {
    // The call whose place the step changes.
    function Calls(): set<nat> {
      match this
      case HandleRelease(_, _) => {}
      case MountGet(_) => {}
      case MountUse(_, _) => {}
      case _ => {t}
    }

    predicate Faultless() {
      match this
      case ParentRelease(_, faults) => faults == Faults({}, {})
      case HandleRelease(_, faults) => faults == Faults({}, {})
      case MountFail(_, faults) => faults == Faults({}, {})
      case MountReleaseEnd(_, faults) => faults == Faults({}, {})
      case _ => true
    }
  }

  // The store at one moment, the uses of every mount reference (-1 if it is released),
  // and the handles and mount references handed out so far.
  datatype World = World(
    state: State,
    frames: map<nat, Frame>,
    mountL: Option<nat>,
    mounts: map<string, MountedLayer>,
    uses: map<RWReference, int>,
    handed: seq<LayerHandle>,
    rws: seq<RWReference>)

  ghost function WorldOf(ls: LayerStore, handed: seq<LayerHandle>, rws: seq<RWReference>): World
    reads ls, ls.rwReferences
  {
    World(ls.state, ls.frames, ls.mountL, ls.mounts, UsesOf(ls.rwReferences), handed, rws)
  }

  ghost function UsesOf(rwReferences: set<RWReference>): map<RWReference, int>
    reads rwReferences
  {
    map r | r in rwReferences :: r.activityCount
  }

  ghost predicate LiveIn(s: State, ref: LayerHandle) {
    ref.layer.chainID in s.handles && ref in s.handles[ref.layer.chainID]
  }

  // ---- What each step does ----

  // A new handle, the last one handed out.
  ghost predicate HandsOut(w: World, w': World, l: RoLayer) {
    && |w'.handed| == |w.handed| + 1
    && var ref := w'.handed[|w.handed|];
    && w'.handed == w.handed + [ref] && ref.layer == l
    && ref !in w.handed && forall id | id in w.state.handles :: ref !in w.state.handles[id]
  }

  ghost predicate GetStarted(w: World, w': World, t: nat, id: ChainID) {
    if t in w.frames || id !in w.state.layerMap then w' == w
    else
      var l := w.state.layerMap[id];
      && l.chainID in w.state.counts
      && w' == w.(state := Take(w.state, Call(t), l), frames := w.frames[t := Got(l)])
  }

  ghost predicate GetEnded(w: World, w': World, t: nat) {
    if !(t in w.frames && w.frames[t].Got?) then w' == w
    else
      var l := w.frames[t].layer;
      && HandsOut(w, w', l) && l.chainID in w.state.handles
      && Call(t) in w.state.holds && w.state.holds[Call(t)] == l
      && w' == w.(state := HoldToHandle(w.state, Call(t), w'.handed[|w.handed|]), frames := w.frames - {t}, handed := w'.handed)
  }

  ghost predicate RegisterStarted(w: World, w': World, t: nat, parent: ChainID, limited: bool) {
    if t in w.frames || (parent != "" && parent !in w.state.layerMap) then w' == w
    else if parent == "" then w' == w.(frames := w.frames[t := Registering(null)])
    else
      var p := w.state.layerMap[parent];
      && p.chainID in w.state.counts && Rooted(p)
      && w' == w.(state := Take(w.state, Call(t), p),
                  frames := w.frames[t := if limited && |Ancestry(p)| >= 125 then CleaningUp(p) else Registering(p)])
  }

  // A registering call that does not make a layer has its parent to release.
  function ParentLeft(frames: map<nat, Frame>, t: nat, parent: RoLayer?): map<nat, Frame> {
    if parent == null then frames - {t} else frames[t := CleaningUp(parent)]
  }

  ghost predicate RegisterFailed(w: World, w': World, t: nat) {
    if !(t in w.frames && w.frames[t].Registering?) then w' == w
    else w' == w.(frames := ParentLeft(w.frames, t, w.frames[t].parent))
  }

  ghost predicate RegisterEnded(w: World, w': World, t: nat, diffID: DiffID, size: int, cacheID: string, committed: bool,
                                fromBytes: string -> string)
  {
    if !(t in w.frames && w.frames[t].Registering?) then w' == w
    else
      var p := w.frames[t].parent;
      var id := NewChainID(fromBytes, p, diffID);
      if id in w.state.layerMap then
        var l := w.state.layerMap[id];
        && HandsOut(w, w', l) && l.chainID in w.state.counts && l.chainID in w.state.handles
        && w' == w.(state := HoldToHandle(Take(w.state, Locked, l), Locked, w'.handed[|w.handed|]),
                    frames := ParentLeft(w.frames, t, p), handed := w'.handed)
      else if !committed then w' == w.(frames := ParentLeft(w.frames, t, p))
      else
        && |w'.handed| > |w.handed|
        && var ref := w'.handed[|w.handed|];
        var l := ref.layer;
        && HandsOut(w, w', l) && l !in w.state.layerMap.Values
        && l.chainID == id && l.parent == p && l.diffID == diffID && l.size == size && l.cacheID == cacheID
        && w' == w.(state := Insert(w.state, l, ref, Call(t)), frames := w.frames - {t}, handed := w'.handed)
  }

  ghost predicate ParentReleased(w: World, w': World, t: nat, faults: Faults, fromBytes: string -> string) {
    if !(t in w.frames && w.frames[t].CleaningUp?) then w' == w
    else
      && Sound(w.state, fromBytes) && Call(t) in w.state.holds
      && w' == w.(state := Released(w.state, Call(t), faults, fromBytes).state, frames := w.frames - {t})
  }

  ghost predicate HandleReleased(w: World, w': World, i: nat, faults: Faults, fromBytes: string -> string) {
    if !(i < |w.handed| && LiveIn(w.state, w.handed[i])) then w' == w
    else
      var s := HandleToHold(w.state, w.handed[i], Locked);
      && Sound(s, fromBytes) && Locked in s.holds
      && w' == w.(state := Released(s, Locked, faults, fromBytes).state)
  }

  ghost predicate MountStarted(w: World, w': World, t: nat, name: string, parent: ChainID, possible: bool) {
    if t in w.frames || w.mountL.Some? || !possible || name in w.mounts || (parent != "" && parent !in w.state.layerMap) then w' == w
    else if parent == "" then w' == w.(frames := w.frames[t := CreatingMount(name, null)], mountL := Some(t))
    else
      var p := w.state.layerMap[parent];
      && p.chainID in w.state.counts
      && w' == w.(state := Take(w.state, Call(t), p), frames := w.frames[t := CreatingMount(name, p)], mountL := Some(t))
  }

  ghost predicate MountFailed(w: World, w': World, t: nat, faults: Faults, fromBytes: string -> string) {
    if !(t in w.frames && w.frames[t].CreatingMount?) then w' == w
    else if w.frames[t].parent == null then w' == w.(frames := w.frames - {t}, mountL := None)
    else
      && Sound(w.state, fromBytes) && Call(t) in w.state.holds
      && w' == w.(state := Released(w.state, Call(t), faults, fromBytes).state, frames := w.frames - {t}, mountL := None)
  }

  // A new reference to a mount, the last one handed out, which is not used yet.
  ghost predicate HandsOutMount(w: World, w': World, m: MountedLayer) {
    && |w'.rws| == |w.rws| + 1
    && var r := w'.rws[|w.rws|];
    && w'.rws == w.rws + [r] && r.mount == m && r !in w.uses && w'.uses == w.uses[r := 0]
  }

  ghost predicate MountEnded(w: World, w': World, t: nat, mountID: string, initID: string, reference: bool) {
    if !(t in w.frames && w.frames[t].CreatingMount?) then w' == w
    else
      var n, p := w.frames[t].name, w.frames[t].parent;
      && n !in w.mounts && n in w'.mounts
      && var m := w'.mounts[n];
      && m.name == n && m.parent == p && m.mountID == mountID && m.initID == initID
      && (p != null ==> Call(t) in w.state.holds)
      && (if reference then HandsOutMount(w, w', m) else w'.rws == w.rws && w'.uses == w.uses)
      && w' == w.(state := if p == null then w.state else Pass(w.state, Call(t), Mount(n)),
                  frames := w.frames - {t}, mountL := None, mounts := w.mounts[n := m], uses := w'.uses, rws := w'.rws)
  }

  ghost predicate MountGot(w: World, w': World, name: string) {
    if w.mountL.Some? || name !in w.mounts then w' == w
    else HandsOutMount(w, w', w.mounts[name]) && w' == w.(uses := w'.uses, rws := w'.rws)
  }

  // A reference of the mount in the store under its name, not released.
  predicate Retained(w: World, r: RWReference) {
    && r in w.uses && w.uses[r] != -1
    && r.mount.name in w.mounts && w.mounts[r.mount.name] == r.mount
  }

  ghost predicate MountReleased(w: World, w': World, t: nat, i: nat, removable: bool) {
    if !(i < |w.rws| && t !in w.frames && w.mountL.None? && Retained(w, w.rws[i]) && w.uses[w.rws[i]] <= 0) then w' == w
    else
      var r := w.rws[i];
      var n, p := r.mount.name, r.mount.parent;
      var w1 := w.(uses := w.uses[r := -1]);
      if !removable || exists q :: q in w.uses && q != r && q.mount == r.mount && w.uses[q] != -1 then w' == w1
      else if p == null then w' == w1.(mounts := w.mounts - {n})
      else
        && Mount(n) in w.state.holds
        && w' == w1.(mounts := w.mounts - {n}, state := Pass(w.state, Mount(n), Call(t)),
                     frames := w.frames[t := Unmounting(p)], mountL := Some(t))
  }

  ghost predicate MountReleaseEnded(w: World, w': World, t: nat, faults: Faults, fromBytes: string -> string) {
    if !(t in w.frames && w.frames[t].Unmounting?) then w' == w
    else
      && Sound(w.state, fromBytes) && Call(t) in w.state.holds
      && w' == w.(state := Released(w.state, Call(t), faults, fromBytes).state, frames := w.frames - {t}, mountL := None)
  }

  ghost predicate MountUsed(w: World, w': World, i: nat, mount: bool) {
    if !(i < |w.rws| && w.rws[i] in w.uses) then w' == w
    else
      var r := w.rws[i];
      if w.uses[r] == -1 || (w.uses[r] == 0 && !mount) then w' == w
      else w' == w.(uses := w.uses[r := if mount then w.uses[r] + 1 else w.uses[r] - 1])
  }

  ghost predicate StepDone(step: Step, w: World, w': World, fromBytes: string -> string) {
    match step
    case GetStart(t, id) => GetStarted(w, w', t, id)
    case GetEnd(t) => GetEnded(w, w', t)
    case RegisterStart(t, parent, limited) => RegisterStarted(w, w', t, parent, limited)
    case RegisterFail(t) => RegisterFailed(w, w', t)
    case RegisterEnd(t, diffID, size, cacheID, committed) => RegisterEnded(w, w', t, diffID, size, cacheID, committed, fromBytes)
    case ParentRelease(t, faults) => ParentReleased(w, w', t, faults, fromBytes)
    case HandleRelease(i, faults) => HandleReleased(w, w', i, faults, fromBytes)
    case MountStart(t, name, parent) => MountStarted(w, w', t, name, parent, true)
    case ByGraphIDStart(t, name, _, parent, exists_) => MountStarted(w, w', t, name, parent, exists_)
    case MountFail(t, faults) => MountFailed(w, w', t, faults, fromBytes)
    case MountEnd(t, mountID, initID, reference) => MountEnded(w, w', t, mountID, initID, reference)
    case MountGet(name) => MountGot(w, w', name)
    case MountRelease(t, i, removable) => MountReleased(w, w', t, i, removable)
    case MountReleaseEnd(t, faults) => MountReleaseEnded(w, w', t, faults, fromBytes)
    case MountUse(i, mount) => MountUsed(w, w', i, mount)
  }

  // ---- Runs ----

  // The moments of a run, one more than its steps.
  ghost predicate IsTrace(worlds: seq<World>, steps: seq<Step>, fromBytes: string -> string) {
    && |worlds| == |steps| + 1
    && (forall i {:trigger worlds[i]} | 0 <= i < |worlds| :: Sound(worlds[i].state, fromBytes))
    && (forall i {:trigger steps[i]} | 0 <= i < |steps| :: StepDone(steps[i], worlds[i], worlds[i + 1], fromBytes))
  }

  lemma TraceGoesOn(worlds: seq<World>, steps: seq<Step>, fromBytes: string -> string, step: Step, w: World)
    requires IsTrace(worlds, steps, fromBytes) && Sound(w.state, fromBytes) && StepDone(step, worlds[|steps|], w, fromBytes)
    ensures IsTrace(worlds + [w], steps + [step], fromBytes)
  {
    hide Sound, StepDone;
    var ws, ss := worlds + [w], steps + [step];
    forall i {:trigger ss[i]} | 0 <= i < |ss| ensures StepDone(ss[i], ws[i], ws[i + 1], fromBytes) {
      assert i < |steps| ==> ss[i] == steps[i] && ws[i + 1] == worlds[i + 1];
    }
  }

  lemma TraceBefore(worlds: seq<World>, steps: seq<Step>, fromBytes: string -> string, n: nat)
    requires IsTrace(worlds, steps, fromBytes) && n <= |steps|
    ensures IsTrace(worlds[..n + 1], steps[..n], fromBytes)
  {
    hide Sound, StepDone;
    forall i {:trigger steps[..n][i]} | 0 <= i < n ensures StepDone(steps[..n][i], worlds[..n + 1][i], worlds[..n + 1][i + 1], fromBytes) {
      assert steps[i] == steps[..n][i];
    }
  }

  // ---- What the steps do to handles ----

  lemma TraceStarts(w: World, fromBytes: string -> string)
    requires Sound(w.state, fromBytes)
    ensures IsTrace([w], [], fromBytes)
  {
  }

  lemma HandedGrows(step: Step, w: World, w': World, fromBytes: string -> string)
    requires StepDone(step, w, w', fromBytes)
    ensures w.handed <= w'.handed
  {
    hide Sound, Released;
  }

  // The step is the release of this handle.
  predicate Releases(step: Step, w: World, ref: LayerHandle) {
    step.HandleRelease? && step.i < |w.handed| && w.handed[step.i] == ref
  }

  lemma ReleasedKeepsLive(s: State, h: Holder, faults: Faults, fromBytes: string -> string, ref: LayerHandle)
    requires Sound(s, fromBytes) && h in s.holds
    ensures LiveIn(Released(s, h, faults, fromBytes).state, ref) <==> LiveIn(s, ref)
  {
    hide Sound, Released;
    var s' := Released(s, h, faults, fromBytes).state;
    var id := ref.layer.chainID;
    ReleasedKeepsHandles(s, h, faults, fromBytes);
    ReleasedAddsNoHandles(s, h, faults, fromBytes, id);
    assert HandlesOn(s, id) - {} <= HandlesOn(s', id) <= HandlesOn(s, id);
    assert LiveIn(s, ref) <==> ref in HandlesOn(s, id);
    assert LiveIn(s', ref) <==> ref in HandlesOn(s', id);
  }

  // A step makes live exactly the handle it hands out, and ends exactly the one it releases.
  lemma StepMakesLive(step: Step, w: World, w': World, fromBytes: string -> string, ref: LayerHandle)
    requires Sound(w.state, fromBytes) && StepDone(step, w, w', fromBytes)
    ensures w.handed <= w'.handed
    ensures LiveIn(w'.state, ref) <==>
              (LiveIn(w.state, ref) && !Releases(step, w, ref)) || ref in w'.handed[|w.handed|..]
    ensures ref in w'.handed[|w.handed|..] ==> ref !in w.handed
  {
    if step.RegisterEnd? {
      RegisterMakesLive(step, w, w', fromBytes, ref);
    } else if step.GetEnd? {
      GetMakesLive(step, w, w', fromBytes, ref);
    } else if step.ParentRelease? || step.MountReleaseEnd? || step.MountFail? || step.HandleRelease? {
      ReleaseEndsLive(step, w, w', fromBytes, ref);
    } else {
      HandlesAreSame(step, w, w', fromBytes);
      hide StepDone;
    }
  }

  lemma HandlesAreSame(step: Step, w: World, w': World, fromBytes: string -> string)
    requires StepDone(step, w, w', fromBytes) && !step.RegisterEnd? && !step.GetEnd?
    requires !step.ParentRelease? && !step.MountReleaseEnd? && !step.MountFail? && !step.HandleRelease?
    ensures w'.state.handles == w.state.handles && w'.handed == w.handed
  {
    hide Sound, Released, Insert, NewChainID, HandsOut, HandsOutMount;
  }

  lemma ReleaseEndsLive(step: Step, w: World, w': World, fromBytes: string -> string, ref: LayerHandle)
    requires StepDone(step, w, w', fromBytes) && (step.ParentRelease? || step.MountReleaseEnd? || step.MountFail? || step.HandleRelease?)
    ensures w'.handed == w.handed
    ensures LiveIn(w'.state, ref) <==> LiveIn(w.state, ref) && !Releases(step, w, ref)
  {
    hide Sound, Released;
    var s := w.state;
    if step.HandleRelease? {
      if step.i < |w.handed| && LiveIn(s, w.handed[step.i]) {
        ReleasedKeepsLive(HandleToHold(s, w.handed[step.i], Locked), Locked, step.faults, fromBytes, ref);
      }
    } else if Sound(s, fromBytes) && Call(step.t) in s.holds {
      ReleasedKeepsLive(s, Call(step.t), step.faults, fromBytes, ref);
    }
  }

  lemma RegisterMakesLive(step: Step, w: World, w': World, fromBytes: string -> string, ref: LayerHandle)
    requires Sound(w.state, fromBytes) && StepDone(step, w, w', fromBytes) && step.RegisterEnd?
    ensures w.handed <= w'.handed
    ensures LiveIn(w'.state, ref) <==> LiveIn(w.state, ref) || ref in w'.handed[|w.handed|..]
    ensures ref in w'.handed[|w.handed|..] ==> ref !in w.handed
  {
    var s := w.state;
    assert s.handles.Keys == s.layerMap.Keys;
    hide Sound, NewChainID, LiveIn, Insert, HoldToHandle, Take;
    if |w'.handed| > |w.handed| {
      var new_ := w'.handed[|w.handed|];
      assert w'.handed[|w.handed|..] == [new_];
      if new_.layer.chainID in s.layerMap {
        HandedOutIsLive(s, new_, ref);
      } else {
        InsertedIsLive(s, new_, Call(step.t), ref);
      }
    }
  }

  lemma HandedOutIsLive(s: State, new_: LayerHandle, ref: LayerHandle)
    requires var l := new_.layer; l.chainID in s.counts && l.chainID in s.handles
    ensures LiveIn(HoldToHandle(Take(s, Locked, new_.layer), Locked, new_), ref) <==> LiveIn(s, ref) || ref == new_
  {
  }

  lemma InsertedIsLive(s: State, new_: LayerHandle, h: Holder, ref: LayerHandle)
    requires new_.layer.chainID !in s.handles
    ensures LiveIn(Insert(s, new_.layer, new_, h), ref) <==> LiveIn(s, ref) || ref == new_
  {
  }

  lemma GetMakesLive(step: Step, w: World, w': World, fromBytes: string -> string, ref: LayerHandle)
    requires StepDone(step, w, w', fromBytes) && step.GetEnd?
    ensures w.handed <= w'.handed
    ensures LiveIn(w'.state, ref) <==> LiveIn(w.state, ref) || ref in w'.handed[|w.handed|..]
    ensures ref in w'.handed[|w.handed|..] ==> ref !in w.handed
  {
    if |w'.handed| > |w.handed| {
      assert w'.handed[|w.handed|..] == [w'.handed[|w.handed|]];
    }
  }

  // In any run a handle is live exactly from when it is handed out, if it was not live
  // before, until it is released.
  lemma {:induction false} LiveUntilReleased(worlds: seq<World>, steps: seq<Step>, fromBytes: string -> string, ref: LayerHandle)
    requires IsTrace(worlds, steps, fromBytes)
    ensures var w0, w := worlds[0], worlds[|steps|];
            && w0.handed <= w.handed
            && (LiveIn(w.state, ref) <==>
                  && (LiveIn(w0.state, ref) || ref in w.handed[|w0.handed|..])
                  && forall i | 0 <= i < |steps| :: !Releases(steps[i], worlds[i], ref))
    ensures forall i | 0 <= i < |steps| :: worlds[i].handed <= worlds[|steps|].handed
    decreases |steps|
  {
    hide Sound, StepDone, LiveIn;
    if steps != [] {
      var n := |steps| - 1;
      TraceBefore(worlds, steps, fromBytes, n);
      LiveUntilReleased(worlds[..n + 1], steps[..n], fromBytes, ref);
      assert steps[n] == steps[n];
      StepMakesLive(steps[n], worlds[n], worlds[n + 1], fromBytes, ref);
      var w0, w1, w := worlds[0], worlds[n], worlds[n + 1];
      assert w.handed[|w0.handed|..] == w1.handed[|w0.handed|..] + w.handed[|w1.handed|..];
      forall i | 0 <= i < |steps| ensures Releases(steps[i], worlds[i], ref) ==> ref in w1.handed {
        if i < n && Releases(steps[i], worlds[i], ref) {
          assert worlds[..n + 1][i].handed <= w1.handed;
          assert w1.handed[steps[i].i] == ref;
        }
      }
      assert forall i | 0 <= i < n :: steps[..n][i] == steps[i] && worlds[..n + 1][i] == worlds[i];
    }
  }

  // The ID of the layer that a step hands out a handle on, if it does: the end of a Get
  // does, and the end of a Register whose layer is there or is committed.
  ghost function HandedLayer(step: Step, w: World, fromBytes: string -> string): Option<ChainID> {
    if step.GetEnd? && step.t in w.frames && w.frames[step.t].Got? then Some(w.frames[step.t].layer.chainID)
    else if step.RegisterEnd? && step.t in w.frames && w.frames[step.t].Registering? then
      var id := NewChainID(fromBytes, w.frames[step.t].parent, step.diffID);
      if step.committed || id in w.state.layerMap then Some(id) else None
    else None
  }

  lemma HandsOutExactly(step: Step, w: World, w': World, fromBytes: string -> string)
    requires Sound(w.state, fromBytes) && StepDone(step, w, w', fromBytes)
    ensures var id := HandedLayer(step, w, fromBytes);
            if id.None? then w'.handed == w.handed
            else
              && |w'.handed| == |w.handed| + 1
              && w'.handed[|w.handed|].layer.chainID == id.value
              && LiveIn(w'.state, w'.handed[|w.handed|])
  {
    if step.RegisterEnd? {
      RegisterHandsOut(step, w, w', fromBytes);
    } else if step.GetEnd? {
      hide Sound;
    } else {
      hide Sound, Released, Take, HoldToHandle, HandleToHold, Insert, Pass, NewChainID, HandsOut, HandsOutMount;
    }
  }

  lemma RegisterHandsOut(step: Step, w: World, w': World, fromBytes: string -> string)
    requires Sound(w.state, fromBytes) && StepDone(step, w, w', fromBytes) && step.RegisterEnd?
    ensures var id := HandedLayer(step, w, fromBytes);
            if id.None? then w'.handed == w.handed
            else
              && |w'.handed| == |w.handed| + 1
              && w'.handed[|w.handed|].layer.chainID == id.value
              && LiveIn(w'.state, w'.handed[|w.handed|])
  {
    KeysAreChainIDs(w.state, fromBytes);
    hide Sound, NewChainID;
  }

  // A layer enters the store exactly by the end of a Register that commits it.
  lemma EntersExactly(step: Step, w: World, w': World, fromBytes: string -> string, id: ChainID)
    requires Sound(w.state, fromBytes) && StepDone(step, w, w', fromBytes) && id !in w.state.layerMap
    ensures id in w'.state.layerMap <==>
              && step.RegisterEnd? && step.committed && step.t in w.frames && w.frames[step.t].Registering?
              && id == NewChainID(fromBytes, w.frames[step.t].parent, step.diffID)
  {
    if step.RegisterEnd? {
      hide Sound, NewChainID, HandsOut;
    } else if step.ParentRelease? || step.MountReleaseEnd? || step.MountFail? || step.HandleRelease? {
      ReleaseEntersNone(step, w, w', fromBytes, id);
    } else {
      LayersAreSame(step, w, w', fromBytes);
      hide StepDone;
    }
  }

  lemma LayersAreSame(step: Step, w: World, w': World, fromBytes: string -> string)
    requires StepDone(step, w, w', fromBytes) && !step.RegisterEnd?
    requires !step.ParentRelease? && !step.MountReleaseEnd? && !step.MountFail? && !step.HandleRelease?
    ensures w'.state.layerMap == w.state.layerMap
  {
    hide Sound, Released, Insert, NewChainID, HandsOut, HandsOutMount;
  }

  lemma ReleaseEntersNone(step: Step, w: World, w': World, fromBytes: string -> string, id: ChainID)
    requires StepDone(step, w, w', fromBytes) && (step.ParentRelease? || step.MountReleaseEnd? || step.MountFail? || step.HandleRelease?)
    requires id !in w.state.layerMap
    ensures id !in w'.state.layerMap
  {
    hide Sound, Released;
    var s := w.state;
    if step.HandleRelease? {
      if step.i < |w.handed| && LiveIn(s, w.handed[step.i]) {
        ReleasedAddsNoLayer(HandleToHold(s, w.handed[step.i], Locked), Locked, step.faults, fromBytes, id);
      }
    } else if Sound(s, fromBytes) && Call(step.t) in s.holds {
      ReleasedAddsNoLayer(s, Call(step.t), step.faults, fromBytes, id);
    }
  }

  lemma ReleasedAddsNoLayer(s: State, h: Holder, faults: Faults, fromBytes: string -> string, id: ChainID)
    requires Sound(s, fromBytes) && h in s.holds && id !in s.layerMap
    ensures id !in Released(s, h, faults, fromBytes).state.layerMap
  {
    hide Sound, Released;
    ReleasedIsRun(s, h, faults, fromBytes);
  }

  // ---- What the steps do to calls ----

  // The step that a call ends with, or, while it registers, its error.
  function Finish(f: Frame, t: nat): Step {
    match f
    case Got(_) => GetEnd(t)
    case Registering(_) => RegisterFail(t)
    case CleaningUp(_) => ParentRelease(t, Faults({}, {}))
    case CreatingMount(_, _) => MountFail(t, Faults({}, {}))
    case Unmounting(_) => MountReleaseEnd(t, Faults({}, {}))
  }

  // It ends the call, but for a parent that is still to be released.
  lemma FinishEnds(w: World, w': World, fromBytes: string -> string, t: nat)
    requires t in w.frames && StepDone(Finish(w.frames[t], t), w, w', fromBytes)
    ensures var f := w.frames[t];
            w'.frames == if f.Registering? && f.parent != null then w.frames[t := CleaningUp(f.parent)] else w.frames - {t}
    ensures w.frames[t].HasMountLock() ==> w'.mountL == None
  {
    hide Sound, Released;
  }

  // A call begins exactly with one of these steps, if it is not in progress.
  predicate Begins(step: Step, w: World, t: nat) {
    match step
    case GetStart(u, id) => u == t && id in w.state.layerMap
    case RegisterStart(u, parent, _) => u == t && (parent == "" || parent in w.state.layerMap)
    case MountStart(u, name, parent) =>
      u == t && w.mountL.None? && name !in w.mounts && (parent == "" || parent in w.state.layerMap)
    case ByGraphIDStart(u, name, _, parent, exists_) =>
      u == t && w.mountL.None? && name !in w.mounts && exists_ && (parent == "" || parent in w.state.layerMap)
    case _ => false
  }

  lemma BeginsExactly(step: Step, w: World, w': World, fromBytes: string -> string, t: nat)
    requires StepDone(step, w, w', fromBytes) && t !in w.frames && !step.MountRelease?
    ensures t in w'.frames <==> Begins(step, w, t)
  {
    hide Sound, Released, NewChainID;
  }

  // ---- What the steps do to mounts ----

  predicate EndsUse(step: Step, w: World, r: RWReference) {
    step.MountUse? && !step.mount && step.i < |w.rws| && w.rws[step.i] == r
  }

  predicate BeginsUse(step: Step, w: World, r: RWReference) {
    step.MountUse? && step.mount && step.i < |w.rws| && w.rws[step.i] == r
  }

  // The uses of a reference go up and down one by one, and a reference that is in use
  // stays one of its mount in the store.
  lemma StepUses(step: Step, w: World, w': World, fromBytes: string -> string, r: RWReference)
    requires StepDone(step, w, w', fromBytes) && Retained(w, r) && w.uses[r] > 0
    ensures Retained(w', r)
    ensures w'.uses[r] == w.uses[r] + (if BeginsUse(step, w, r) then 1 else 0) - (if EndsUse(step, w, r) then 1 else 0)
  {
    if step.MountUse? || step.MountRelease? || step.MountEnd? || step.MountGet? {
      hide Sound, Released, Pass;
    } else {
      MountsAreSame(step, w, w', fromBytes);
      hide StepDone;
    }
  }

  lemma MountsAreSame(step: Step, w: World, w': World, fromBytes: string -> string)
    requires StepDone(step, w, w', fromBytes) && !step.MountUse? && !step.MountRelease? && !step.MountEnd? && !step.MountGet?
    ensures w'.mounts == w.mounts && w'.uses == w.uses
  {
    hide Sound, Released, NewChainID, Take, HoldToHandle, HandleToHold, Insert, HandsOut;
  }

  // A reference not in use is released by one step, for good, and the mount goes with
  // the last one if it can be removed.
  lemma StepReleasesMount(step: Step, w: World, w': World, fromBytes: string -> string, r: RWReference)
    requires StepDone(step, w, w', fromBytes) && step.MountRelease? && step.i < |w.rws| && w.rws[step.i] == r
    requires Retained(w, r) && w.uses[r] == 0 && step.t !in w.frames && w.mountL.None?
    ensures r in w'.uses && w'.uses[r] == -1
    ensures r.mount.name in w'.mounts <==>
              !step.removable || exists q :: q in w.uses && q != r && q.mount == r.mount && w.uses[q] != -1
  {
    hide Sound, Released;
  }

  function UsesEnded(worlds: seq<World>, steps: seq<Step>, r: RWReference): nat
    requires |worlds| == |steps| + 1
  {
    if steps == [] then 0
    else
      var n := |steps| - 1;
      UsesEnded(worlds[..n + 1], steps[..n], r) + if EndsUse(steps[n], worlds[n], r) then 1 else 0
  }

  // In any run a mount with more uses than are ended in it stays in the store.
  lemma {:induction false} UsedMountStays(worlds: seq<World>, steps: seq<Step>, fromBytes: string -> string, r: RWReference)
    requires IsTrace(worlds, steps, fromBytes) && Retained(worlds[0], r)
    requires worlds[0].uses[r] > UsesEnded(worlds, steps, r)
    ensures Retained(worlds[|steps|], r) && worlds[|steps|].uses[r] >= worlds[0].uses[r] - UsesEnded(worlds, steps, r)
    decreases |steps|
  {
    hide Sound, StepDone, Retained;
    if steps != [] {
      var n := |steps| - 1;
      TraceBefore(worlds, steps, fromBytes, n);
      UsedMountStays(worlds[..n + 1], steps[..n], fromBytes, r);
      assert steps[n] == steps[n];
      StepUses(steps[n], worlds[n], worlds[n + 1], fromBytes, r);
    }
  }
}
