// The layer store as a concurrent protocol (docker/layer/layer_store.go,
// docker/layer/migration.go). Every method is one stretch of code run under a
// lock, so the methods are the atomic steps of the protocol; a call that gives up
// its locks in between is kept in `frames` until its next step.
module LayerStores {
  import opened Options
  import opened ChainIDs
  import opened Layers
  import opened LayerStates

  const MAX_LAYER_DEPTH := 125

  // Where a call that is between two steps has got to.
  datatype Frame =
    | Got(layer: RoLayer)                           // Get: counted, no handle made yet
    | Registering(parent: RoLayer?)                 // Register, RegisterByGraphID: parent counted
    | CleaningUp(layer: RoLayer)                    // the deferred release of a parent is still to run
    | CreatingMount(name: string, parent: RoLayer?) // CreateRWLayer: has mountL, parent counted
    | Unmounting(layer: RoLayer)                    // ReleaseRWLayer: has mountL, mount deleted
  {
    // The layer whose reference count includes this call.
    function Holds(): RoLayer? {
      match this
      case Got(l) => l
      case Registering(p) => p
      case CleaningUp(l) => l
      case CreatingMount(_, p) => p
      case Unmounting(l) => l
    }

    predicate HasMountLock() {
      CreatingMount? || Unmounting?
    }

    // The empty ID stands for having no parent.
    predicate ParentNamed() {
      (Registering? || CreatingMount?) && parent != null ==> parent.chainID != ""
    }
  }

  datatype ReleaseResult = Dropped | NoSuchLayer | NotHeld | DeleteFailed

  datatype CreateResult =
    | Creating | NameConflict | ParentMissing
    // Only of CreateRWLayerByGraphID:
    | MismatchedParent | MountExists | AlreadyThere | GraphMissing | NilDereference

  datatype RWRelease = NoSuchMount | Refused(why: RWResult) | StillReferenced | RemoveFailed | Removed

  datatype Begun = Started | DoesNotExist | TooDeep

  datatype MountMeta = MountMeta(mountID: string, initID: string, parent: ChainID)

  ghost function MountMetaOf(m: MountedLayer): MountMeta {
    MountMeta(m.mountID, m.initID, if m.parent == null then "" else m.parent.chainID)
  }

  // The holds are exactly those of the mounts and of the calls in progress.
  ghost predicate HoldsMatch(holds: map<Holder, RoLayer>, mounts: map<string, MountedLayer>, frames: map<nat, Frame>) {
    && (forall h | h in holds :: HoldFits(h, holds[h], mounts, frames))
    && (forall n | n in mounts && mounts[n].parent != null :: Mount(n) in holds && holds[Mount(n)] == mounts[n].parent)
    && (forall t | t in frames && frames[t].Holds() != null :: Call(t) in holds && holds[Call(t)] == frames[t].Holds())
  }

  ghost predicate HoldFits(h: Holder, l: RoLayer, mounts: map<string, MountedLayer>, frames: map<nat, Frame>) {
    match h
    case Mount(n) => n in mounts && mounts[n].parent == l
    case Call(t) => t in frames && frames[t].Holds() == l
    case Locked => false
  }

  // mountL is with the call that is creating or removing a mount; a mount being
  // created is not in the store yet; mounts are stored under their names.
  ghost predicate MountsOrdered(mounts: map<string, MountedLayer>, mountMetadata: map<string, MountMeta>, frames: map<nat, Frame>, mountL: Option<nat>) {
    && (forall t | t in frames :: frames[t].HasMountLock() <==> mountL == Some(t))
    && (mountL.Some? ==> mountL.value in frames)
    && (forall t | t in frames && frames[t].CreatingMount? :: frames[t].name !in mounts)
    && (forall t | t in frames :: frames[t].ParentNamed())
    && mountMetadata.Keys == mounts.Keys
    && (forall n | n in mounts && mounts[n].parent != null :: mounts[n].parent.chainID != "")
    && (forall n | n in mounts :: mounts[n].name == n && mountMetadata[n] == MountMetaOf(mounts[n]))
  }

  // ---- How holds follow the calls in progress and the mounts ----

  lemma FrameAdded(holds: map<Holder, RoLayer>, mounts: map<string, MountedLayer>, frames: map<nat, Frame>, t: nat, f: Frame)
    requires HoldsMatch(holds, mounts, frames) && t !in frames
    ensures Call(t) !in holds && Locked !in holds
    ensures HoldsMatch(if f.Holds() == null then holds else holds[Call(t) := f.Holds()], mounts, frames[t := f])
  {
    assert Call(t) in holds ==> HoldFits(Call(t), holds[Call(t)], mounts, frames);
    assert Locked in holds ==> HoldFits(Locked, holds[Locked], mounts, frames);
  }

  lemma FrameRemoved(holds: map<Holder, RoLayer>, mounts: map<string, MountedLayer>, frames: map<nat, Frame>, t: nat)
    requires HoldsMatch(holds, mounts, frames) && t in frames
    ensures HoldsMatch(holds - {Call(t)}, mounts, frames - {t})
    ensures frames[t].Holds() == null ==> Call(t) !in holds
  {
    assert Call(t) in holds ==> HoldFits(Call(t), holds[Call(t)], mounts, frames);
    forall h | h in holds - {Call(t)} ensures HoldFits(h, holds[h], mounts, frames - {t}) {
      assert HoldFits(h, holds[h], mounts, frames);
    }
  }

  lemma FrameReplaced(holds: map<Holder, RoLayer>, mounts: map<string, MountedLayer>, frames: map<nat, Frame>, t: nat, f: Frame)
    requires HoldsMatch(holds, mounts, frames) && t in frames && frames[t].Holds() == f.Holds()
    ensures HoldsMatch(holds, mounts, frames[t := f])
  {
    forall h | h in holds ensures HoldFits(h, holds[h], mounts, frames[t := f]) {
      assert HoldFits(h, holds[h], mounts, frames);
    }
  }

  lemma MountAdded(holds: map<Holder, RoLayer>, mounts: map<string, MountedLayer>, frames: map<nat, Frame>, t: nat, m: MountedLayer)
    requires HoldsMatch(holds, mounts, frames) && t in frames && frames[t].Holds() == m.parent && m.name !in mounts
    ensures Mount(m.name) !in holds
    ensures HoldsMatch(if m.parent == null then holds else (holds - {Call(t)})[Mount(m.name) := m.parent], mounts[m.name := m], frames - {t})
  {
    FrameRemoved(holds, mounts, frames, t);
    assert Mount(m.name) in holds ==> HoldFits(Mount(m.name), holds[Mount(m.name)], mounts, frames);
    if m.parent == null {
      assert holds - {Call(t)} == holds;
    }
    forall h | h in holds - {Call(t)} ensures HoldFits(h, holds[h], mounts[m.name := m], frames - {t}) {
      assert HoldFits(h, holds[h], mounts, frames - {t});
    }
  }

  lemma MountRemoved(holds: map<Holder, RoLayer>, mounts: map<string, MountedLayer>, frames: map<nat, Frame>, t: nat, n: string)
    requires HoldsMatch(holds, mounts, frames) && t !in frames && n in mounts
    ensures mounts[n].parent == null ==> HoldsMatch(holds, mounts - {n}, frames)
    ensures mounts[n].parent != null ==>
              && Mount(n) in holds && holds[Mount(n)] == mounts[n].parent
              && HoldsMatch((holds - {Mount(n)})[Call(t) := mounts[n].parent], mounts - {n}, frames[t := Unmounting(mounts[n].parent)])
  {
    FrameAdded(holds, mounts, frames, t, Registering(mounts[n].parent));
    assert Mount(n) in holds ==> HoldFits(Mount(n), holds[Mount(n)], mounts, frames);
    forall h | h in holds - {Mount(n)} ensures HoldFits(h, holds[h], mounts - {n}, frames) {
      assert HoldFits(h, holds[h], mounts, frames);
    }
    forall h | h in holds - {Mount(n)} && mounts[n].parent != null
      ensures HoldFits(h, holds[h], mounts - {n}, frames[t := Unmounting(mounts[n].parent)])
    {
      assert HoldFits(h, holds[h], mounts, frames);
    }
  }

  // A call without mountL comes, goes or moves on.
  lemma OrderKept(mounts: map<string, MountedLayer>, mountMetadata: map<string, MountMeta>, frames: map<nat, Frame>, mountL: Option<nat>, t: nat, f: Frame)
    requires MountsOrdered(mounts, mountMetadata, frames, mountL) && !f.HasMountLock() && f.ParentNamed()
    requires t in frames ==> !frames[t].HasMountLock()
    ensures MountsOrdered(mounts, mountMetadata, frames[t := f], mountL)
    ensures MountsOrdered(mounts, mountMetadata, frames - {t}, mountL)
  {
  }

  lemma LockTaken(mounts: map<string, MountedLayer>, mountMetadata: map<string, MountMeta>, frames: map<nat, Frame>, t: nat, f: Frame)
    requires MountsOrdered(mounts, mountMetadata, frames, None)
    requires f.HasMountLock() && (f.CreatingMount? ==> f.name !in mounts) && f.ParentNamed()
    ensures MountsOrdered(mounts, mountMetadata, frames[t := f], Some(t))
  {
  }

  lemma LockGiven(mounts: map<string, MountedLayer>, mountMetadata: map<string, MountMeta>, frames: map<nat, Frame>, mountL: Option<nat>, t: nat)
    requires MountsOrdered(mounts, mountMetadata, frames, mountL) && t in frames && frames[t].HasMountLock()
    ensures mountL == Some(t) && frames[t].ParentNamed() && (frames[t].CreatingMount? ==> frames[t].name !in mounts)
    ensures MountsOrdered(mounts, mountMetadata, frames - {t}, None)
  {
  }

  lemma OrderedMountAdded(mounts: map<string, MountedLayer>, mountMetadata: map<string, MountMeta>, frames: map<nat, Frame>, m: MountedLayer)
    requires MountsOrdered(mounts, mountMetadata, frames, None) && (m.parent != null ==> m.parent.chainID != "")
    ensures MountsOrdered(mounts[m.name := m], mountMetadata[m.name := MountMetaOf(m)], frames, None)
  {
  }

  lemma OrderedMountRemoved(mounts: map<string, MountedLayer>, mountMetadata: map<string, MountMeta>, frames: map<nat, Frame>, n: string)
    requires MountsOrdered(mounts, mountMetadata, frames, None)
    ensures MountsOrdered(mounts - {n}, mountMetadata - {n}, frames, None)
  {
  }

  // The counts and handles are those of the layers, which are among the known ones.
  ghost predicate IsReal(s: State, layers: set<RoLayer>)
    reads layers
  {
    && s.counts.Keys == s.handles.Keys == s.layerMap.Keys
    && s.layerMap.Values <= layers
    && forall id {:trigger s.counts[id]} {:trigger s.handles[id]} | id in s.layerMap ::
         s.layerMap[id].referenceCount == s.counts[id] && s.layerMap[id].references == s.handles[id]
  }

  lemma DeletedIsReal(s: State, layers: set<RoLayer>, l: RoLayer, h: Holder)
    requires IsReal(s, layers)
    ensures IsReal(Delete(s, l, h), layers)
    ensures Delete(s, l, h).layerMap == s.layerMap - {l.chainID} && Delete(s, l, h).metadata == s.metadata - {l.chainID}
  {
  }

  lemma InsertedIsReal(s: State, layers: set<RoLayer>, l: RoLayer, ref: LayerHandle, h: Holder)
    requires IsReal(s, layers) && l.referenceCount == 1 && l.references == {ref}
    ensures IsReal(Insert(s, l, ref, h), layers + {l})
    ensures Insert(s, l, ref, h).layerMap == s.layerMap[l.chainID := l]
    ensures Insert(s, l, ref, h).metadata == s.metadata[l.chainID := MetaOf(l)]
  {
    var m := s.layerMap[l.chainID := l];
    forall id | id in m && id != l.chainID ensures m[id] in layers {
      assert s.layerMap[id] in s.layerMap.Values;
    }
  }

  class LayerStore {
    const fromBytes: string -> string
    var layerMap: map<ChainID, RoLayer>
    var mounts: map<string, MountedLayer>
    // The committed contents of the metadata store.
    var metadata: map<ChainID, LayerMeta>
    var mountMetadata: map<string, MountMeta>
    // The calls between two steps, by call number, and the call that has mountL.
    var frames: map<nat, Frame>
    var mountL: Option<nat>
    // The layers, their counts and their handles as one value, with who holds what.
    ghost var state: State
    // Every object this store ever made.
    ghost var layers: set<RoLayer>
    ghost var mountObjects: set<MountedLayer>
    ghost var rwReferences: set<RWReference>

    // The state is what the fields and the layer objects say.
    ghost predicate StateIsReal()
      reads this`layerMap, this`metadata, this`state, this`layers, layers
    {
      state.layerMap == layerMap && state.metadata == metadata && IsReal(state, layers)
    }

    ghost predicate LayersValid()
      reads this`layerMap, this`metadata, this`state, this`layers, layers
    {
      StateIsReal() && Sound(state, fromBytes)
    }

    // A mount reference is registered with its mount exactly until it is
    // released, and a mount with references is in the store.
    ghost predicate RWReferencesTracked()
      reads this`mounts, this`mountObjects, this`rwReferences, mountObjects, rwReferences
    {
      && mounts.Values <= mountObjects
      && (forall r | r in rwReferences ::
            && r.mount in mountObjects
            && r.activityCount >= -1
            && (r in r.mount.references <==> r.activityCount != -1))
      && (forall m, r {:trigger r in m.references} | m in mountObjects && r in m.references ::
            && r in rwReferences && r.mount == m
            && m.name in mounts && mounts[m.name] == m)
    }

    ghost predicate Valid()
      reads this, layers, mountObjects, rwReferences
    {
      && LayersValid()
      && HoldsMatch(state.holds, mounts, frames)
      && MountsOrdered(mounts, mountMetadata, frames, mountL)
      && RWReferencesTracked()
    }

    constructor (fromBytes: string -> string)
      ensures Valid() && this.fromBytes == fromBytes
      ensures layerMap == map[] && mounts == map[] && frames == map[] && mountL == None
      ensures NoneUnheld(state)
      ensures layers == {} && mountObjects == {} && rwReferences == {}
    {
      this.fromBytes := fromBytes;
      layerMap, mounts, metadata, mountMetadata := map[], map[], map[], map[];
      frames, mountL := map[], None;
      state := State(map[], map[], map[], map[], map[]);
      layers, mountObjects, rwReferences := {}, {}, {};
    }

    // A store of layers and mounts that have been loaded.
    constructor Loaded(fromBytes: string -> string, layerMap: map<ChainID, RoLayer>, mounts: map<string, MountedLayer>,
                       metadata: map<ChainID, LayerMeta>, mountMetadata: map<string, MountMeta>, ghost state: State)
      requires Sound(state, fromBytes) && state.layerMap == layerMap && state.metadata == metadata
      requires forall id | id in layerMap :: layerMap[id].referenceCount == state.counts[id] && layerMap[id].references == state.handles[id]
      requires HoldsMatch(state.holds, mounts, map[]) && MountsOrdered(mounts, mountMetadata, map[], None)
      requires forall n | n in mounts :: mounts[n].references == {}
      ensures Valid() && this.fromBytes == fromBytes && this.state == state
      ensures this.layerMap == layerMap && this.mounts == mounts && frames == map[] && mountL == None
      ensures this.metadata == metadata && this.mountMetadata == mountMetadata
    {
      assert IsReal(state, layerMap.Values);
      hide Sound, HoldsMatch, MountsOrdered, IsReal;
      this.fromBytes := fromBytes;
      this.layerMap, this.mounts, this.metadata, this.mountMetadata := layerMap, mounts, metadata, mountMetadata;
      this.frames, this.mountL := map[], None;
      this.state := state;
      this.layers, this.mountObjects, this.rwReferences := layerMap.Values, mounts.Values, {};
    }

    // ---- The parts run under layerL ----

    lemma LayerIsReal(l: RoLayer)
      requires LayersValid() && InMap(layerMap, l)
      ensures l in layers && Rooted(l)
      ensures l.referenceCount == state.counts[l.chainID] && l.references == state.handles[l.chainID]
      ensures forall id | id in layerMap && id != l.chainID :: layerMap[id] != l
    {
      KeysAreChainIDs(state, fromBytes);
      assert layerMap[l.chainID] in layerMap.Values;
    }

    lemma HeldIsInMap(h: Holder)
      requires LayersValid() && h in state.holds
      ensures InMap(layerMap, state.holds[h])
    {
    }

    // getWithoutLock: counts a layer for h, if it is there.
    method GetWithoutLock(id: ChainID, h: Holder) returns (l: RoLayer?)
      requires LayersValid() && h !in state.holds
      modifies this`state, layers`referenceCount
      ensures LayersValid()
      ensures l == if id in layerMap then layerMap[id] else null
      ensures l == null ==> state == old(state)
      ensures l != null ==> l.chainID == id && l.chainID in old(state.counts) && state == Take(old(state), h, l)
    {
      hide Sound;
      if id !in layerMap {
        return null;
      }
      l := layerMap[id];
      KeysAreChainIDs(state, fromBytes);
      LayerIsReal(l);
      TakeKeeps(state, h, l, fromBytes);
      l.referenceCount := l.referenceCount + 1;
      state := Take(state, h, l);
    }

    // getReference on a layer h has counted.
    method MakeHandle(l: RoLayer, h: Holder) returns (ref: LayerHandle)
      requires LayersValid() && h in state.holds && state.holds[h] == l
      modifies this`state, l`references
      ensures LayersValid() && fresh(ref) && ref.layer == l
      ensures l.chainID in old(state.handles) && state == HoldToHandle(old(state), h, ref)
    {
      hide Sound;
      HeldIsInMap(h);
      LayerIsReal(l);
      ref := l.GetReference();
      HoldToHandleKeeps(state, h, ref, fromBytes);
      state := HoldToHandle(state, h, ref);
    }

    method DropHold(l: RoLayer, h: Holder)
      requires LayersValid() && h in state.holds && state.holds[h] == l
      modifies this`state, l`referenceCount
      ensures LayersValid() && l.chainID in old(state.counts) && state == Drop(old(state), h)
      ensures old(l.referenceCount) > 0 && InMap(layerMap, l) && l.referenceCount == state.counts[l.chainID]
    {
      hide Sound;
      HeldIsInMap(h);
      LayerIsReal(l);
      DropKeeps(state, h, fromBytes);
      l.referenceCount := l.referenceCount - 1;
      state := Drop(state, h);
    }

    method DeleteUnheld(l: RoLayer, h: Holder)
      requires LayersValid() && InMap(layerMap, l) && l.referenceCount == 0 && h !in state.holds
      modifies this`layerMap, this`metadata, this`state
      ensures LayersValid() && state == Delete(old(state), l, h)
    {
      hide Sound;
      LayerIsReal(l);
      DeleteKeeps(state, l, h, fromBytes);
      DeletedIsReal(state, layers, l, h);
      hide IsReal, Delete;
      layerMap := layerMap - {l.chainID};
      metadata := metadata - {l.chainID};
      state := Delete(state, l, h);
    }

    // deleteReference: the handle's share of the count is for now the running call's.
    method DropHandle(l: RoLayer, ref: LayerHandle)
      requires LayersValid() && InMap(layerMap, l) && ref in l.references && ref.layer == l && Locked !in state.holds
      modifies this`state, l`references
      ensures LayersValid() && l.chainID in old(state.handles) && state == HandleToHold(old(state), ref, Locked)
    {
      hide Sound;
      LayerIsReal(l);
      HandleToHoldKeeps(state, ref, Locked, fromBytes);
      l.DeleteReference(ref);
      state := HandleToHold(state, ref, Locked);
    }

    lemma HandleIsOnItsLayer(ref: LayerHandle)
      requires LayersValid() && ref.layer.chainID in layerMap && ref in layerMap[ref.layer.chainID].references
      ensures ref.layer == layerMap[ref.layer.chainID]
    {
      var id := ref.layer.chainID;
      assert layerMap[id].references == state.handles[id];
    }

    lemma AbsentIsNotLive(ref: LayerHandle)
      requires LayersValid() && ref.layer.chainID !in layerMap
      ensures ref.layer.chainID !in state.handles
    {
    }

    method PassHold(h: Holder, h': Holder)
      requires LayersValid() && h in state.holds && h' !in state.holds
      modifies this`state
      ensures LayersValid() && state == Pass(old(state), h, h')
    {
      hide Sound;
      PassKeeps(state, h, h', fromBytes);
      state := Pass(state, h, h');
    }

    // Commits a new layer and enters it with one handle; call t's hold on the
    // parent becomes the new layer's.
    method EnterLayer(l: RoLayer, ref: LayerHandle, t: nat)
      requires LayersValid() && l !in layers && l.chainID !in layerMap
      requires l.referenceCount == 1 && l.references == {ref} && ref.layer == l
      requires l.chainID == NewChainID(fromBytes, l.parent, l.diffID)
      requires if l.parent == null then Call(t) !in state.holds
               else Call(t) in state.holds && state.holds[Call(t)] == l.parent && l.parent.rank < l.rank && l.parent.chainID != ""
      modifies this`layerMap, this`metadata, this`state, this`layers
      ensures LayersValid() && layers == old(layers) + {l}
      ensures state == Insert(old(state), l, ref, Call(t))
    {
      hide Sound, IsReal, Insert;
      InsertKeeps(state, l, ref, Call(t), fromBytes);
      InsertedIsReal(state, layers, l, ref, Call(t));
      metadata := metadata[l.chainID := LayerMeta(l.diffID, l.size, l.cacheID, if l.parent == null then "" else l.parent.chainID)];
      layerMap := layerMap[l.chainID := l];
      layers := layers + {l};
      state := Insert(state, l, ref, Call(t));
    }

    method NewLayer(p: RoLayer?, id: ChainID, diffID: DiffID, size: int, cacheID: string) returns (l: RoLayer, ref: LayerHandle)
      ensures fresh(l) && fresh(ref) && ref.layer == l && l.referenceCount == 1 && l.references == {ref}
      ensures l.chainID == id && l.parent == p && l.diffID == diffID && l.size == size && l.cacheID == cacheID
      ensures p != null ==> p.rank < l.rank
    {
      l := new RoLayer(id, diffID, cacheID, size, p, 1);
      ref := l.GetReference();
    }

    // One round of releaseLayer's loop; what is left to do is then the rest of it.
    method ReleaseOne(l: RoLayer, h: Holder, faults: Faults) returns (o: Outcome, m: Metadata)
      requires LayersValid() && h in state.holds && state.holds[h] == l
      modifies this`layerMap, this`metadata, this`state, l`referenceCount
      ensures LayersValid() && IsReport([m], [l])
      ensures o.Gone? && l.parent != null ==>
                && h in state.holds && state.holds[h] == l.parent
                && Released(old(state), h, faults, fromBytes) == Resumed([l], Released(state, h, faults, fromBytes))
      ensures !(o.Gone? && l.parent != null) ==>
                Released(old(state), h, faults, fromBytes) == Freed(state, if o.Gone? then [l] else [], o.Failed?)
    {
      hide Sound;
      hide Released;
      ReleasedRounds(state, h, faults, fromBytes);
      var size := l.Size();
      m := Metadata(l.chainID, l.diffID, size, l.size);
      // DropHold shows the count is not zero: not the panic for a layer that is not retained.
      DropHold(l, h);
      if l.referenceCount != 0 {
        return Kept, m;
      }
      NobodyHolds(state, l, fromBytes);
      LayerIsReal(l);
      // Not the panic for a layer with handles.
      assert l.references == {};
      if l.cacheID in faults.driver || l.chainID in faults.store {
        return Failed, m;
      }
      DeleteUnheld(l, h);
      return Gone, m;
    }

    // releaseLayer: gives up h's hold on a layer and removes what is then unheld.
    method ReleaseLayer(l0: RoLayer, h: Holder, faults: Faults) returns (report: seq<Metadata>, err: bool)
      requires LayersValid() && h in state.holds && state.holds[h] == l0
      modifies this`layerMap, this`metadata, this`state, layers`referenceCount
      ensures LayersValid()
      ensures var r := Released(old(state), h, faults, fromBytes);
              state == r.state && err == r.err && (if err then report == [] else IsReport(report, r.removed))
    {
      assert IsReport([], []);
      hide Sound, Released, IsReport, StateIsReal;
      var l: RoLayer := l0;
      report := [];
      ghost var spec := Released(state, h, faults, fromBytes);
      ghost var removed: seq<RoLayer> := [];
      while true
        invariant LayersValid() && h in state.holds && state.holds[h] == l
        invariant spec == Resumed(removed, Released(state, h, faults, fromBytes))
        invariant IsReport(report, removed)
        decreases l.rank
      {
        HeldIsInMap(h);
        LayerIsReal(l);
        var o, m := ReleaseOne(l, h, faults);
        ReportGoesOn(report, removed, m, l);
        if !o.Gone? {
          assert removed + [] == removed;
          return if o.Kept? then report else [], o.Failed?;
        }
        // Not the panic for a layer with a child: every earlier round removed one.
        assert |report| == |removed|;
        report := report + [m];
        if l.parent == null {
          return report, false;
        }
        ResumedTwice(removed, l, Released(state, h, faults, fromBytes));
        removed := removed + [l];
        l := l.parent;
      }
    }

    lemma ParentIsNamed(t: nat)
      requires Valid() && t in frames
      ensures frames[t].ParentNamed()
    {
    }

    lemma HoldOfCall(t: nat)
      requires Valid() && t in frames && frames[t].Holds() != null
      ensures Call(t) in state.holds && state.holds[Call(t)] == frames[t].Holds()
    {
    }

    lemma NoHoldOfCall(t: nat)
      requires Valid() && t in frames && frames[t].Holds() == null
      ensures Call(t) !in state.holds && Locked !in state.holds && state.holds - {Call(t)} == state.holds
    {
      assert Call(t) in state.holds ==> HoldFits(Call(t), state.holds[Call(t)], mounts, frames);
      assert Locked in state.holds ==> HoldFits(Locked, state.holds[Locked], mounts, frames);
    }

    lemma NoHoldLocked()
      requires Valid()
      ensures Locked !in state.holds
    {
      assert Locked in state.holds ==> HoldFits(Locked, state.holds[Locked], mounts, frames);
    }

    // ---- Get ----

    // Counts a layer for call t, which from then on is a call in progress.
    method Begin(t: nat, id: ChainID) returns (l: RoLayer?)
      requires Valid() && t !in frames
      modifies this`state, this`frames, layers`referenceCount
      ensures Valid()
      ensures l == if id in layerMap then layerMap[id] else null
      ensures l == null ==> frames == old(frames) && state == old(state)
      ensures l != null ==> frames == old(frames)[t := Got(l)]
      ensures l != null ==> l.chainID == id && l.chainID in old(state.counts) && state == Take(old(state), Call(t), l)
    {
      hide Sound, HoldsMatch, MountsOrdered, RWReferencesTracked, StateIsReal;
      FrameAdded(state.holds, mounts, frames, t, Registering(null));
      l := GetWithoutLock(id, Call(t));
      if l != null {
        FrameAdded(old(state.holds), mounts, frames, t, Got(l));
        OrderKept(mounts, mountMetadata, frames, mountL, t, Got(l));
        frames := frames[t := Got(l)];
      }
    }

    // A call without mountL goes on to another place, holding what it held.
    method Move(t: nat, f: Frame)
      requires Valid() && t in frames && frames[t].Holds() == f.Holds()
      requires !frames[t].HasMountLock() && !f.HasMountLock() && f.ParentNamed()
      modifies this`frames
      ensures Valid() && frames == old(frames)[t := f]
    {
      hide Sound, HoldsMatch, MountsOrdered, RWReferencesTracked, StateIsReal;
      FrameReplaced(state.holds, mounts, frames, t, f);
      OrderKept(mounts, mountMetadata, frames, mountL, t, f);
      frames := frames[t := f];
    }

    // A call without mountL that holds nothing ends.
    method End(t: nat)
      requires Valid() && t in frames && frames[t].Holds() == null && !frames[t].HasMountLock()
      modifies this`frames
      ensures Valid() && frames == old(frames) - {t}
    {
      hide Sound, HoldsMatch, MountsOrdered, RWReferencesTracked, StateIsReal;
      NoHoldOfCall(t);
      FrameRemoved(state.holds, mounts, frames, t);
      OrderKept(mounts, mountMetadata, frames, mountL, t, Registering(null));
      frames := frames - {t};
    }

    method GetBegin(t: nat, id: ChainID) returns (ok: bool)
      requires Valid() && t !in frames
      modifies this`state, this`frames, layers`referenceCount
      ensures Valid() && ok == (id in layerMap)
      ensures !ok ==> frames == old(frames) && state == old(state)
      ensures ok ==> frames == old(frames)[t := Got(layerMap[id])]
      ensures ok ==> layerMap[id].chainID == id && id in old(state.counts) && state == Take(old(state), Call(t), layerMap[id])
    {
      hide Sound, HoldsMatch, MountsOrdered, RWReferencesTracked, StateIsReal;
      var l := Begin(t, id);
      ok := l != null;
    }

    method GetFinish(t: nat) returns (ref: LayerHandle)
      requires Valid() && t in frames && frames[t].Got?
      modifies this`state, this`frames, layers`references
      ensures Valid() && fresh(ref) && ref.layer == old(frames[t].layer) && frames == old(frames) - {t}
      ensures ref.layer.chainID in old(state.handles) && Call(t) in old(state.holds) && old(state.holds)[Call(t)] == ref.layer
      ensures state == HoldToHandle(old(state), Call(t), ref) && Live(ref)
    {
      hide Sound, HoldsMatch, MountsOrdered, RWReferencesTracked, StateIsReal;
      var l := frames[t].layer;
      HoldOfCall(t);
      HeldIsInMap(Call(t));
      LayerIsReal(l);
      ref := MakeHandle(l, Call(t));
      FrameRemoved(old(state.holds), mounts, frames, t);
      OrderKept(mounts, mountMetadata, frames, mountL, t, Registering(null));
      frames := frames - {t};
    }

    // ---- Register and RegisterByGraphID ----

    // The first step counts the parent. Register, unlike RegisterByGraphID, also
    // limits the depth; the parent is then released in a later step.
    method RegisterBegin(t: nat, parent: ChainID, limited: bool) returns (r: Begun)
      requires Valid() && t !in frames
      modifies this`state, this`frames, layers`referenceCount
      ensures Valid()
      ensures r == DoesNotExist <==> parent != "" && parent !in layerMap
      ensures r == DoesNotExist ==> frames == old(frames) && state == old(state)
      ensures parent == "" ==> r == Started && state == old(state) && frames == old(frames)[t := Registering(null)]
      ensures parent != "" && parent in layerMap ==>
                var p := layerMap[parent];
                && p.chainID in old(state.counts) && state == Take(old(state), Call(t), p)
                && Rooted(p) && (r == TooDeep <==> limited && |Ancestry(p)| >= MAX_LAYER_DEPTH)
                && frames == old(frames)[t := if r == TooDeep then CleaningUp(p) else Registering(p)]
    {
      hide Sound, HoldsMatch, MountsOrdered, RWReferencesTracked, StateIsReal;
      if parent == "" {
        FrameAdded(state.holds, mounts, frames, t, Registering(null));
        OrderKept(mounts, mountMetadata, frames, mountL, t, Registering(null));
        frames := frames[t := Registering(null)];
        return Started;
      }
      r := RegisterOnParent(t, parent, limited);
    }

    method RegisterOnParent(t: nat, parent: ChainID, limited: bool) returns (r: Begun)
      requires Valid() && t !in frames && parent != ""
      modifies this`state, this`frames, layers`referenceCount
      ensures Valid()
      ensures r == DoesNotExist <==> parent !in layerMap
      ensures r == DoesNotExist ==> frames == old(frames) && state == old(state)
      ensures parent in layerMap ==>
                var p := layerMap[parent];
                && p.chainID in old(state.counts) && state == Take(old(state), Call(t), p)
                && Rooted(p) && (r == TooDeep <==> limited && |Ancestry(p)| >= MAX_LAYER_DEPTH)
                && frames == old(frames)[t := if r == TooDeep then CleaningUp(p) else Registering(p)]
    {
      hide Sound, HoldsMatch, MountsOrdered, RWReferencesTracked, StateIsReal;
      var p := Begin(t, parent);
      if p == null {
        return DoesNotExist;
      }
      HoldOfCall(t);
      HeldIsInMap(Call(t));
      LayerIsReal(p);
      var d := p.Depth();
      r := if limited && d >= MAX_LAYER_DEPTH then TooDeep else Started;
      Move(t, if r == TooDeep then CleaningUp(p) else Registering(p));
    }

    // An error with the parent counted: its release is still to come.
    method RegisterAbort(t: nat)
      requires Valid() && t in frames && frames[t].Registering?
      modifies this`frames
      ensures Valid()
      ensures frames == if old(frames[t].parent) == null then old(frames) - {t} else old(frames)[t := CleaningUp(old(frames[t].parent))]
    {
      hide Sound, HoldsMatch, MountsOrdered, RWReferencesTracked, StateIsReal;
      if frames[t].parent == null {
        End(t);
      } else {
        Move(t, CleaningUp(frames[t].parent));
      }
    }

    // One more handle on a layer that is there, all under layerL.
    method HandOut(l: RoLayer) returns (ref: LayerHandle)
      requires Valid() && InMap(layerMap, l)
      modifies this`state, layers
      ensures Valid() && fresh(ref) && ref.layer == l
      ensures l.chainID in old(state.counts) && l.chainID in old(state.handles)
      ensures state == HoldToHandle(Take(old(state), Locked, l), Locked, ref)
    {
      hide Sound, HoldsMatch, MountsOrdered, RWReferencesTracked, StateIsReal;
      NoHoldLocked();
      var x := GetWithoutLock(l.chainID, Locked);
      LayerIsReal(l);
      ref := MakeHandle(l, Locked);
      assert old(state.holds)[Locked := l] - {Locked} == old(state.holds);
    }

    // Commits and enters a new layer, and call t ends.
    method Publish(t: nat, l: RoLayer, ref: LayerHandle)
      requires Valid() && t in frames && frames[t] == Registering(l.parent)
      requires l !in layers && l.referenceCount == 1 && l.references == {ref} && ref.layer == l
      requires l.chainID == NewChainID(fromBytes, l.parent, l.diffID) && l.chainID !in layerMap
      requires l.parent != null ==> l.parent.rank < l.rank
      modifies this`layerMap, this`metadata, this`state, this`frames, this`layers
      ensures Valid() && layers == old(layers) + {l} && frames == old(frames) - {t}
      ensures state == Insert(old(state), l, ref, Call(t))
    {
      hide LayersValid, HoldsMatch, MountsOrdered, RWReferencesTracked, NewChainID;
      if l.parent == null {
        NoHoldOfCall(t);
      } else {
        HoldOfCall(t);
        ParentIsNamed(t);
      }
      EnterLayer(l, ref, t);
      FrameRemoved(old(state.holds), mounts, frames, t);
      OrderKept(mounts, mountMetadata, frames, mountL, t, Registering(null));
      frames := frames - {t};
    }

    // The last step, under layerL: if the layer is there already, hand out one
    // more handle on it and drop the new one; else commit and enter it.
    method RegisterFinish(t: nat, diffID: DiffID, size: int, cacheID: string, committed: bool) returns (ref: LayerHandle?)
      requires Valid() && t in frames && frames[t].Registering?
      modifies this`layerMap, this`metadata, this`state, this`frames, this`layers, layers
      ensures Valid() && old(layers) <= layers && fresh(layers - old(layers))
      ensures var p, id := old(frames[t].parent), NewChainID(fromBytes, old(frames[t].parent), diffID);
              && (id in old(layerMap) ==>
                    && fresh(ref) && ref.layer == old(layerMap)[id]
                    && ref.layer.chainID in old(state.counts) && ref.layer.chainID in old(state.handles)
                    && state == HoldToHandle(Take(old(state), Locked, ref.layer), Locked, ref))
              && (id !in old(layerMap) && !committed ==> ref == null && state == old(state))
              && (id !in old(layerMap) && committed ==>
                    && fresh(ref) && fresh(ref.layer) && ref.layer.chainID == id && ref.layer.parent == p
                    && ref.layer.diffID == diffID && ref.layer.size == size && ref.layer.cacheID == cacheID
                    && state == Insert(old(state), ref.layer, ref, Call(t)))
              && frames == if p == null || (id !in old(layerMap) && committed) then old(frames) - {t} else old(frames)[t := CleaningUp(p)]
    {
      hide Sound, HoldsMatch, MountsOrdered, RWReferencesTracked, StateIsReal;
      var p := frames[t].parent;
      var id := NewChainID(fromBytes, p, diffID);
      if id in layerMap {
        MappedIsInMap(id);
        ref := HandOut(layerMap[id]);
        RegisterAbort(t);
      } else if !committed {
        RegisterAbort(t);
        ref := null;
      } else {
        var l;
        l, ref := NewLayer(p, id, diffID, size, cacheID);
        Publish(t, l, ref);
      }
    }

    lemma MappedIsInMap(id: ChainID)
      requires LayersValid() && id in layerMap
      ensures InMap(layerMap, layerMap[id])
    {
      KeysAreChainIDs(state, fromBytes);
    }

    // ---- Releasing ----

    // The deferred release of the parent.
    method CleanUp(t: nat, faults: Faults) returns (report: seq<Metadata>, err: bool)
      requires Valid() && t in frames && frames[t].CleaningUp?
      modifies this`layerMap, this`metadata, this`state, this`frames, layers`referenceCount
      ensures Valid() && frames == old(frames) - {t}
      ensures Sound(old(state), fromBytes) && Call(t) in old(state.holds)
      ensures var r := Released(old(state), Call(t), faults, fromBytes);
              state == r.state && err == r.err && (if err then report == [] else IsReport(report, r.removed))
    {
      hide Sound, HoldsMatch, MountsOrdered, RWReferencesTracked, StateIsReal, Released;
      HoldOfCall(t);
      report, err := ReleaseLayer(frames[t].layer, Call(t), faults);
      FrameRemoved(old(state.holds), mounts, frames, t);
      OrderKept(mounts, mountMetadata, frames, mountL, t, Registering(null));
      frames := frames - {t};
    }

    ghost predicate Live(ref: LayerHandle)
      reads this`state
    {
      ref.layer.chainID in state.handles && ref in state.handles[ref.layer.chainID]
    }

    lemma LiveIsInMap(ref: LayerHandle)
      requires LayersValid() && Live(ref)
      ensures ref.layer.chainID in layerMap && ref.layer == layerMap[ref.layer.chainID]
    {
      assert ref in state.handles[ref.layer.chainID];
    }

    // Release: of a handle whose chain ID is not in the store nothing is released,
    // and one that is not registered is refused.
    method Release(ref: LayerHandle, faults: Faults) returns (report: seq<Metadata>, res: ReleaseResult)
      requires Valid()
      modifies this`layerMap, this`metadata, this`state, layers
      ensures Valid()
      ensures res == NoSuchLayer <==> ref.layer.chainID !in old(layerMap)
      ensures res == NotHeld <==> ref.layer.chainID in old(layerMap) && !old(Live(ref))
      ensures res == NoSuchLayer || res == NotHeld ==> state == old(state) && report == []
      ensures old(Live(ref)) ==>
                var s := HandleToHold(old(state), ref, Locked);
                && Sound(s, fromBytes) && Locked in s.holds
                && var r := Released(s, Locked, faults, fromBytes);
                state == r.state && res == (if r.err then DeleteFailed else Dropped) &&
                (if r.err then report == [] else IsReport(report, r.removed))
    {
      hide Sound, HoldsMatch, MountsOrdered, RWReferencesTracked, StateIsReal, Released;
      NoHoldLocked();
      if ref.layer.chainID !in layerMap {
        AbsentIsNotLive(ref);
        return [], NoSuchLayer;
      }
      var l := layerMap[ref.layer.chainID];
      MappedIsInMap(ref.layer.chainID);
      LayerIsReal(l);
      if ref !in l.references {
        return [], NotHeld;
      }
      HandleIsOnItsLayer(ref);
      DropHandle(l, ref);
      var err;
      report, err := ReleaseLayer(l, Locked, faults);
      res := if err then DeleteFailed else Dropped;
      assert old(state.holds)[Locked := l] - {Locked} == old(state.holds);
    }

    // ---- Read-write mounts ----

    // What no step may do to a mount reference: forget it, or revive it.
    twostate predicate RWReferencesKept()
      reads this`rwReferences, rwReferences
    {
      forall r | r in old(rwReferences) :: r in rwReferences && (old(r.activityCount) == -1 ==> r.activityCount == -1)
    }

    // CreateRWLayer up to the driver's work. The call waits until mountL is free,
    // and keeps it.
    method CreateRWBegin(t: nat, name: string, parent: ChainID) returns (r: CreateResult)
      requires Valid() && t !in frames && mountL == None
      modifies this`state, this`frames, this`mountL, layers`referenceCount
      ensures Valid()
      ensures r == (if name in mounts then NameConflict else if parent != "" && parent !in layerMap then ParentMissing else Creating)
      ensures r != Creating ==> frames == old(frames) && mountL == None && state == old(state)
      ensures r == Creating ==> mountL == Some(t)
      ensures r == Creating && parent == "" ==> state == old(state) && frames == old(frames)[t := CreatingMount(name, null)]
      ensures r == Creating && parent != "" ==>
                && frames == old(frames)[t := CreatingMount(name, layerMap[parent])]
                && layerMap[parent].chainID in old(state.counts) && state == Take(old(state), Call(t), layerMap[parent])
    {
      hide Sound, HoldsMatch, MountsOrdered, RWReferencesTracked, StateIsReal;
      if name in mounts {
        return NameConflict;
      }
      r := TakeMountLock(t, name, parent);
    }

    // The parent is counted and mountL taken, for a mount of a new name.
    method TakeMountLock(t: nat, name: string, parent: ChainID) returns (r: CreateResult)
      requires Valid() && t !in frames && mountL == None && name !in mounts
      modifies this`state, this`frames, this`mountL, layers`referenceCount
      ensures Valid()
      ensures r == if parent != "" && parent !in layerMap then ParentMissing else Creating
      ensures r != Creating ==> frames == old(frames) && mountL == None && state == old(state)
      ensures r == Creating ==> mountL == Some(t)
      ensures r == Creating && parent == "" ==> state == old(state) && frames == old(frames)[t := CreatingMount(name, null)]
      ensures r == Creating && parent != "" ==>
                && frames == old(frames)[t := CreatingMount(name, layerMap[parent])]
                && layerMap[parent].chainID in old(state.counts) && state == Take(old(state), Call(t), layerMap[parent])
    {
      hide LayersValid, HoldsMatch, MountsOrdered, RWReferencesTracked;
      var p: RoLayer? := null;
      if parent != "" {
        p := Begin(t, parent);
        if p == null {
          return ParentMissing;
        }
      }
      Lock(t, name, p);
      return Creating;
    }

    method Lock(t: nat, name: string, p: RoLayer?)
      requires Valid() && mountL == None && name !in mounts
      requires if p == null then t !in frames else t in frames && frames[t] == Got(p) && p.chainID != ""
      modifies this`frames, this`mountL
      ensures Valid() && frames == old(frames)[t := CreatingMount(name, p)] && mountL == Some(t)
    {
      hide LayersValid, HoldsMatch, MountsOrdered, RWReferencesTracked;
      if p == null {
        FrameAdded(state.holds, mounts, frames, t, CreatingMount(name, null));
      } else {
        FrameReplaced(state.holds, mounts, frames, t, CreatingMount(name, p));
      }
      LockTaken(mounts, mountMetadata, frames, t, CreatingMount(name, p));
      frames := frames[t := CreatingMount(name, p)];
      mountL := Some(t);
    }

    // An error of the driver or of saving the mount: the parent is released while
    // mountL is still held.
    method CreateRWAbort(t: nat, faults: Faults)
      requires Valid() && t in frames && frames[t].CreatingMount?
      modifies this`layerMap, this`metadata, this`state, this`frames, this`mountL, layers`referenceCount
      ensures Valid() && mountL == None && frames == old(frames) - {t}
      ensures old(frames[t].parent) == null ==> state == old(state)
      ensures old(frames[t].parent) != null ==>
                && Sound(old(state), fromBytes) && Call(t) in old(state.holds)
                && state == Released(old(state), Call(t), faults, fromBytes).state
    {
      hide Sound, HoldsMatch, MountsOrdered, RWReferencesTracked, StateIsReal, Released;
      var p := frames[t].parent;
      if p != null {
        HoldOfCall(t);
        var report, err := ReleaseLayer(p, Call(t), faults);
      } else {
        NoHoldOfCall(t);
      }
      FrameRemoved(old(state.holds), mounts, frames, t);
      LockGiven(mounts, mountMetadata, frames, mountL, t);
      EndUnlocking(t);
    }

    method MountEntered(m: MountedLayer, r: RWReference?)
      requires RWReferencesTracked() && m !in mountObjects && m.name !in mounts
      requires m.references == if r == null then {} else {r}
      requires r != null ==> r !in rwReferences && r.mount == m && r.activityCount == 0
      modifies this`mounts, this`mountMetadata, this`mountObjects, this`rwReferences
      ensures RWReferencesTracked() && RWReferencesKept()
      ensures mountMetadata == old(mountMetadata)[m.name := MountMetaOf(m)]
      ensures mounts == old(mounts)[m.name := m] && mountObjects == old(mountObjects) + {m}
      ensures rwReferences == old(rwReferences) + if r == null then {} else {r}
    {
      mountMetadata := mountMetadata[m.name := MountMeta(m.mountID, m.initID, if m.parent == null then "" else m.parent.chainID)];
      mounts := mounts[m.name := m];
      mountObjects := mountObjects + {m};
      rwReferences := rwReferences + if r == null then {} else {r};
    }

    // The hold of the call that creates a mount becomes the mount's.
    method MountTakesHold(t: nat, m: MountedLayer)
      requires Valid() && t in frames && frames[t].Holds() == m.parent && m.name !in mounts
      modifies this`state
      ensures LayersValid() && HoldsMatch(state.holds, mounts[m.name := m], frames - {t})
      ensures m.parent == null ==> state == old(state)
      ensures m.parent != null ==> Call(t) in old(state.holds) && state == Pass(old(state), Call(t), Mount(m.name))
    {
      hide Sound, HoldsMatch, MountsOrdered, RWReferencesTracked, StateIsReal;
      MountAdded(state.holds, mounts, frames, t, m);
      if m.parent != null {
        HoldOfCall(t);
        PassHold(Call(t), Mount(m.name));
      }
    }

    // A call ends and gives up mountL; its hold is gone or another's already.
    method EndUnlocking(t: nat)
      requires LayersValid() && HoldsMatch(state.holds, mounts, frames - {t}) && RWReferencesTracked()
      requires MountsOrdered(mounts, mountMetadata, frames - {t}, None)
      modifies this`frames, this`mountL
      ensures Valid() && mountL == None && frames == old(frames) - {t}
    {
      hide Sound, HoldsMatch, MountsOrdered, RWReferencesTracked, StateIsReal;
      frames := frames - {t};
      mountL := None;
    }

    // The saved mount enters the store, the call's hold on the parent becomes the
    // mount's, and mountL is given up.
    method PublishMount(t: nat, m: MountedLayer, r: RWReference?)
      requires Valid() && t in frames && frames[t] == CreatingMount(m.name, m.parent) && m !in mountObjects
      requires m.references == if r == null then {} else {r}
      requires r != null ==> r !in rwReferences && r.mount == m && r.activityCount == 0
      modifies this`mounts, this`mountMetadata, this`state, this`frames, this`mountL, this`mountObjects, this`rwReferences
      ensures Valid() && mountL == None && frames == old(frames) - {t} && RWReferencesKept()
      ensures m.name !in old(mounts) && mounts == old(mounts)[m.name := m] && mountObjects == old(mountObjects) + {m}
      ensures mountMetadata == old(mountMetadata)[m.name := MountMetaOf(m)]
      ensures rwReferences == old(rwReferences) + if r == null then {} else {r}
      ensures m.parent == null ==> state == old(state)
      ensures m.parent != null ==> Call(t) in old(state.holds) && state == Pass(old(state), Call(t), Mount(m.name))
    {
      hide Sound, HoldsMatch, MountsOrdered, RWReferencesTracked, StateIsReal;
      LockGiven(mounts, mountMetadata, frames, mountL, t);
      OrderedMountAdded(mounts, mountMetadata, frames - {t}, m);
      MountTakesHold(t, m);
      MountEntered(m, r);
      EndUnlocking(t);
    }

    // saveMount and getReference. CreateRWLayerByGraphID saves the mount and takes
    // no reference.
    method CreateRWFinish(t: nat, mountID: string, initID: string, reference: bool) returns (m: MountedLayer, r: RWReference?)
      requires Valid() && t in frames && frames[t].CreatingMount?
      modifies this`mounts, this`mountMetadata, this`state, this`frames, this`mountL, this`mountObjects, this`rwReferences
      ensures Valid() && mountL == None && frames == old(frames) - {t} && RWReferencesKept()
      ensures fresh(m) && m.name == old(frames[t].name) && m.parent == old(frames[t].parent) && m.mountID == mountID && m.initID == initID
      ensures m.name !in old(mounts) && mounts == old(mounts)[m.name := m] && mountObjects == old(mountObjects) + {m}
      ensures mountMetadata == old(mountMetadata)[m.name := MountMetaOf(m)]
      ensures m.parent == null ==> state == old(state)
      ensures m.parent != null ==> Call(t) in old(state.holds) && state == Pass(old(state), Call(t), Mount(m.name))
      ensures reference ==> fresh(r) && r.mount == m && r.activityCount == 0 && m.references == {r} && rwReferences == old(rwReferences) + {r}
      ensures !reference ==> r == null && m.references == {} && rwReferences == old(rwReferences)
    {
      hide Sound, HoldsMatch, MountsOrdered, RWReferencesTracked, StateIsReal;
      m := new MountedLayer(frames[t].name, mountID, initID, frames[t].parent);
      r := null;
      if reference {
        r := m.GetReference();
      }
      PublishMount(t, m, r);
    }

    // CreateRWLayerByGraphID up to saving the mount. A mount of that name and
    // without a parent is dereferenced through its missing parent.
    method CreateRWByGraphIDBegin(t: nat, name: string, graphID: string, parent: ChainID, exists_: bool) returns (r: CreateResult)
      requires Valid() && t !in frames && mountL == None
      modifies this`state, this`frames, this`mountL, layers`referenceCount
      ensures Valid()
      ensures name in mounts ==>
                var m := mounts[name];
                r == if m.parent == null then NilDereference
                     else if m.parent.chainID != parent then MismatchedParent
                     else if m.mountID != graphID then MountExists
                     else AlreadyThere
      ensures name !in mounts ==>
                r == if !exists_ then GraphMissing else if parent != "" && parent !in layerMap then ParentMissing else Creating
      ensures r != Creating ==> frames == old(frames) && mountL == None && state == old(state)
      ensures r == Creating ==> mountL == Some(t)
      ensures r == Creating && parent == "" ==> state == old(state) && frames == old(frames)[t := CreatingMount(name, null)]
      ensures r == Creating && parent != "" ==>
                && frames == old(frames)[t := CreatingMount(name, layerMap[parent])]
                && layerMap[parent].chainID in old(state.counts) && state == Take(old(state), Call(t), layerMap[parent])
    {
      hide Sound, HoldsMatch, MountsOrdered, RWReferencesTracked, StateIsReal;
      if name in mounts {
        var m := mounts[name];
        if m.parent == null {
          return NilDereference;
        }
        if m.parent.chainID != parent {
          return MismatchedParent;
        }
        return if m.mountID != graphID then MountExists else AlreadyThere;
      }
      if !exists_ {
        return GraphMissing;
      }
      r := TakeMountLock(t, name, parent);
    }

    method GetRWLayer(name: string) returns (r: RWReference?)
      requires Valid() && mountL == None
      modifies this`rwReferences, mountObjects`references
      ensures Valid() && RWReferencesKept()
      ensures name !in mounts ==> r == null && rwReferences == old(rwReferences)
      ensures name in mounts ==>
                && fresh(r) && r.mount == mounts[name] && r.activityCount == 0 && r in mounts[name].references
                && rwReferences == old(rwReferences) + {r}
    {
      if name !in mounts {
        return null;
      }
      assert mounts[name] in mounts.Values;
      r := RetainMount(mounts[name]);
    }

    method RetainMount(m: MountedLayer) returns (r: RWReference)
      requires Valid() && m in mountObjects && m.name in mounts && mounts[m.name] == m
      modifies this`rwReferences, m`references
      ensures Valid() && RWReferencesKept() && m.references == old(m.references) + {r}
      ensures fresh(r) && r.mount == m && r.activityCount == 0 && rwReferences == old(rwReferences) + {r}
    {
      hide Sound, HoldsMatch, MountsOrdered, StateIsReal;
      r := m.GetReference();
      rwReferences := rwReferences + {r};
    }

    // mountedLayer.deleteReference: refused of a reference that is not, or not any
    // more, one of this mount's, and of one in use.
    method DeleteRWReference(m: MountedLayer, r: RWReference) returns (res: RWResult)
      requires Valid() && m in mountObjects
      modifies m`references, r`activityCount
      ensures Valid() && RWReferencesKept()
      ensures res == if r !in old(m.references) then NotRetained else if old(r.activityCount) > 0 then ActiveMount else Done
      ensures m.references == if res == Done then old(m.references) - {r} else old(m.references)
      ensures r.activityCount == if res == Done then -1 else old(r.activityCount)
    {
      hide Sound, HoldsMatch, MountsOrdered, StateIsReal;
      res := m.DeleteReference(r);
    }

    // A mount leaves the store; its hold on its parent becomes the call's.
    method RemoveMount(t: nat, n: string)
      requires Valid() && t !in frames && mountL == None && n in mounts && mounts[n].references == {}
      modifies this`mounts, this`mountMetadata, this`state, this`frames, this`mountL
      ensures Valid() && mounts == old(mounts) - {n} && mountMetadata == old(mountMetadata) - {n}
      ensures var p := old(mounts[n]).parent;
              if p == null then state == old(state) && frames == old(frames) && mountL == None
              else
                && Mount(n) in old(state.holds) && state == Pass(old(state), Mount(n), Call(t))
                && frames == old(frames)[t := Unmounting(p)] && mountL == Some(t)
    {
      hide LayersValid, HoldsMatch, MountsOrdered, RWReferencesTracked;
      var p := mounts[n].parent;
      MountGivesHold(t, n);
      OrderedMountRemoved(mounts, mountMetadata, frames, n);
      ForgetMount(n);
      mountMetadata := mountMetadata - {n};
      if p != null {
        LockTaken(mounts, mountMetadata, frames, t, Unmounting(p));
        frames := frames[t := Unmounting(p)];
        mountL := Some(t);
      }
    }

    method ForgetMount(n: string)
      requires RWReferencesTracked() && n in mounts && mounts[n].references == {}
      modifies this`mounts
      ensures RWReferencesTracked() && mounts == old(mounts) - {n}
    {
      assert forall k | k in mounts :: mounts[k] in mounts.Values;
      mounts := mounts - {n};
      assert mounts.Values <= old(mounts).Values;
    }

    method MountGivesHold(t: nat, n: string)
      requires Valid() && t !in frames && n in mounts
      modifies this`state
      ensures LayersValid()
      ensures var p := mounts[n].parent;
              if p == null then state == old(state) && HoldsMatch(state.holds, mounts - {n}, frames)
              else
                && Mount(n) in old(state.holds) && state == Pass(old(state), Mount(n), Call(t))
                && HoldsMatch(state.holds, mounts - {n}, frames[t := Unmounting(p)])
    {
      hide Sound, HoldsMatch, MountsOrdered, RWReferencesTracked, StateIsReal;
      MountRemoved(state.holds, mounts, frames, t, n);
      FrameAdded(state.holds, mounts, frames, t, Registering(null));
      if mounts[n].parent != null {
        PassHold(Mount(n), Call(t));
      }
    }

    // ReleaseRWLayer up to the release of the parent. `removable` says whether the
    // driver and the metadata store remove the mount; if not, the mount stays in
    // the store, possibly without references.
    method ReleaseRWBegin(t: nat, r: RWReference, removable: bool) returns (res: RWRelease)
      requires Valid() && t !in frames && mountL == None
      modifies this`mounts, this`mountMetadata, this`state, this`frames, this`mountL, mountObjects`references, r`activityCount
      ensures Valid() && RWReferencesKept()
      ensures r.mount.name !in old(mounts) ==> res == NoSuchMount && r.activityCount == old(r.activityCount)
      ensures r.mount.name in old(mounts) ==>
                var m := old(mounts[r.mount.name]);
                && res == (if r !in old(m.references) then Refused(NotRetained)
                           else if old(r.activityCount) > 0 then Refused(ActiveMount)
                           else if old(m.references) != {r} then StillReferenced
                           else if !removable then RemoveFailed
                           else Removed)
                && m.references == (if res.Refused? then old(m.references) else old(m.references) - {r})
                && r.activityCount == (if res.Refused? then old(r.activityCount) else -1)
      ensures res != Removed ==> mounts == old(mounts) && state == old(state) && frames == old(frames) && mountL == None
      ensures res == Removed ==>
                var n, p := r.mount.name, old(mounts[r.mount.name]).parent;
                && mounts == old(mounts) - {n} && mountMetadata == old(mountMetadata) - {n}
                && if p == null then state == old(state) && frames == old(frames) && mountL == None
                   else Mount(n) in old(state.holds) && state == Pass(old(state), Mount(n), Call(t))
                        && frames == old(frames)[t := Unmounting(p)] && mountL == Some(t)
    {
      hide Sound, HoldsMatch, MountsOrdered, RWReferencesTracked, StateIsReal;
      var n := r.mount.name;
      if n !in mounts {
        return NoSuchMount;
      }
      var m := mounts[n];
      MountIsObject(n);
      var why := DeleteRWReference(m, r);
      if why != Done {
        return Refused(why);
      }
      assert m.references == {} <==> old(m.references) == {r};
      if m.references != {} {
        return StillReferenced;
      }
      if !removable {
        return RemoveFailed;
      }
      RemoveMount(t, n);
      return Removed;
    }

    lemma MountIsObject(n: string)
      requires Valid() && n in mounts
      ensures mounts[n] in mountObjects && mounts[n].name == n
    {
      assert mounts[n] in mounts.Values;
    }

    method ReleaseRWFinish(t: nat, faults: Faults) returns (report: seq<Metadata>, err: bool)
      requires Valid() && t in frames && frames[t].Unmounting?
      modifies this`layerMap, this`metadata, this`state, this`frames, this`mountL, layers`referenceCount
      ensures Valid() && mountL == None && frames == old(frames) - {t}
      ensures Sound(old(state), fromBytes) && Call(t) in old(state.holds)
      ensures var r := Released(old(state), Call(t), faults, fromBytes);
              state == r.state && err == r.err && (if err then report == [] else IsReport(report, r.removed))
    {
      hide Sound, HoldsMatch, MountsOrdered, RWReferencesTracked, StateIsReal, Released;
      HoldOfCall(t);
      report, err := ReleaseLayer(frames[t].layer, Call(t), faults);
      FrameRemoved(old(state.holds), mounts, frames, t);
      LockGiven(mounts, mountMetadata, frames, mountL, t);
      EndUnlocking(t);
    }

    // A user mounts or unmounts a reference it got from this store.
    method UseRWLayer(r: RWReference, mount: bool) returns (res: RWResult)
      requires Valid() && r in rwReferences
      modifies r`activityCount
      ensures Valid() && RWReferencesKept()
      ensures old(r.activityCount) == -1 ==> res == NotRetained && r.activityCount == -1
      ensures old(r.activityCount) >= 0 && mount ==> res == Done && r.activityCount == old(r.activityCount) + 1
      ensures old(r.activityCount) > 0 && !mount ==> res == Done && r.activityCount == old(r.activityCount) - 1
      ensures old(r.activityCount) == 0 && !mount ==> res == NotMounted && r.activityCount == 0
    {
      hide Sound, HoldsMatch, MountsOrdered, StateIsReal;
      if mount {
        res := r.Mount();
      } else {
        res := r.Unmount();
      }
    }
  }
}
