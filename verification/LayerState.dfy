// The state of the read-only side of the layer store as a value, the effect of
// each elementary change on it, and the invariant all of them keep
// (docker/layer/layer_store.go, docker/layer/migration.go).
module LayerStates {
  import opened ChainIDs
  import opened Layers

  // Who, besides handles and child layers, a reference count counts: a mount, or
  // a call that has counted a layer and not yet turned the count into anything else.
  // Locked is the call that has layerL right now.
  datatype Holder = Mount(name: string) | Call(t: nat) | Locked

  // What the metadata store keeps for a committed layer; an empty parent stands for none.
  datatype LayerMeta = LayerMeta(diffID: DiffID, size: int, cacheID: string, parent: ChainID)

  ghost function MetaOf(l: RoLayer): LayerMeta {
    LayerMeta(l.diffID, l.size, l.cacheID, if l.parent == null then "" else l.parent.chainID)
  }

  // layerMap and the committed metadata; the count and the live handles of each
  // layer; and the layers held by mounts and by calls in progress.
  datatype State = State(
    layerMap: map<ChainID, RoLayer>,
    metadata: map<ChainID, LayerMeta>,
    counts: map<ChainID, int>,
    handles: map<ChainID, set<LayerHandle>>,
    holds: map<Holder, RoLayer>)

  ghost predicate InMap(layerMap: map<ChainID, RoLayer>, l: RoLayer) {
    l.chainID in layerMap && layerMap[l.chainID] == l
  }

  // The layer is under its chain ID, which is that of its diff IDs from the
  // bottom up, and its parent is in the map too, under an ID that is not empty.
  ghost predicate WellPlaced(layerMap: map<ChainID, RoLayer>, fromBytes: string -> string, id: ChainID)
    requires id in layerMap
  {
    var l := layerMap[id];
    && l.chainID == id
    && Rooted(l)
    && (l.parent != null ==> InMap(layerMap, l.parent) && l.parent.chainID != "")
    && id == CreateChainID(fromBytes, DiffIDs(l))
  }

  ghost predicate IsForest(layerMap: map<ChainID, RoLayer>, fromBytes: string -> string) {
    forall id {:trigger WellPlaced(layerMap, fromBytes, id)} | id in layerMap :: WellPlaced(layerMap, fromBytes, id)
  }

  ghost function Children(layerMap: map<ChainID, RoLayer>, l: RoLayer): set<ChainID> {
    set id | id in layerMap && layerMap[id].parent == l
  }

  ghost function HoldersOf(holds: map<Holder, RoLayer>, l: RoLayer): set<Holder> {
    set h | h in holds && holds[h] == l
  }

  // Everything that holds a layer: handles, child layers, mounts and calls.
  ghost function HolderCount(s: State, id: ChainID): nat
    requires id in s.layerMap && id in s.handles
  {
    |s.handles[id]| + |Children(s.layerMap, s.layerMap[id])| + |HoldersOf(s.holds, s.layerMap[id])|
  }

  // The invariant of the layers: a forest, with exact counts, described exactly
  // by the committed metadata.
  ghost predicate Sound(s: State, fromBytes: string -> string) {
    && s.layerMap.Keys == s.metadata.Keys == s.counts.Keys == s.handles.Keys
    && IsForest(s.layerMap, fromBytes)
    && (forall h | h in s.holds :: InMap(s.layerMap, s.holds[h]))
    && (forall id {:trigger HolderCount(s, id)} | id in s.layerMap :: s.counts[id] == HolderCount(s, id))
    && (forall id, h {:trigger h in s.handles[id]} | id in s.layerMap && h in s.handles[id] :: h.layer == s.layerMap[id])
    && (forall id {:trigger s.metadata[id]} | id in s.layerMap :: s.metadata[id] == MetaOf(s.layerMap[id]))
  }

  // ---- The elementary changes ----

  // get: the count goes up for a call.
  ghost function Take(s: State, h: Holder, l: RoLayer): State
    requires l.chainID in s.counts
  {
    s.(counts := s.counts[l.chainID := s.counts[l.chainID] + 1], holds := s.holds[h := l])
  }

  // A hold is given up.
  ghost function Drop(s: State, h: Holder): State
    requires h in s.holds && s.holds[h].chainID in s.counts
  {
    var id := s.holds[h].chainID;
    s.(counts := s.counts[id := s.counts[id] - 1], holds := s.holds - {h})
  }

  // A call's hold becomes a handle, with no change to the count.
  ghost function HoldToHandle(s: State, h: Holder, ref: LayerHandle): State
    requires h in s.holds && s.holds[h].chainID in s.handles
  {
    var id := s.holds[h].chainID;
    s.(holds := s.holds - {h}, handles := s.handles[id := s.handles[id] + {ref}])
  }

  // A handle becomes a call's hold: the first half of Release.
  ghost function HandleToHold(s: State, ref: LayerHandle, h: Holder): State
    requires ref.layer.chainID in s.handles
  {
    var id := ref.layer.chainID;
    s.(holds := s.holds[h := ref.layer], handles := s.handles[id := s.handles[id] - {ref}])
  }

  // A hold passes from one holder to another.
  ghost function Pass(s: State, h: Holder, h': Holder): State
    requires h in s.holds
  {
    s.(holds := (s.holds - {h})[h' := s.holds[h]])
  }

  // A layer leaves the store; its hold on its parent passes to h.
  ghost function Delete(s: State, l: RoLayer, h: Holder): State {
    var gone := {l.chainID};
    State(s.layerMap - gone, s.metadata - gone, s.counts - gone, s.handles - gone,
          if l.parent == null then s.holds else s.holds[h := l.parent])
  }

  // A new layer enters the store with one handle; h's hold becomes its hold on its parent.
  ghost function Insert(s: State, l: RoLayer, ref: LayerHandle, h: Holder): State {
    State(s.layerMap[l.chainID := l], s.metadata[l.chainID := MetaOf(l)],
          s.counts[l.chainID := 1], s.handles[l.chainID := {ref}],
          s.holds - {h})
  }

  // ---- How sets of holders change ----

  lemma HoldersAfterRemoval(holds: map<Holder, RoLayer>, h: Holder, l: RoLayer)
    requires h in holds
    ensures |HoldersOf(holds - {h}, l)| == |HoldersOf(holds, l)| - if holds[h] == l then 1 else 0
  {
    assert HoldersOf(holds - {h}, l) == HoldersOf(holds, l) - {h};
    assert h in HoldersOf(holds, l) <==> holds[h] == l;
  }

  lemma HoldersAfterAddition(holds: map<Holder, RoLayer>, h: Holder, x: RoLayer, l: RoLayer)
    requires h !in holds
    ensures |HoldersOf(holds[h := x], l)| == |HoldersOf(holds, l)| + if x == l then 1 else 0
  {
    assert HoldersOf(holds[h := x], l) == HoldersOf(holds, l) + if x == l then {h} else {};
  }

  lemma ChildrenAfterRemoval(layerMap: map<ChainID, RoLayer>, id: ChainID, l: RoLayer)
    requires id in layerMap
    ensures |Children(layerMap - {id}, l)| == |Children(layerMap, l)| - if layerMap[id].parent == l then 1 else 0
  {
    assert Children(layerMap - {id}, l) == Children(layerMap, l) - {id};
    assert id in Children(layerMap, l) <==> layerMap[id].parent == l;
  }

  lemma ChildrenAfterAddition(layerMap: map<ChainID, RoLayer>, x: RoLayer, l: RoLayer)
    requires x.chainID !in layerMap
    ensures |Children(layerMap[x.chainID := x], l)| == |Children(layerMap, l)| + if x.parent == l then 1 else 0
  {
    assert Children(layerMap[x.chainID := x], l) == Children(layerMap, l) + if x.parent == l then {x.chainID} else {};
  }

  // ---- Every elementary change keeps the invariant ----

  lemma KeysAreChainIDs(s: State, fromBytes: string -> string)
    requires Sound(s, fromBytes)
    ensures forall id | id in s.layerMap :: s.layerMap[id].chainID == id && Rooted(s.layerMap[id])
  {
    assert forall id | id in s.layerMap :: WellPlaced(s.layerMap, fromBytes, id);
  }

  lemma TakeKeeps(s: State, h: Holder, l: RoLayer, fromBytes: string -> string)
    requires Sound(s, fromBytes) && InMap(s.layerMap, l) && h !in s.holds
    ensures Sound(Take(s, h, l), fromBytes)
  {
    var s' := Take(s, h, l);
    KeysAreChainIDs(s, fromBytes);
    forall id | id in s'.layerMap ensures s'.counts[id] == HolderCount(s', id) {
      assert s.counts[id] == HolderCount(s, id);
      HoldersAfterAddition(s.holds, h, l, s.layerMap[id]);
    }
  }

  lemma DropKeeps(s: State, h: Holder, fromBytes: string -> string)
    requires Sound(s, fromBytes) && h in s.holds
    ensures Sound(Drop(s, h), fromBytes) && s.counts[s.holds[h].chainID] > 0
  {
    var s', l := Drop(s, h), s.holds[h];
    KeysAreChainIDs(s, fromBytes);
    assert s.counts[l.chainID] == HolderCount(s, l.chainID);
    assert h in HoldersOf(s.holds, l);
    forall id | id in s'.layerMap ensures s'.counts[id] == HolderCount(s', id) {
      assert s.counts[id] == HolderCount(s, id);
      HoldersAfterRemoval(s.holds, h, s.layerMap[id]);
    }
  }

  lemma HoldToHandleKeeps(s: State, h: Holder, ref: LayerHandle, fromBytes: string -> string)
    requires Sound(s, fromBytes) && h in s.holds && ref.layer == s.holds[h]
    requires s.holds[h].chainID in s.handles ==> ref !in s.handles[s.holds[h].chainID]
    ensures Sound(HoldToHandle(s, h, ref), fromBytes)
  {
    KeysAreChainIDs(s, fromBytes);
    HoldToHandleCounts(s, h, ref, fromBytes);
  }

  lemma HoldToHandleCounts(s: State, h: Holder, ref: LayerHandle, fromBytes: string -> string)
    requires Sound(s, fromBytes) && h in s.holds
    requires s.holds[h].chainID in s.handles && ref !in s.handles[s.holds[h].chainID]
    ensures var s' := HoldToHandle(s, h, ref);
            forall id {:trigger HolderCount(s', id)} | id in s'.layerMap :: s'.counts[id] == HolderCount(s', id)
  {
    var s' := HoldToHandle(s, h, ref);
    assert InMap(s.layerMap, s.holds[h]);
    KeysAreChainIDs(s, fromBytes);
    forall id | id in s'.layerMap ensures s'.counts[id] == HolderCount(s', id) {
      assert s.counts[id] == HolderCount(s, id);
      OneHolderForAnother(s, h, ref, id);
    }
  }

  lemma OneHolderForAnother(s: State, h: Holder, ref: LayerHandle, id: ChainID)
    requires h in s.holds && s.holds[h].chainID in s.handles && ref !in s.handles[s.holds[h].chainID]
    requires id in s.layerMap && id in s.handles && (s.layerMap[id] == s.holds[h] <==> id == s.holds[h].chainID)
    ensures HolderCount(HoldToHandle(s, h, ref), id) == HolderCount(s, id)
  {
    HoldersAfterRemoval(s.holds, h, s.layerMap[id]);
  }

  lemma HandleToHoldKeeps(s: State, ref: LayerHandle, h: Holder, fromBytes: string -> string)
    requires Sound(s, fromBytes) && h !in s.holds
    requires ref.layer.chainID in s.layerMap && ref in s.handles[ref.layer.chainID]
    ensures Sound(HandleToHold(s, ref, h), fromBytes)
  {
    KeysAreChainIDs(s, fromBytes);
    HandleToHoldCounts(s, ref, h, fromBytes);
  }

  lemma HandleToHoldCounts(s: State, ref: LayerHandle, h: Holder, fromBytes: string -> string)
    requires Sound(s, fromBytes) && h !in s.holds
    requires ref.layer.chainID in s.layerMap && ref in s.handles[ref.layer.chainID]
    ensures var s' := HandleToHold(s, ref, h);
            forall id {:trigger HolderCount(s', id)} | id in s'.layerMap :: s'.counts[id] == HolderCount(s', id)
  {
    var s' := HandleToHold(s, ref, h);
    KeysAreChainIDs(s, fromBytes);
    forall id | id in s'.layerMap ensures s'.counts[id] == HolderCount(s', id) {
      assert s.counts[id] == HolderCount(s, id);
      HoldersAfterAddition(s.holds, h, ref.layer, s.layerMap[id]);
    }
  }

  lemma PassKeeps(s: State, h: Holder, h': Holder, fromBytes: string -> string)
    requires Sound(s, fromBytes) && h in s.holds && h' !in s.holds
    ensures Sound(Pass(s, h, h'), fromBytes)
  {
    var s' := Pass(s, h, h');
    forall id | id in s'.layerMap ensures s'.counts[id] == HolderCount(s', id) {
      assert s.counts[id] == HolderCount(s, id);
      HoldersAfterRemoval(s.holds, h, s.layerMap[id]);
      HoldersAfterAddition(s.holds - {h}, h', s.holds[h], s.layerMap[id]);
    }
  }

  lemma NobodyHolds(s: State, l: RoLayer, fromBytes: string -> string)
    requires Sound(s, fromBytes) && InMap(s.layerMap, l) && s.counts[l.chainID] == 0
    ensures s.handles[l.chainID] == {} && Children(s.layerMap, l) == {}
    ensures forall h | h in s.holds :: s.holds[h] != l
  {
    assert s.counts[l.chainID] == HolderCount(s, l.chainID);
    assert forall h | h in s.holds && s.holds[h] == l :: h in HoldersOf(s.holds, l);
  }

  lemma ForestAfterRemoval(layerMap: map<ChainID, RoLayer>, fromBytes: string -> string, l: RoLayer)
    requires IsForest(layerMap, fromBytes) && InMap(layerMap, l) && Children(layerMap, l) == {}
    ensures IsForest(layerMap - {l.chainID}, fromBytes)
    ensures l.parent != null ==> InMap(layerMap - {l.chainID}, l.parent)
    ensures forall x | InMap(layerMap, x) && x != l :: InMap(layerMap - {l.chainID}, x)
  {
    assert WellPlaced(layerMap, fromBytes, l.chainID);
    forall id | id in layerMap - {l.chainID} ensures WellPlaced(layerMap - {l.chainID}, fromBytes, id) {
      assert WellPlaced(layerMap, fromBytes, id);
      assert layerMap[id].parent == l ==> id in Children(layerMap, l);
    }
  }

  lemma DeleteKeeps(s: State, l: RoLayer, h: Holder, fromBytes: string -> string)
    requires Sound(s, fromBytes) && InMap(s.layerMap, l) && s.counts[l.chainID] == 0 && h !in s.holds
    ensures Sound(Delete(s, l, h), fromBytes)
  {
    var s' := Delete(s, l, h);
    NobodyHolds(s, l, fromBytes);
    ForestAfterRemoval(s.layerMap, fromBytes, l);
    forall id | id in s'.layerMap ensures s'.counts[id] == HolderCount(s', id) {
      assert s.counts[id] == HolderCount(s, id);
      ChildrenAfterRemoval(s.layerMap, l.chainID, s.layerMap[id]);
      if l.parent != null {
        HoldersAfterAddition(s.holds, h, l.parent, s.layerMap[id]);
      }
    }
  }

  // The key under which Register and RegisterByGraphID put a new layer.
  function NewChainID(fromBytes: string -> string, parent: RoLayer?, diffID: DiffID): ChainID {
    if parent == null then diffID else CreateChainIDFromParent(fromBytes, parent.chainID, [diffID])
  }

  // It is the chain ID of the new layer's whole stack.
  lemma NewChainIDIsOfStack(s: State, l: RoLayer, fromBytes: string -> string)
    requires Sound(s, fromBytes) && (l.parent != null ==> InMap(s.layerMap, l.parent) && l.parent.rank < l.rank)
    requires l.chainID == NewChainID(fromBytes, l.parent, l.diffID)
    ensures Rooted(l) && l.chainID == CreateChainID(fromBytes, DiffIDs(l))
  {
    if l.parent != null {
      assert WellPlaced(s.layerMap, fromBytes, l.parent.chainID);
      ChainIDsCompose(fromBytes, "", DiffIDs(l.parent), [l.diffID]);
    } else {
      assert DiffIDs(l) == [l.diffID];
      assert CreateChainIDFromParent(fromBytes, l.diffID, DiffIDs(l)[1..]) == l.diffID;
    }
  }

  lemma InsertKeeps(s: State, l: RoLayer, ref: LayerHandle, h: Holder, fromBytes: string -> string)
    requires Sound(s, fromBytes) && l.chainID !in s.layerMap && ref.layer == l
    requires l.chainID == NewChainID(fromBytes, l.parent, l.diffID)
    requires if l.parent == null then h !in s.holds else h in s.holds && s.holds[h] == l.parent && l.parent.rank < l.rank && l.parent.chainID != ""
    ensures Sound(Insert(s, l, ref, h), fromBytes)
  {
    var s' := Insert(s, l, ref, h);
    ForestAfterInsertion(s, l, fromBytes);
    NewLayerIsUnheld(s, l, fromBytes);
    InsertedParts(s, l, ref, h, fromBytes);
    hide IsForest, HolderCount, NewChainID, CreateChainID, Insert, MetaOf, InMap;
    forall id | id in s'.layerMap ensures s'.counts[id] == HolderCount(s', id) {
      InsertedHolderCount(s, l, ref, h, fromBytes, id);
    }
  }

  lemma InsertedParts(s: State, l: RoLayer, ref: LayerHandle, h: Holder, fromBytes: string -> string)
    requires Sound(s, fromBytes) && l.chainID !in s.layerMap && ref.layer == l
    ensures var s' := Insert(s, l, ref, h);
            && s'.layerMap == s.layerMap[l.chainID := l] && s'.holds == s.holds - {h}
            && s'.layerMap.Keys == s'.metadata.Keys == s'.counts.Keys == s'.handles.Keys == s.layerMap.Keys + {l.chainID}
            && (forall g | g in s'.holds :: InMap(s'.layerMap, s'.holds[g]))
            && (forall id, r {:trigger r in s'.handles[id]} | id in s'.layerMap && r in s'.handles[id] :: r.layer == s'.layerMap[id])
            && (forall id {:trigger s'.metadata[id]} | id in s'.layerMap :: s'.metadata[id] == MetaOf(s'.layerMap[id]))
  {
    hide IsForest, HolderCount, MetaOf;
    InsertedHandles(s.layerMap, s.handles, l, ref);
    InsertedMetas(s.layerMap, s.metadata, l);
  }

  lemma InsertedHandles(layerMap: map<ChainID, RoLayer>, handles: map<ChainID, set<LayerHandle>>, l: RoLayer, ref: LayerHandle)
    requires layerMap.Keys == handles.Keys && ref.layer == l
    requires forall id, r {:trigger r in handles[id]} | id in layerMap && r in handles[id] :: r.layer == layerMap[id]
    ensures var m, hs := layerMap[l.chainID := l], handles[l.chainID := {ref}];
            forall id, r {:trigger r in hs[id]} | id in m && r in hs[id] :: r.layer == m[id]
  {
  }

  lemma InsertedMetas(layerMap: map<ChainID, RoLayer>, metadata: map<ChainID, LayerMeta>, l: RoLayer)
    requires layerMap.Keys == metadata.Keys
    requires forall id {:trigger metadata[id]} | id in layerMap :: metadata[id] == MetaOf(layerMap[id])
    ensures var m, metas := layerMap[l.chainID := l], metadata[l.chainID := MetaOf(l)];
            forall id {:trigger metas[id]} | id in m :: metas[id] == MetaOf(m[id])
  {
    hide MetaOf;
  }

  lemma InsertedHolderCount(s: State, l: RoLayer, ref: LayerHandle, h: Holder, fromBytes: string -> string, id: ChainID)
    requires Sound(s, fromBytes) && l.chainID !in s.layerMap && (id in s.layerMap || id == l.chainID)
    requires if l.parent == null then h !in s.holds else h in s.holds && s.holds[h] == l.parent
    requires Children(s.layerMap, l) == {} && HoldersOf(s.holds, l) == {}
    ensures var s' := Insert(s, l, ref, h);
            s'.counts[id] == HolderCount(s', id)
  {
    InsertedCount(s, l, h, Insert(s, l, ref, h).layerMap[id]);
    assert id != l.chainID ==> s.counts[id] == HolderCount(s, id);
  }

  lemma InsertedCount(s: State, l: RoLayer, h: Holder, x: RoLayer)
    requires l.chainID !in s.layerMap
    requires if l.parent == null then h !in s.holds else h in s.holds && s.holds[h] == l.parent
    ensures |Children(s.layerMap[l.chainID := l], x)| + |HoldersOf(s.holds - {h}, x)| == |Children(s.layerMap, x)| + |HoldersOf(s.holds, x)|
  {
    ChildrenAfterAddition(s.layerMap, l, x);
    if l.parent != null {
      HoldersAfterRemoval(s.holds, h, x);
    } else {
      assert s.holds - {h} == s.holds;
    }
  }

  lemma ForestAfterInsertion(s: State, l: RoLayer, fromBytes: string -> string)
    requires Sound(s, fromBytes) && l.chainID !in s.layerMap
    requires l.chainID == NewChainID(fromBytes, l.parent, l.diffID)
    requires l.parent != null ==> InMap(s.layerMap, l.parent) && l.parent.rank < l.rank && l.parent.chainID != ""
    ensures IsForest(s.layerMap[l.chainID := l], fromBytes)
  {
    var m := s.layerMap[l.chainID := l];
    NewChainIDIsOfStack(s, l, fromBytes);
    forall id | id in m ensures WellPlaced(m, fromBytes, id) {
      assert id != l.chainID ==> WellPlaced(s.layerMap, fromBytes, id);
    }
  }

  lemma NewLayerIsUnheld(s: State, l: RoLayer, fromBytes: string -> string)
    requires Sound(s, fromBytes) && l.chainID !in s.layerMap
    ensures Children(s.layerMap, l) == {} && HoldersOf(s.holds, l) == {}
  {
    forall id | id in s.layerMap ensures s.layerMap[id].parent != l {
      assert WellPlaced(s.layerMap, fromBytes, id);
    }
  }

  // ---- Releasing a layer ----

  // Which of the calls to the driver and to the metadata store fail.
  datatype Faults = Faults(driver: set<string>, store: set<ChainID>)

  predicate FaultAt(faults: Faults, l: RoLayer) {
    l.cacheID in faults.driver || l.chainID in faults.store
  }

  datatype Freed = Freed(state: State, removed: seq<RoLayer>, err: bool)

  // releaseLayer as a function: h's hold is dropped; a layer left unheld is
  // deleted, unless the driver or the metadata store fails, and then the same is
  // done with its hold on its parent.
  ghost function Released(s: State, h: Holder, faults: Faults, fromBytes: string -> string): (r: Freed)
    requires Sound(s, fromBytes) && h in s.holds
    ensures Sound(r.state, fromBytes) && r.state.holds == s.holds - {h}
    decreases s.holds[h].rank
  {
    DropKeeps(s, h, fromBytes);
    var l, s1 := s.holds[h], Drop(s, h);
    assert InMap(s.layerMap, l) && WellPlaced(s.layerMap, fromBytes, l.chainID);
    if s1.counts[l.chainID] != 0 then Freed(s1, [], false)
    else if FaultAt(faults, l) then Freed(s1, [], true)
    else
      DeleteKeeps(s1, l, h, fromBytes);
      var s2 := Delete(s1, l, h);
      if l.parent == null then Freed(s2, [l], false)
      else
        var r := Released(s2, h, faults, fromBytes);
        DeletedHolds(s, h);
        Freed(r.state, [l] + r.removed, r.err)
  }

  lemma DeletedHolds(s: State, h: Holder)
    requires h in s.holds && s.holds[h].chainID in s.counts
    ensures Delete(Drop(s, h), s.holds[h], h).holds - {h} == s.holds - {h}
  {
  }

  // A release whose loop has already removed some layers.
  ghost function Resumed(removed: seq<RoLayer>, r: Freed): Freed {
    r.(removed := removed + r.removed)
  }

  // What one round of releaseLayer's loop does to the layer.
  datatype Outcome = Kept | Failed | Gone

  // The rounds of releaseLayer, one by one.
  lemma ReleasedRounds(s: State, h: Holder, faults: Faults, fromBytes: string -> string)
    requires Sound(s, fromBytes) && h in s.holds
    ensures var l := s.holds[h];
            InMap(s.layerMap, l) && Rooted(l) && l.chainID in s.counts && s.counts[l.chainID] > 0
    ensures var l, s1, r := s.holds[h], Drop(s, h), Released(s, h, faults, fromBytes);
            && (s1.counts[l.chainID] != 0 ==> r == Freed(s1, [], false))
            && (s1.counts[l.chainID] == 0 && FaultAt(faults, l) ==> r == Freed(s1, [], true))
            && (s1.counts[l.chainID] == 0 && !FaultAt(faults, l) ==>
                  var s2 := Delete(s1, l, h);
                  && Sound(s2, fromBytes)
                  && (l.parent == null ==> r == Freed(s2, [l], false))
                  && (l.parent != null ==> s2.holds[h] == l.parent && r == Resumed([l], Released(s2, h, faults, fromBytes))))
  {
    DropKeeps(s, h, fromBytes);
    var l, s1 := s.holds[h], Drop(s, h);
    assert InMap(s.layerMap, l) && WellPlaced(s.layerMap, fromBytes, l.chainID);
    if s1.counts[l.chainID] == 0 && !FaultAt(faults, l) {
      DeleteKeeps(s1, l, h, fromBytes);
    }
  }

  ghost function ChainKeys(ls: seq<RoLayer>): set<ChainID> {
    set l | l in ls :: l.chainID
  }

  // The layers released are a run of ancestors from the layer held. Each of them
  // had a count of one. The run stops at the bottom, at a layer with another
  // holder, or at a failure; the layer it stops at has lost one from its count,
  // and no other layer has changed.
  lemma {:induction false} ReleasedIsRun(s: State, h: Holder, faults: Faults, fromBytes: string -> string)
    requires Sound(s, fromBytes) && h in s.holds
    ensures Rooted(s.holds[h])
    ensures var r := Released(s, h, faults, fromBytes);
            IsRun(s, Ancestry(s.holds[h]), faults, r)
    decreases s.holds[h].rank
  {
    hide Sound, Released, IsRun;
    ReleasedRounds(s, h, faults, fromBytes);
    var l, s1 := s.holds[h], Drop(s, h);
    if s1.counts[l.chainID] != 0 || FaultAt(faults, l) {
      RunStops(s, h, faults);
    } else if l.parent == null {
      RunEnds(s, h, faults);
    } else {
      ReleasedIsRun(Delete(s1, l, h), h, faults, fromBytes);
      RunFromParent(s, l, faults, Released(Delete(s1, l, h), h, faults, fromBytes), h);
    }
  }

  lemma RunStops(s: State, h: Holder, faults: Faults)
    requires h in s.holds && Rooted(s.holds[h]) && s.holds[h].chainID in s.counts && s.counts[s.holds[h].chainID] > 0
    requires s.counts[s.holds[h].chainID] != 1 || FaultAt(faults, s.holds[h])
    ensures IsRun(s, Ancestry(s.holds[h]), faults, Freed(Drop(s, h), [], s.counts[s.holds[h].chainID] == 1))
  {
    assert ChainKeys([]) == {};
    assert s.layerMap - {} == s.layerMap && s.metadata - {} == s.metadata && s.handles - {} == s.handles && s.counts - {} == s.counts;
  }

  lemma RunEnds(s: State, h: Holder, faults: Faults)
    requires h in s.holds && Rooted(s.holds[h]) && s.holds[h].chainID in s.counts && s.counts[s.holds[h].chainID] == 1
    requires !FaultAt(faults, s.holds[h]) && s.holds[h].parent == null
    ensures IsRun(s, Ancestry(s.holds[h]), faults, Freed(Delete(Drop(s, h), s.holds[h], h), [s.holds[h]], false))
  {
    var l := s.holds[h];
    assert ChainKeys([l]) == {l.chainID};
    DropThenDelete(s, l, h);
  }

  ghost predicate IsRun(s: State, chain: seq<RoLayer>, faults: Faults, r: Freed) {
    var k := |r.removed|;
    && k <= |chain| && r.removed == chain[..k]
    && (forall i | 0 <= i < k ::
          && chain[i].chainID in s.counts && s.counts[chain[i].chainID] == 1
          && chain[i].cacheID !in faults.driver && chain[i].chainID !in faults.store)
    && r.state.layerMap == s.layerMap - ChainKeys(r.removed)
    && r.state.metadata == s.metadata - ChainKeys(r.removed)
    && r.state.handles == s.handles - ChainKeys(r.removed)
    && (r.err ==> k < |chain| && (chain[k].cacheID in faults.driver || chain[k].chainID in faults.store))
    && if k == |chain| then r.state.counts == s.counts - ChainKeys(r.removed)
       else
         var id := chain[k].chainID;
         && id in s.counts && id !in ChainKeys(r.removed)
         && (if r.err then s.counts[id] == 1 else s.counts[id] > 1)
         && r.state.counts == (s.counts - ChainKeys(r.removed))[id := s.counts[id] - 1]
  }

  lemma RunFromParent(s: State, l: RoLayer, faults: Faults, r: Freed, h: Holder)
    requires Rooted(l) && l.parent != null && l.chainID in s.counts && s.counts[l.chainID] == 1 && !FaultAt(faults, l)
    requires h in s.holds && s.holds[h] == l
    requires IsRun(Delete(Drop(s, h), l, h), Ancestry(l.parent), faults, r)
    ensures IsRun(s, Ancestry(l), faults, Freed(r.state, [l] + r.removed, r.err))
  {
    var rest, gone := Ancestry(l.parent), ChainKeys(r.removed);
    KeysOfConsed(l, r.removed);
    MinusUnion(s.layerMap, {l.chainID}, gone);
    MinusUnion(s.metadata, {l.chainID}, gone);
    MinusUnion(s.handles, {l.chainID}, gone);
    MinusUnion(s.counts, {l.chainID}, gone);
    DropThenDelete(s, l, h);
    ConsedRun(s.counts, l, rest, faults, |r.removed|);
    assert Ancestry(l) == [l] + rest;
  }

  lemma MinusUnion<K, V>(m: map<K, V>, a: set<K>, b: set<K>)
    ensures m - a - b == m - (a + b)
  {
  }

  lemma KeysOfConsed(l: RoLayer, ls: seq<RoLayer>)
    ensures ChainKeys([l] + ls) == {l.chainID} + ChainKeys(ls)
  {
  }

  lemma DropThenDelete(s: State, l: RoLayer, h: Holder)
    requires h in s.holds && s.holds[h] == l && l.chainID in s.counts
    ensures Delete(Drop(s, h), l, h).counts == s.counts - {l.chainID}
  {
  }

  lemma ConsedRun(counts: map<ChainID, int>, l: RoLayer, rest: seq<RoLayer>, faults: Faults, k: nat)
    requires k <= |rest| && l.chainID in counts && counts[l.chainID] == 1 && !FaultAt(faults, l)
    requires forall i | 0 <= i < k :: rest[i].chainID in counts && counts[rest[i].chainID] == 1 && !FaultAt(faults, rest[i])
    ensures var chain := [l] + rest;
            && [l] + rest[..k] == chain[..k + 1]
            && forall i | 0 <= i < k + 1 :: chain[i].chainID in counts && counts[chain[i].chainID] == 1 && !FaultAt(faults, chain[i])
  {
    var chain := [l] + rest;
    assert forall i | 1 <= i < k + 1 :: chain[i] == rest[i - 1];
  }

  // The layer has a handle, or somebody other than h holds it.
  ghost predicate OtherwiseHeld(s: State, h: Holder, id: ChainID) {
    && id in s.layerMap && id in s.handles
    && (s.handles[id] != {} || exists g :: g in s.holds && g != h && s.holds[g] == s.layerMap[id])
  }

  lemma DeleteKeepsHeld(s: State, l: RoLayer, h: Holder, fromBytes: string -> string, id: ChainID)
    requires Sound(s, fromBytes) && InMap(s.layerMap, l) && s.counts[l.chainID] == 0 && h !in s.holds
    requires OtherwiseHeld(s, h, id)
    ensures id != l.chainID
    ensures OtherwiseHeld(Delete(s, l, h), h, id)
  {
    NobodyHolds(s, l, fromBytes);
    if s.handles[id] == {} {
      var g :| g in s.holds && g != h && s.holds[g] == s.layerMap[id];
      assert g in Delete(s, l, h).holds;
    }
  }

  // Releasing h's hold leaves every otherwise held layer where it is.
  lemma {:induction false} ReleasedKeepsHeld(s: State, h: Holder, faults: Faults, fromBytes: string -> string, id: ChainID)
    requires Sound(s, fromBytes) && h in s.holds && OtherwiseHeld(s, h, id)
    ensures var r := Released(s, h, faults, fromBytes).state;
            id in r.layerMap && r.layerMap[id] == s.layerMap[id] && r.handles[id] == s.handles[id]
    decreases s.holds[h].rank
  {
    DropKeeps(s, h, fromBytes);
    var l, s1 := s.holds[h], Drop(s, h);
    assert InMap(s.layerMap, l) && WellPlaced(s.layerMap, fromBytes, l.chainID);
    if s1.counts[l.chainID] == 0 && !FaultAt(faults, l) {
      DeleteKeeps(s1, l, h, fromBytes);
      DropKeepsHeld(s, h, id);
      DeleteKeepsHeld(s1, l, h, fromBytes, id);
      if l.parent != null {
        ReleasedKeepsHeld(Delete(s1, l, h), h, faults, fromBytes, id);
      }
    }
  }

  lemma DropKeepsHeld(s: State, h: Holder, id: ChainID)
    requires h in s.holds && s.holds[h].chainID in s.counts && OtherwiseHeld(s, h, id)
    ensures OtherwiseHeld(Drop(s, h), h, id)
  {
    if s.handles[id] == {} {
      var g :| g in s.holds && g != h && s.holds[g] == s.layerMap[id];
      assert g in Drop(s, h).holds;
    }
  }

  // The ancestry of a layer in the map is in the map.
  lemma {:induction false} AncestryInMap(s: State, fromBytes: string -> string, l: RoLayer, i: nat)
    requires Sound(s, fromBytes) && InMap(s.layerMap, l)
    ensures Rooted(l)
    ensures i < |Ancestry(l)| ==> InMap(s.layerMap, Ancestry(l)[i])
    decreases i
  {
    assert WellPlaced(s.layerMap, fromBytes, l.chainID);
    if l.parent != null && i > 0 {
      AncestryInMap(s, fromBytes, l.parent, i - 1);
    }
  }

  // Nobody but h, or the child before it in the list, holds chain[i].
  ghost predicate SolelyHeld(s: State, chain: seq<RoLayer>, i: nat, h: Holder)
    requires i < |chain|
  {
    && chain[i].chainID in s.handles && s.handles[chain[i].chainID] == {}
    && Children(s.layerMap, chain[i]) == (if i == 0 then {} else {chain[i - 1].chainID})
    && HoldersOf(s.holds, chain[i]) == (if i == 0 then {h} else {})
  }

  // Along the ancestry of a held layer, a count of one means having no other holder.
  lemma SolelyHeldMeansOne(s: State, h: Holder, fromBytes: string -> string, i: nat)
    requires Sound(s, fromBytes) && h in s.holds
    ensures Rooted(s.holds[h])
    ensures var chain := Ancestry(s.holds[h]);
            i < |chain| ==> chain[i].chainID in s.counts && (SolelyHeld(s, chain, i, h) <==> s.counts[chain[i].chainID] == 1)
  {
    var l := s.holds[h];
    AncestryInMap(s, fromBytes, l, i);
    if i < |Ancestry(l)| {
      var x := Ancestry(l)[i];
      assert s.counts[x.chainID] == HolderCount(s, x.chainID);
      if i == 0 {
        SingletonIsIt(HoldersOf(s.holds, x), h);
      } else {
        AncestryInMap(s, fromBytes, l, i - 1);
        AncestryLinks(l, i - 1);
        SingletonIsIt(Children(s.layerMap, x), Ancestry(l)[i - 1].chainID);
      }
    }
  }

  lemma SingletonIsIt<T>(s: set<T>, x: T)
    requires x in s
    ensures |s| >= 1 && (|s| == 1 <==> s == {x})
  {
    assert |s| == |s - {x}| + 1;
  }

  // ---- What changes leave alone ----

  ghost function HandlesOn(s: State, id: ChainID): set<LayerHandle> {
    if id in s.handles then s.handles[id] else {}
  }

  // Every live handle, except those in `gone`, is still live.
  ghost predicate HandlesKept(s: State, s': State, gone: set<LayerHandle>) {
    forall id {:trigger HandlesOn(s, id)} {:trigger HandlesOn(s', id)} :: HandlesOn(s, id) - gone <= HandlesOn(s', id)
  }

  lemma HandlesKeptTwice(s0: State, s1: State, s2: State, a: set<LayerHandle>, b: set<LayerHandle>, gone: set<LayerHandle>)
    requires HandlesKept(s0, s1, a) && HandlesKept(s1, s2, b) && a + b <= gone
    ensures HandlesKept(s0, s2, gone)
  {
    forall id ensures HandlesOn(s0, id) - gone <= HandlesOn(s2, id) {
      assert HandlesOn(s0, id) - a <= HandlesOn(s1, id) && HandlesOn(s1, id) - b <= HandlesOn(s2, id);
    }
  }

  lemma ReleasedKeepsHandles(s: State, h: Holder, faults: Faults, fromBytes: string -> string)
    requires Sound(s, fromBytes) && h in s.holds
    ensures HandlesKept(s, Released(s, h, faults, fromBytes).state, {})
  {
    hide Released;
    forall id ensures HandlesOn(s, id) - {} <= HandlesOn(Released(s, h, faults, fromBytes).state, id) {
      if HandlesOn(s, id) != {} {
        ReleasedKeepsHeld(s, h, faults, fromBytes, id);
      }
    }
  }

  lemma ReleasedAddsNoHandles(s: State, h: Holder, faults: Faults, fromBytes: string -> string, id: ChainID)
    requires Sound(s, fromBytes) && h in s.holds
    ensures HandlesOn(Released(s, h, faults, fromBytes).state, id) <= HandlesOn(s, id)
  {
    hide Released;
    ReleasedIsRun(s, h, faults, fromBytes);
  }

  // Every layer in the store is held by something.
  ghost predicate NoneUnheld(s: State) {
    forall id | id in s.counts :: s.counts[id] > 0
  }

  // Without failures a release leaves no layer behind that nothing holds.
  lemma {:induction false} ReleasedLeavesNoneUnheld(s: State, h: Holder, faults: Faults, fromBytes: string -> string)
    requires Sound(s, fromBytes) && h in s.holds && NoneUnheld(s)
    requires faults == Faults({}, {})
    ensures NoneUnheld(Released(s, h, faults, fromBytes).state)
    decreases s.holds[h].rank
  {
    hide Sound, Released;
    ReleasedRounds(s, h, faults, fromBytes);
    var l, s1 := s.holds[h], Drop(s, h);
    if s1.counts[l.chainID] == 0 && l.parent != null {
      ReleasedLeavesNoneUnheld(Delete(s1, l, h), h, faults, fromBytes);
    }
  }

  // If nothing from outside holds any layer, a topmost layer is unheld.
  lemma TopmostIsUnheld(s: State, fromBytes: string -> string, top: ChainID)
    requires Sound(s, fromBytes) && top in s.layerMap
    requires s.holds == map[] && forall id | id in s.handles :: s.handles[id] == {}
    requires forall id | id in s.layerMap :: s.layerMap[id].rank <= s.layerMap[top].rank
    ensures s.counts[top] == 0
  {
    assert HolderCount(s, top) == s.counts[top];
    forall id | id in s.layerMap ensures s.layerMap[id].parent != s.layerMap[top] {
      assert WellPlaced(s.layerMap, fromBytes, id);
    }
    assert Children(s.layerMap, s.layerMap[top]) == {} && HoldersOf(s.holds, s.layerMap[top]) == {};
  }

  // A store that leaves no layer unheld is empty once nothing from outside holds any.
  lemma UnusedIsEmpty(s: State, fromBytes: string -> string)
    requires Sound(s, fromBytes) && NoneUnheld(s)
    requires s.holds == map[] && forall id | id in s.handles :: s.handles[id] == {}
    ensures s.layerMap == map[]
  {
    if s.layerMap.Keys != {} {
      var top := Topmost(s.layerMap, s.layerMap.Keys);
      TopmostIsUnheld(s, fromBytes, top);
    }
  }

  lemma {:induction false} Topmost(layerMap: map<ChainID, RoLayer>, ids: set<ChainID>) returns (top: ChainID)
    requires ids != {} && ids <= layerMap.Keys
    ensures top in ids && forall id | id in ids :: layerMap[id].rank <= layerMap[top].rank
  {
    top :| top in ids;
    if ids != {top} {
      var rest := Topmost(layerMap, ids - {top});
      if layerMap[top].rank < layerMap[rest].rank {
        top := rest;
      }
    }
  }

  // RegisterByGraphID makes its key from the parent's ID as it was asked for, the
  // empty one for none: the key is the same.
  lemma GraphIDKeyIsTheSame(fromBytes: string -> string, parent: ChainID, p: RoLayer?, diffID: DiffID)
    requires if p == null then parent == "" else p.chainID == parent
    ensures CreateChainIDFromParent(fromBytes, parent, [diffID]) == NewChainID(fromBytes, p, diffID)
  {
    assert [diffID][1..] == [];
  }

  // What a release reports for each layer it removed.
  datatype Metadata = Metadata(chainID: ChainID, diffID: DiffID, size: int, diffSize: int)

  ghost predicate IsReport(report: seq<Metadata>, removed: seq<RoLayer>) {
    && |report| == |removed|
    && forall i | 0 <= i < |removed| ::
         Rooted(removed[i]) && report[i] == Metadata(removed[i].chainID, removed[i].diffID, TotalSize(removed[i]), removed[i].size)
  }

  lemma ReportGoesOn(report: seq<Metadata>, removed: seq<RoLayer>, m: Metadata, l: RoLayer)
    requires IsReport(report, removed) && IsReport([m], [l])
    ensures IsReport(report + [m], removed + [l]) && |report| == |removed|
  {
    assert [m][0] == m && [l][0] == l;
  }

  lemma ResumedTwice(removed: seq<RoLayer>, l: RoLayer, r: Freed)
    ensures Resumed(removed, Resumed([l], r)) == Resumed(removed + [l], r)
    ensures Resumed([], r) == r
  {
    assert removed + ([l] + r.removed) == (removed + [l]) + r.removed;
    assert [] + r.removed == r.removed;
  }

  // In the report of a release every size is the layer's own size and the next
  // reported size together.
  lemma ReportTelescopes(s: State, h: Holder, faults: Faults, fromBytes: string -> string, report: seq<Metadata>, i: nat)
    requires Sound(s, fromBytes) && h in s.holds && i + 1 < |report|
    requires IsReport(report, Released(s, h, faults, fromBytes).removed)
    ensures IsInt64(report[i].size) && SameInt64(report[i].size, report[i].diffSize + report[i + 1].size)
    ensures IsInt64(report[i].diffSize + report[i + 1].size) ==> report[i].size == report[i].diffSize + report[i + 1].size
  {
    hide IsInt64, SameInt64, Sound, Released;
    assert |report| == |Released(s, h, faults, fromBytes).removed|;
    hide IsReport;
    ReleasedIsRun(s, h, faults, fromBytes);
    AncestryLinks(s.holds[h], i);
    LinkedTelescopes(report, Released(s, h, faults, fromBytes).removed, i);
  }

  lemma LinkedTelescopes(report: seq<Metadata>, removed: seq<RoLayer>, i: nat)
    requires IsReport(report, removed) && i + 1 < |removed| && removed[i].parent == removed[i + 1]
    ensures IsInt64(report[i].size) && SameInt64(report[i].size, report[i].diffSize + report[i + 1].size)
    ensures IsInt64(report[i].diffSize + report[i + 1].size) ==> report[i].size == report[i].diffSize + report[i + 1].size
  {
    AddIsSame(report[i + 1].size, report[i].diffSize);
    hide IsInt64, SameInt64, AddInt64;
    if IsInt64(report[i].diffSize + report[i + 1].size) {
      SameIfBothFit(report[i].size, report[i].diffSize + report[i + 1].size);
    }
  }

  // So is each reported size the sum of the sizes of the layer's whole stack.
  lemma ReportIsSums(report: seq<Metadata>, removed: seq<RoLayer>, i: nat)
    requires IsReport(report, removed) && i < |removed|
    ensures Rooted(removed[i]) && report[i].diffSize == removed[i].size
    ensures IsInt64(report[i].size) && SameInt64(report[i].size, SumOfSizes(Ancestry(removed[i])))
    ensures IsInt64(SumOfSizes(Ancestry(removed[i]))) ==> report[i].size == SumOfSizes(Ancestry(removed[i]))
  {
    TotalSizeIsSum(removed[i]);
  }
}
