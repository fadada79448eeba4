// Restart: rebuilding the layer store from what the metadata store has kept
// (NewStoreFromGraphDriver, loadLayer and loadMount of docker/layer/layer_store.go).
module LayerRestarts {
  import opened Options
  import opened ChainIDs
  import opened Layers
  import opened LayerStates
  import opened LayerStores
  import opened LayerRuns

  // What can be read of a layer or a mount; None is a read that fails. Of a layer
  // or mount that is not stored, nothing can be read.
  datatype StoredLayer = StoredLayer(diffID: Option<DiffID>, size: Option<int>, cacheID: Option<string>, parent: Option<ChainID>)
  datatype StoredMount = StoredMount(mountID: Option<string>, initID: Option<string>, parent: Option<ChainID>)
  datatype Stored = Stored(layers: map<ChainID, StoredLayer>, mounts: map<string, StoredMount>)

  // Parents have a lower rank. loadLayer would follow a cycle of parents for ever.
  ghost predicate Acyclic(stored: Stored, rank: ChainID -> nat) {
    forall id | id in stored.layers && stored.layers[id].parent.Some? && stored.layers[id].parent.value != "" ::
      rank(stored.layers[id].parent.value) < rank(id)
  }

  // All four parts can be read, of the layer and of all layers below.
  ghost predicate Readable(stored: Stored, rank: ChainID -> nat, id: ChainID)
    requires Acyclic(stored, rank)
    decreases rank(id)
  {
    && id in stored.layers
    && var l := stored.layers[id];
       && l.diffID.Some? && l.size.Some? && l.cacheID.Some? && l.parent.Some?
       && (l.parent.value != "" ==> Readable(stored, rank, l.parent.value))
  }

  // The layer and those below it.
  ghost function Stack(stored: Stored, rank: ChainID -> nat, id: ChainID): set<ChainID>
    requires Acyclic(stored, rank) && Readable(stored, rank, id)
    decreases rank(id)
  {
    {id} + if stored.layers[id].parent.value == "" then {} else Stack(stored, rank, stored.layers[id].parent.value)
  }

  lemma {:induction false} StackIsBelow(stored: Stored, rank: ChainID -> nat, id: ChainID)
    requires Acyclic(stored, rank) && Readable(stored, rank, id)
    ensures forall k | k in Stack(stored, rank, id) :: rank(k) <= rank(id)
    decreases rank(id)
  {
    if stored.layers[id].parent.value != "" {
      StackIsBelow(stored, rank, stored.layers[id].parent.value);
    }
  }

  ghost predicate MountReadable(stored: Stored, rank: ChainID -> nat, n: string)
    requires Acyclic(stored, rank)
  {
    && n in stored.mounts
    && var m := stored.mounts[n];
       && m.mountID.Some? && m.initID.Some? && m.parent.Some?
       && (m.parent.value != "" ==> Readable(stored, rank, m.parent.value))
  }

  // A layer object that says what is stored of it, on the object of its parent.
  ghost predicate AsStored(stored: Stored, rank: ChainID -> nat, layerMap: map<ChainID, RoLayer>, id: ChainID)
    requires Acyclic(stored, rank) && id in layerMap
  {
    var l := layerMap[id];
    && l.chainID == id && Readable(stored, rank, id) && Rooted(l)
    && Some(l.diffID) == stored.layers[id].diffID
    && Some(l.size) == stored.layers[id].size
    && Some(l.cacheID) == stored.layers[id].cacheID
    && var parent := stored.layers[id].parent.value;
       if parent == "" then l.parent == null else parent in layerMap && l.parent == layerMap[parent]
  }

  // How often a list names a layer whose parent is p.
  ghost function TimesListed(stored: Stored, rank: ChainID -> nat, ids: seq<ChainID>, p: ChainID): nat
    requires Acyclic(stored, rank)
  {
    if ids == [] then 0
    else TimesListed(stored, rank, ids[..|ids| - 1], p) + if IsChild(stored, rank, ids[|ids| - 1], p) then 1 else 0
  }

  ghost predicate IsChild(stored: Stored, rank: ChainID -> nat, id: ChainID, p: ChainID)
    requires Acyclic(stored, rank)
  {
    Readable(stored, rank, id) && p != "" && stored.layers[id].parent.value == p
  }

  // The layers that can be read from some of the roots down.
  ghost function LoadedBy(stored: Stored, rank: ChainID -> nat, roots: set<ChainID>): set<ChainID>
    requires Acyclic(stored, rank)
  {
    set r, k | r in roots && Readable(stored, rank, r) && k in Stack(stored, rank, r) :: k
  }

  // The parents of the mounts that can be read.
  ghost function MountRoots(stored: Stored, rank: ChainID -> nat, names: set<string>): set<ChainID>
    requires Acyclic(stored, rank)
  {
    set n | n in names && MountReadable(stored, rank, n) && stored.mounts[n].parent.value != "" :: stored.mounts[n].parent.value
  }

  lemma LoadedByOneMore(stored: Stored, rank: ChainID -> nat, roots: set<ChainID>, r: ChainID)
    requires Acyclic(stored, rank)
    ensures LoadedBy(stored, rank, roots + {r}) == LoadedBy(stored, rank, roots) + if Readable(stored, rank, r) then Stack(stored, rank, r) else {}
  {
  }

  // A layer is loaded before any layer counts it.
  lemma {:induction false} UnloadedIsNotListed(stored: Stored, rank: ChainID -> nat, ids: seq<ChainID>, p: ChainID)
    requires Acyclic(stored, rank) && p !in LoadedBy(stored, rank, SetOf(ids))
    ensures TimesListed(stored, rank, ids, p) == 0
  {
    if ids != [] {
      var rest, id := ids[..|ids| - 1], ids[|ids| - 1];
      assert SetOf(rest) + {id} == SetOf(ids);
      LoadedByOneMore(stored, rank, SetOf(rest), id);
      UnloadedIsNotListed(stored, rank, rest, p);
    }
  }

  // A mount object that says what is stored of it, on the object of its parent.
  ghost predicate MountAsStored(stored: Stored, rank: ChainID -> nat, layerMap: map<ChainID, RoLayer>, mounts: map<string, MountedLayer>, n: string)
    requires Acyclic(stored, rank) && n in mounts
  {
    var m := mounts[n];
    && m.name == n && MountReadable(stored, rank, n)
    && Some(m.mountID) == stored.mounts[n].mountID
    && Some(m.initID) == stored.mounts[n].initID
    && var parent := stored.mounts[n].parent.value;
       if parent == "" then m.parent == null else parent in layerMap && m.parent == layerMap[parent]
  }

  lemma MountsOnAdded(mounts: map<string, MountedLayer>, m: MountedLayer, l: RoLayer)
    requires m.name !in mounts
    ensures |MountsOn(mounts[m.name := m], l)| == |MountsOn(mounts, l)| + if m.parent == l then 1 else 0
  {
    assert MountsOn(mounts[m.name := m], l) == MountsOn(mounts, l) + if m.parent == l then {m.name} else {};
  }

  // The layer store while it is rebuilt.
  class Loader {
    const stored: Stored
    ghost const rank: ChainID -> nat
    var layerMap: map<ChainID, RoLayer>
    var mounts: map<string, MountedLayer>

    ghost predicate LayersLoaded()
      reads this`layerMap
    {
      && Acyclic(stored, rank)
      && forall id {:trigger AsStored(stored, rank, layerMap, id)} | id in layerMap :: AsStored(stored, rank, layerMap, id)
    }

    constructor (stored: Stored, ghost rank: ChainID -> nat)
      requires Acyclic(stored, rank)
      ensures LayersLoaded() && this.stored == stored && this.rank == rank && layerMap == map[] && mounts == map[]
    {
      this.stored, this.rank := stored, rank;
      layerMap, mounts := map[], map[];
    }

    method LoadLayer(id: ChainID) returns (l: RoLayer?)
      requires LayersLoaded()
      modifies this`layerMap
      ensures LayersLoaded()
      ensures l != null <==> Readable(stored, rank, id)
      ensures l != null ==> id in layerMap && l == layerMap[id]
      ensures layerMap.Keys == old(layerMap.Keys) + if l == null then {} else Stack(stored, rank, id)
      ensures forall k | k in layerMap ::
                if k in old(layerMap) then layerMap[k] == old(layerMap[k]) else fresh(layerMap[k]) && layerMap[k].referenceCount == 0 && layerMap[k].references == {}
      decreases rank(id)
    {
      if id in layerMap {
        StackIsLoaded(id);
        return layerMap[id];
      }
      if id !in stored.layers || stored.layers[id].diffID.None? || stored.layers[id].size.None?
         || stored.layers[id].cacheID.None? || stored.layers[id].parent.None? {
        return null;
      }
      var s := stored.layers[id];
      var p: RoLayer? := null;
      if s.parent.value != "" {
        p := LoadLayer(s.parent.value);
        if p == null {
          return null;
        }
        StackIsBelow(stored, rank, s.parent.value);
        assert AsStored(stored, rank, layerMap, s.parent.value);
      }
      assert id !in layerMap;
      l := new RoLayer(id, s.diffID.value, s.cacheID.value, s.size.value, p, 0);
      AddLoaded(l);
    }

    lemma {:induction false} StackIsLoaded(id: ChainID)
      requires LayersLoaded() && id in layerMap
      ensures Readable(stored, rank, id) && Stack(stored, rank, id) <= layerMap.Keys
      decreases rank(id)
    {
      assert AsStored(stored, rank, layerMap, id);
      if stored.layers[id].parent.value != "" {
        StackIsLoaded(stored.layers[id].parent.value);
      }
    }

    method AddLoaded(l: RoLayer)
      requires LayersLoaded() && l.chainID !in layerMap
      requires AsStored(stored, rank, layerMap[l.chainID := l], l.chainID)
      modifies this`layerMap
      ensures LayersLoaded() && layerMap == old(layerMap)[l.chainID := l]
    {
      layerMap := layerMap[l.chainID := l];
      forall id | id in layerMap ensures AsStored(stored, rank, layerMap, id) {
        assert id != l.chainID ==> AsStored(stored, rank, old(layerMap), id);
      }
    }

    method CountParent(l: RoLayer, ghost ids: seq<ChainID>)
      requires LayersLoaded() && l.chainID in layerMap && layerMap[l.chainID] == l
      requires forall k | k in layerMap :: layerMap[k].referenceCount == TimesListed(stored, rank, ids, k)
      modifies layerMap.Values`referenceCount
      ensures forall k | k in layerMap :: layerMap[k].referenceCount == TimesListed(stored, rank, ids + [l.chainID], k)
    {
      assert AsStored(stored, rank, layerMap, l.chainID);
      assert (ids + [l.chainID])[..|ids|] == ids;
      assert forall k | k in layerMap :: AsStored(stored, rank, layerMap, k);
      if l.parent != null {
        assert l.parent in layerMap.Values;
        l.parent.referenceCount := l.parent.referenceCount + 1;
      }
    }

    ghost predicate MountsLoaded()
      requires Acyclic(stored, rank)
      reads this`layerMap, this`mounts
    {
      forall n {:trigger mounts[n]} | n in mounts :: MountAsStored(stored, rank, layerMap, mounts, n)
    }

    // What the counts are once the layers in the list and some mounts are loaded.
    ghost predicate Counted(ids: seq<ChainID>)
      requires Acyclic(stored, rank)
      reads this`layerMap, this`mounts, layerMap.Values, mounts.Values
    {
      && (forall k {:trigger layerMap[k]} | k in layerMap ::
            && layerMap[k].referenceCount == TimesListed(stored, rank, ids, k) + |MountsOn(mounts, layerMap[k])|
            && layerMap[k].references == {})
      && forall n {:trigger mounts[n]} | n in mounts :: mounts[n].references == {}
    }

    method LoadMount(n: string, ghost ids: seq<ChainID>)
      requires LayersLoaded() && MountsLoaded() && Counted(ids) && LoadedBy(stored, rank, SetOf(ids)) <= layerMap.Keys
      modifies this`layerMap, this`mounts, layerMap.Values`referenceCount
      ensures LayersLoaded() && MountsLoaded() && Counted(ids)
      ensures forall k | k in layerMap :: if k in old(layerMap) then layerMap[k] == old(layerMap[k]) else fresh(layerMap[k])
      ensures mounts.Keys == old(mounts.Keys) + if MountReadable(stored, rank, n) then {n} else {}
      ensures forall k | k in mounts :: if k in old(mounts) then mounts[k] == old(mounts[k]) else fresh(mounts[k])
      ensures layerMap.Keys == old(layerMap.Keys) +
                if n !in old(mounts) && MountReadable(stored, rank, n) && stored.mounts[n].parent.value != ""
                then Stack(stored, rank, stored.mounts[n].parent.value) else {}
    {
      hide LayersLoaded, Counted, Stack, Readable, TimesListed, LoadedBy;
      if n in mounts {
        MountIsReadable(n);
        return;
      }
      if n !in stored.mounts || stored.mounts[n].mountID.None? || stored.mounts[n].initID.None? || stored.mounts[n].parent.None? {
        return;
      }
      LoadMountOnParent(n, stored.mounts[n], ids);
    }

    lemma MountIsReadable(n: string)
      requires LayersLoaded() && MountsLoaded() && n in mounts
      ensures MountReadable(stored, rank, n)
    {
      assert MountAsStored(stored, rank, layerMap, mounts, n);
    }

    method LoadMountOnParent(n: string, s: StoredMount, ghost ids: seq<ChainID>)
      requires LayersLoaded() && MountsLoaded() && Counted(ids) && LoadedBy(stored, rank, SetOf(ids)) <= layerMap.Keys
      requires n !in mounts && n in stored.mounts && stored.mounts[n] == s && s.mountID.Some? && s.initID.Some? && s.parent.Some?
      modifies this`layerMap, this`mounts, layerMap.Values`referenceCount
      ensures LayersLoaded() && MountsLoaded() && Counted(ids)
      ensures forall k | k in layerMap :: if k in old(layerMap) then layerMap[k] == old(layerMap[k]) else fresh(layerMap[k])
      ensures mounts.Keys == old(mounts.Keys) + if MountReadable(stored, rank, n) then {n} else {}
      ensures forall k | k in mounts :: if k in old(mounts) then mounts[k] == old(mounts[k]) else fresh(mounts[k])
      ensures layerMap.Keys == old(layerMap.Keys) +
                if MountReadable(stored, rank, n) && s.parent.value != "" then Stack(stored, rank, s.parent.value) else {}
    {
      hide LayersLoaded, MountsLoaded, Counted, Stack, Readable, TimesListed, LoadedBy;
      var p: RoLayer? := null;
      if s.parent.value != "" {
        p := LoadMountParent(s.parent.value, ids);
        if p == null {
          return;
        }
      }
      var m := new MountedLayer(n, s.mountID.value, s.initID.value, p);
      EnterMount(m, ids);
    }

    // The parent may still have to be loaded; nothing counts it then.
    method LoadMountParent(id: ChainID, ghost ids: seq<ChainID>) returns (p: RoLayer?)
      requires LayersLoaded() && MountsLoaded() && Counted(ids) && LoadedBy(stored, rank, SetOf(ids)) <= layerMap.Keys
      modifies this`layerMap
      ensures LayersLoaded() && MountsLoaded() && Counted(ids)
      ensures p != null <==> Readable(stored, rank, id)
      ensures p != null ==> id in layerMap && p == layerMap[id]
      ensures layerMap.Keys == old(layerMap.Keys) + if p == null then {} else Stack(stored, rank, id)
      ensures forall k | k in layerMap :: if k in old(layerMap) then layerMap[k] == old(layerMap[k]) else fresh(layerMap[k])
    {
      hide Stack, Readable;
      p := LoadLayer(id);
      forall k | k in layerMap
        ensures layerMap[k].referenceCount == TimesListed(stored, rank, ids, k) + |MountsOn(mounts, layerMap[k])| && layerMap[k].references == {}
      {
        if k !in old(layerMap) {
          UnloadedIsNotListed(stored, rank, ids, k);
          assert MountsOn(mounts, layerMap[k]) == {};
        }
      }
    }

    method EnterMount(m: MountedLayer, ghost ids: seq<ChainID>)
      requires LayersLoaded() && MountsLoaded() && Counted(ids) && m.name !in mounts && m.references == {}
      requires MountAsStored(stored, rank, layerMap, map[m.name := m], m.name)
      modifies this`mounts, layerMap.Values`referenceCount
      ensures LayersLoaded() && MountsLoaded() && Counted(ids) && mounts == old(mounts)[m.name := m]
    {
      hide Stack, Readable, TimesListed;
      if m.parent != null {
        assert m.parent in layerMap.Values;
        m.parent.referenceCount := m.parent.referenceCount + 1;
      }
      mounts := mounts[m.name := m];
      forall k | k in layerMap
        ensures layerMap[k].referenceCount == TimesListed(stored, rank, ids, k) + |MountsOn(mounts, layerMap[k])|
      {
        assert AsStored(stored, rank, layerMap, k);
        MountsOnAdded(old(mounts), m, layerMap[k]);
      }
    }
  }

  // The first loop of NewStoreFromGraphDriver.
  method LoadLayers(stored: Stored, ghost rank: ChainID -> nat, ids: seq<ChainID>) returns (ls: Loader)
    requires Acyclic(stored, rank)
    ensures fresh(ls) && ls.stored == stored && ls.rank == rank && ls.LayersLoaded() && ls.mounts == map[]
    ensures ls.layerMap.Keys == LoadedBy(stored, rank, SetOf(ids))
    ensures forall k | k in ls.layerMap ::
              fresh(ls.layerMap[k]) && ls.layerMap[k].referenceCount == TimesListed(stored, rank, ids, k) && ls.layerMap[k].references == {}
  {
    ls := new Loader(stored, rank);
    for i := 0 to |ids|
      invariant ls.stored == stored && ls.rank == rank && ls.LayersLoaded() && ls.mounts == map[]
      invariant ls.layerMap.Keys == LoadedBy(stored, rank, SetOf(ids[..i]))
      invariant forall k | k in ls.layerMap ::
                  fresh(ls.layerMap[k]) && ls.layerMap[k].referenceCount == TimesListed(stored, rank, ids[..i], k) && ls.layerMap[k].references == {}
    {
      LoadNext(ls, ids[..i], ids[i]);
      assert ids[..i + 1] == ids[..i] + [ids[i]];
    }
    assert ids[..|ids|] == ids;
  }

  // A layer that cannot be read is nobody's child.
  lemma UnreadableIsNoChild(stored: Stored, rank: ChainID -> nat, ids: seq<ChainID>, id: ChainID, k: ChainID)
    requires Acyclic(stored, rank) && !Readable(stored, rank, id)
    ensures TimesListed(stored, rank, ids + [id], k) == TimesListed(stored, rank, ids, k)
  {
    assert (ids + [id])[..|ids|] == ids;
  }

  method LoadNext(ls: Loader, ghost ids: seq<ChainID>, id: ChainID)
    requires ls.LayersLoaded() && ls.layerMap.Keys == LoadedBy(ls.stored, ls.rank, SetOf(ids))
    requires forall k | k in ls.layerMap :: ls.layerMap[k].referenceCount == TimesListed(ls.stored, ls.rank, ids, k) && ls.layerMap[k].references == {}
    modifies ls`layerMap, ls.layerMap.Values`referenceCount
    ensures ls.LayersLoaded() && ls.layerMap.Keys == LoadedBy(ls.stored, ls.rank, SetOf(ids + [id]))
    ensures forall k | k in ls.layerMap :: if k in old(ls.layerMap) then ls.layerMap[k] == old(ls.layerMap[k]) else fresh(ls.layerMap[k])
    ensures forall k | k in ls.layerMap :: ls.layerMap[k].referenceCount == TimesListed(ls.stored, ls.rank, ids + [id], k) && ls.layerMap[k].references == {}
  {
    hide Stack, Readable, TimesListed, LoadedBy;
    var l := ls.LoadLayer(id);
    assert SetOf(ids + [id]) == SetOf(ids) + {id};
    LoadedByOneMore(ls.stored, ls.rank, SetOf(ids), id);
    forall k | k in ls.layerMap && k !in old(ls.layerMap) ensures TimesListed(ls.stored, ls.rank, ids, k) == 0 {
      UnloadedIsNotListed(ls.stored, ls.rank, ids, k);
    }
    if l != null {
      assert AsStored(ls.stored, ls.rank, ls.layerMap, id);
      ls.CountParent(l, ids);
    } else {
      forall k | k in ls.layerMap ensures TimesListed(ls.stored, ls.rank, ids + [id], k) == TimesListed(ls.stored, ls.rank, ids, k) {
        UnreadableIsNoChild(ls.stored, ls.rank, ids, id, k);
      }
    }
  }

  ghost function ReadableMounts(stored: Stored, rank: ChainID -> nat, names: set<string>): set<string>
    requires Acyclic(stored, rank)
  {
    set n | n in names && MountReadable(stored, rank, n)
  }

  lemma RootsOneMore(stored: Stored, rank: ChainID -> nat, roots: set<ChainID>, names: set<string>, n: string)
    requires Acyclic(stored, rank)
    ensures ReadableMounts(stored, rank, names + {n}) == ReadableMounts(stored, rank, names) + if MountReadable(stored, rank, n) then {n} else {}
    ensures LoadedBy(stored, rank, roots) <= LoadedBy(stored, rank, roots + MountRoots(stored, rank, names))
    ensures LoadedBy(stored, rank, roots + MountRoots(stored, rank, names + {n})) ==
              LoadedBy(stored, rank, roots + MountRoots(stored, rank, names)) +
                if n !in ReadableMounts(stored, rank, names) && MountReadable(stored, rank, n) && stored.mounts[n].parent.value != ""
                then Stack(stored, rank, stored.mounts[n].parent.value) else {}
  {
    var before := MountRoots(stored, rank, names);
    if MountReadable(stored, rank, n) && stored.mounts[n].parent.value != "" {
      var p := stored.mounts[n].parent.value;
      assert MountRoots(stored, rank, names + {n}) == before + {p};
      assert roots + (before + {p}) == (roots + before) + {p};
      LoadedByOneMore(stored, rank, roots + before, p);
      if n in names {
        assert p in before;
      }
    } else {
      assert MountRoots(stored, rank, names + {n}) == before;
    }
  }

  // What NewStoreFromGraphDriver has done.
  ghost predicate LoadedFrom(ls: Loader, ids: seq<ChainID>, names: seq<string>)
    reads ls`layerMap, ls`mounts, ls.layerMap.Values, ls.mounts.Values
  {
    && ls.LayersLoaded() && ls.MountsLoaded() && ls.Counted(ids)
    && ls.layerMap.Keys == LoadedBy(ls.stored, ls.rank, SetOf(ids) + MountRoots(ls.stored, ls.rank, SetOf(names)))
    && ls.mounts.Keys == ReadableMounts(ls.stored, ls.rank, SetOf(names))
  }

  lemma NoMountsYet(ls: Loader, ids: seq<ChainID>)
    requires ls.LayersLoaded() && ls.mounts == map[] && ls.layerMap.Keys == LoadedBy(ls.stored, ls.rank, SetOf(ids))
    requires forall k | k in ls.layerMap ::
               ls.layerMap[k].referenceCount == TimesListed(ls.stored, ls.rank, ids, k) && ls.layerMap[k].references == {}
    ensures LoadedFrom(ls, ids, [])
  {
    hide Stack, Readable, TimesListed, LoadedBy;
    assert MountRoots(ls.stored, ls.rank, SetOf([])) == {};
    assert SetOf(ids) + {} == SetOf(ids);
  }

  // One round of the second loop.
  method LoadNextMount(ls: Loader, ghost ids: seq<ChainID>, ghost names: seq<string>, n: string)
    requires LoadedFrom(ls, ids, names)
    modifies ls`layerMap, ls`mounts, ls.layerMap.Values`referenceCount
    ensures LoadedFrom(ls, ids, names + [n])
    ensures forall k | k in ls.layerMap :: if k in old(ls.layerMap) then ls.layerMap[k] == old(ls.layerMap[k]) else fresh(ls.layerMap[k])
    ensures forall k | k in ls.mounts :: if k in old(ls.mounts) then ls.mounts[k] == old(ls.mounts[k]) else fresh(ls.mounts[k])
  {
    hide Stack, Readable, TimesListed, LoadedBy, MountRoots, ReadableMounts;
    RootsOneMore(ls.stored, ls.rank, SetOf(ids), SetOf(names), n);
    ls.LoadMount(n, ids);
    assert SetOf(names + [n]) == SetOf(names) + {n};
  }

  // NewStoreFromGraphDriver, given the lists that List returns. A layer's count is
  // the number of times its children are listed and of the mounts on it.
  method NewStoreFromGraphDriver(stored: Stored, ghost rank: ChainID -> nat, ids: seq<ChainID>, names: seq<string>) returns (ls: Loader)
    requires Acyclic(stored, rank)
    ensures fresh(ls) && ls.stored == stored && ls.rank == rank && LoadedFrom(ls, ids, names)
    ensures forall id | id in ls.layerMap :: fresh(ls.layerMap[id])
    ensures forall n | n in ls.mounts :: fresh(ls.mounts[n])
  {
    ls := LoadLayers(stored, rank, ids);
    NoMountsYet(ls, ids);
    hide LoadedFrom;
    for j := 0 to |names|
      invariant ls.stored == stored && ls.rank == rank && LoadedFrom(ls, ids, names[..j])
      invariant forall k | k in ls.layerMap :: fresh(ls.layerMap[k])
      invariant forall n | n in ls.mounts :: fresh(ls.mounts[n])
    {
      LoadNextMount(ls, ids, names[..j], names[j]);
      assert names[..j + 1] == names[..j] + [names[j]];
    }
    assert names[..|names|] == names;
  }

  // ---- Lists without repetition that hold every parent that can be read ----

  ghost predicate ListedWell(stored: Stored, rank: ChainID -> nat, ids: seq<ChainID>, names: set<string>)
    requires Acyclic(stored, rank)
  {
    && (forall i, j | 0 <= i < j < |ids| :: ids[i] != ids[j])
    && (forall id | id in ids && Readable(stored, rank, id) && stored.layers[id].parent.value != "" :: stored.layers[id].parent.value in ids)
    && (forall n | n in names && MountReadable(stored, rank, n) && stored.mounts[n].parent.value != "" :: stored.mounts[n].parent.value in ids)
  }

  ghost function ReadableOf(stored: Stored, rank: ChainID -> nat, ids: set<ChainID>): set<ChainID>
    requires Acyclic(stored, rank)
  {
    set id | id in ids && Readable(stored, rank, id)
  }

  lemma {:induction false} StackIsListed(stored: Stored, rank: ChainID -> nat, ids: seq<ChainID>, names: set<string>, id: ChainID)
    requires Acyclic(stored, rank) && ListedWell(stored, rank, ids, names) && id in ids && Readable(stored, rank, id)
    ensures Stack(stored, rank, id) <= ReadableOf(stored, rank, SetOf(ids))
    decreases rank(id)
  {
    if stored.layers[id].parent.value != "" {
      StackIsListed(stored, rank, ids, names, stored.layers[id].parent.value);
    }
  }

  // Exactly the listed layers whose whole ancestry can be read are loaded.
  lemma LoadedAreReadable(stored: Stored, rank: ChainID -> nat, ids: seq<ChainID>, names: set<string>)
    requires Acyclic(stored, rank) && ListedWell(stored, rank, ids, names)
    ensures LoadedBy(stored, rank, SetOf(ids) + MountRoots(stored, rank, names)) == ReadableOf(stored, rank, SetOf(ids))
  {
    var roots := SetOf(ids) + MountRoots(stored, rank, names);
    assert forall r | r in roots :: r in ids;
    forall r | r in roots && Readable(stored, rank, r) ensures Stack(stored, rank, r) <= ReadableOf(stored, rank, SetOf(ids)) {
      StackIsListed(stored, rank, ids, names, r);
    }
    forall id | id in ReadableOf(stored, rank, SetOf(ids)) ensures id in LoadedBy(stored, rank, roots) {
      assert id in roots && id in Stack(stored, rank, id);
    }
  }

  ghost function ChildrenListed(stored: Stored, rank: ChainID -> nat, ids: seq<ChainID>, p: ChainID): set<ChainID>
    requires Acyclic(stored, rank)
  {
    set id | id in ids && IsChild(stored, rank, id, p)
  }

  lemma {:induction false} TimesListedIsChildren(stored: Stored, rank: ChainID -> nat, ids: seq<ChainID>, p: ChainID)
    requires Acyclic(stored, rank) && forall i, j | 0 <= i < j < |ids| :: ids[i] != ids[j]
    ensures TimesListed(stored, rank, ids, p) == |ChildrenListed(stored, rank, ids, p)|
  {
    if ids != [] {
      var rest, id := ids[..|ids| - 1], ids[|ids| - 1];
      TimesListedIsChildren(stored, rank, rest, p);
      assert ids == rest + [id] && id !in rest;
      assert ChildrenListed(stored, rank, ids, p) == ChildrenListed(stored, rank, rest, p) + if IsChild(stored, rank, id, p) then {id} else {};
    }
  }

  // Then each count is the number of child layers and of mounts.
  lemma LoadedCounts(ls: Loader, ids: seq<ChainID>, names: seq<string>, id: ChainID)
    requires LoadedFrom(ls, ids, names) && ListedWell(ls.stored, ls.rank, ids, SetOf(names))
    ensures ls.layerMap.Keys == ReadableOf(ls.stored, ls.rank, SetOf(ids))
    ensures id in ls.layerMap ==>
              ls.layerMap[id].referenceCount == |Children(ls.layerMap, ls.layerMap[id])| + |MountsOn(ls.mounts, ls.layerMap[id])|
  {
    LoadedAreReadable(ls.stored, ls.rank, ids, SetOf(names));
    TimesListedIsChildren(ls.stored, ls.rank, ids, id);
    if id in ls.layerMap {
      LoadedChildren(ls, ids, id);
    }
  }

  lemma LoadedChildren(ls: Loader, ids: seq<ChainID>, id: ChainID)
    requires ls.LayersLoaded() && ls.layerMap.Keys == ReadableOf(ls.stored, ls.rank, SetOf(ids)) && id in ls.layerMap
    ensures Children(ls.layerMap, ls.layerMap[id]) == ChildrenListed(ls.stored, ls.rank, ids, id)
  {
    assert AsStored(ls.stored, ls.rank, ls.layerMap, id);
    forall c | c in ls.layerMap
      ensures ls.layerMap[c].parent == ls.layerMap[id] <==> IsChild(ls.stored, ls.rank, c, id)
    {
      assert AsStored(ls.stored, ls.rank, ls.layerMap, c);
      if ls.layerMap[c].parent != null {
        assert AsStored(ls.stored, ls.rank, ls.layerMap, ls.stored.layers[c].parent.value);
      }
    }
  }

  ghost function MountsNaming(stored: Stored, rank: ChainID -> nat, names: set<string>, id: ChainID): set<string>
    requires Acyclic(stored, rank)
  {
    set n | n in names && MountReadable(stored, rank, n) && id != "" && stored.mounts[n].parent.value == id
  }

  lemma LoadedMounts(ls: Loader, names: set<string>, id: ChainID)
    requires ls.LayersLoaded() && ls.MountsLoaded() && ls.mounts.Keys == ReadableMounts(ls.stored, ls.rank, names) && id in ls.layerMap
    ensures MountsOn(ls.mounts, ls.layerMap[id]) == MountsNaming(ls.stored, ls.rank, names, id)
  {
    assert AsStored(ls.stored, ls.rank, ls.layerMap, id);
    forall n | n in ls.mounts
      ensures ls.mounts[n].parent == ls.layerMap[id] <==> n in MountsNaming(ls.stored, ls.rank, names, id)
    {
      assert MountAsStored(ls.stored, ls.rank, ls.layerMap, ls.mounts, n);
      if ls.mounts[n].parent != null {
        assert AsStored(ls.stored, ls.rank, ls.layerMap, ls.stored.mounts[n].parent.value);
      }
    }
  }

  // The count, from what is stored and listed alone.
  lemma CountFromLists(ls: Loader, ids: seq<ChainID>, names: seq<string>, id: ChainID)
    requires LoadedFrom(ls, ids, names) && ListedWell(ls.stored, ls.rank, ids, SetOf(names)) && id in ls.layerMap
    ensures ls.layerMap[id].referenceCount == |ChildrenListed(ls.stored, ls.rank, ids, id)| + |MountsNaming(ls.stored, ls.rank, SetOf(names), id)|
  {
    TimesListedIsChildren(ls.stored, ls.rank, ids, id);
    LoadedMounts(ls, SetOf(names), id);
  }

  lemma ListedEitherWay(stored: Stored, rank: ChainID -> nat, ids: seq<ChainID>, ids': seq<ChainID>, id: ChainID)
    requires Acyclic(stored, rank) && SetOf(ids) == SetOf(ids')
    ensures ChildrenListed(stored, rank, ids, id) == ChildrenListed(stored, rank, ids', id)
  {
    forall c ensures c in ids <==> c in ids' {
      assert (c in ids <==> c in SetOf(ids)) && (c in ids' <==> c in SetOf(ids'));
    }
  }

  // Two loaded layers of one ID say the same.
  lemma LoadedAlike(a: Loader, b: Loader, id: ChainID)
    requires a.stored == b.stored && a.rank == b.rank && a.LayersLoaded() && b.LayersLoaded() && id in a.layerMap && id in b.layerMap
    ensures MetaOf(a.layerMap[id]) == MetaOf(b.layerMap[id])
  {
    assert AsStored(a.stored, a.rank, a.layerMap, id) && AsStored(b.stored, b.rank, b.layerMap, id);
    if a.layerMap[id].parent != null {
      var p := a.stored.layers[id].parent.value;
      assert AsStored(a.stored, a.rank, a.layerMap, p) && AsStored(b.stored, b.rank, b.layerMap, p);
    }
  }

  // The order of the lists does not matter.
  lemma OrderDoesNotMatter(a: Loader, b: Loader, ids: seq<ChainID>, ids': seq<ChainID>, names: seq<string>, names': seq<string>)
    requires a.stored == b.stored && a.rank == b.rank && LoadedFrom(a, ids, names) && LoadedFrom(b, ids', names')
    requires SetOf(ids) == SetOf(ids') && SetOf(names) == SetOf(names')
    requires ListedWell(a.stored, a.rank, ids, SetOf(names)) && ListedWell(a.stored, a.rank, ids', SetOf(names))
    ensures a.layerMap.Keys == b.layerMap.Keys && a.mounts.Keys == b.mounts.Keys
    ensures forall id | id in a.layerMap ::
              && MetaOf(a.layerMap[id]) == MetaOf(b.layerMap[id])
              && a.layerMap[id].referenceCount == b.layerMap[id].referenceCount
  {
    hide ListedWell, LoadedBy, ReadableMounts, Loader.Counted;
    forall id | id in a.layerMap
      ensures MetaOf(a.layerMap[id]) == MetaOf(b.layerMap[id]) && a.layerMap[id].referenceCount == b.layerMap[id].referenceCount
    {
      LoadedAlike(a, b, id);
      CountFromLists(a, ids, names, id);
      CountFromLists(b, ids', names', id);
      ListedEitherWay(a.stored, a.rank, ids, ids', id);
    }
  }

  // ---- Restarting a store ----

  // What a store's metadata store has committed.
  ghost function Committed(metadata: map<ChainID, LayerMeta>, mountMetadata: map<string, MountMeta>): Stored {
    Stored(map id | id in metadata ::
             StoredLayer(Some(metadata[id].diffID), Some(metadata[id].size), Some(metadata[id].cacheID), Some(metadata[id].parent)),
           map n | n in mountMetadata ::
             StoredMount(Some(mountMetadata[n].mountID), Some(mountMetadata[n].initID), Some(mountMetadata[n].parent)))
  }

  ghost function RankIn(layerMap: map<ChainID, RoLayer>): ChainID -> nat {
    id => if id in layerMap then layerMap[id].rank else 0
  }

  lemma CommittedIsAcyclic(ls: LayerStore)
    requires ls.Valid()
    ensures Acyclic(Committed(ls.metadata, ls.mountMetadata), RankIn(ls.layerMap))
  {
    forall id | id in ls.layerMap && ls.metadata[id].parent != ""
      ensures RankIn(ls.layerMap)(ls.metadata[id].parent) < RankIn(ls.layerMap)(id)
    {
      assert WellPlaced(ls.layerMap, ls.fromBytes, id);
    }
  }

  // Everything committed can be read back.
  lemma {:induction false} CommittedIsReadable(ls: LayerStore, id: ChainID)
    requires ls.Valid() && id in ls.layerMap
    requires Acyclic(Committed(ls.metadata, ls.mountMetadata), RankIn(ls.layerMap))
    ensures Readable(Committed(ls.metadata, ls.mountMetadata), RankIn(ls.layerMap), id)
    decreases ls.layerMap[id].rank
  {
    assert WellPlaced(ls.layerMap, ls.fromBytes, id);
    if ls.layerMap[id].parent != null {
      CommittedIsReadable(ls, ls.layerMap[id].parent.chainID);
    }
  }

  lemma MountParentIsNamed(ls: LayerStore, n: string)
    requires ls.Valid() && n in ls.mounts
    ensures n in ls.mountMetadata && ls.mountMetadata[n] == MountMetaOf(ls.mounts[n])
    ensures ls.mountMetadata[n].parent != "" <==> ls.mounts[n].parent != null
    ensures ls.mounts[n].parent != null ==> InMap(ls.layerMap, ls.mounts[n].parent) && ls.mounts[n].parent.chainID == ls.mountMetadata[n].parent
  {
    if ls.mounts[n].parent != null {
      ls.HeldIsInMap(Mount(n));
    }
  }

  // The lists of a restart: all committed layers, once each, and all committed mounts.
  ghost predicate ListsAll(ls: LayerStore, ids: seq<ChainID>, names: seq<string>)
    reads ls`layerMap, ls`mounts
  {
    && (forall i, j | 0 <= i < j < |ids| :: ids[i] != ids[j])
    && SetOf(ids) == ls.layerMap.Keys && SetOf(names) == ls.mounts.Keys
  }

  lemma CommittedIsListedWell(ls: LayerStore, ids: seq<ChainID>, names: seq<string>)
    requires ls.Valid() && ListsAll(ls, ids, names)
    ensures Acyclic(Committed(ls.metadata, ls.mountMetadata), RankIn(ls.layerMap))
    ensures var stored, rank := Committed(ls.metadata, ls.mountMetadata), RankIn(ls.layerMap);
            && ListedWell(stored, rank, ids, SetOf(names))
            && ReadableOf(stored, rank, SetOf(ids)) == ls.layerMap.Keys
            && ReadableMounts(stored, rank, SetOf(names)) == ls.mounts.Keys
  {
    CommittedIsAcyclic(ls);
    var stored, rank := Committed(ls.metadata, ls.mountMetadata), RankIn(ls.layerMap);
    forall id | id in ls.layerMap ensures Readable(stored, rank, id) {
      CommittedIsReadable(ls, id);
    }
    forall id | id in ids && stored.layers[id].parent.value != "" ensures stored.layers[id].parent.value in ids {
      assert id in SetOf(ids);
      assert WellPlaced(ls.layerMap, ls.fromBytes, id);
      assert stored.layers[id].parent.value in SetOf(ids);
    }
    forall n | n in SetOf(names)
      ensures MountReadable(stored, rank, n) && (stored.mounts[n].parent.value != "" ==> stored.mounts[n].parent.value in ids)
    {
      MountParentIsNamed(ls, n);
      assert stored.mounts[n].parent.value != "" ==> stored.mounts[n].parent.value in SetOf(ids);
    }
  }

  // The loader ld has loaded what the store ls has committed.
  ghost predicate Reloaded(ls: LayerStore, ld: Loader, ids: seq<ChainID>, names: seq<string>)
    reads ls, ls.layers, ls.mountObjects, ls.rwReferences, ld, ld.layerMap.Values, ld.mounts.Values
  {
    && ls.Valid() && ListsAll(ls, ids, names)
    && ld.stored == Committed(ls.metadata, ls.mountMetadata) && ld.rank == RankIn(ls.layerMap)
    && LoadedFrom(ld, ids, names)
  }

  // A committed layer names its parent, and only a layer on another names one.
  lemma CommittedLayer(ls: LayerStore, id: ChainID)
    requires ls.Valid() && id in ls.layerMap
    ensures ls.metadata[id] == MetaOf(ls.layerMap[id]) && ls.layerMap[id].chainID == id && Rooted(ls.layerMap[id])
    ensures ls.layerMap[id].parent == null <==> ls.metadata[id].parent == ""
    ensures ls.layerMap[id].parent != null ==> InMap(ls.layerMap, ls.layerMap[id].parent)
  {
    assert WellPlaced(ls.layerMap, ls.fromBytes, id);
  }

  lemma LoadedLayer(ld: Loader, id: ChainID)
    requires ld.LayersLoaded() && id in ld.layerMap
    ensures id in ld.stored.layers && ld.layerMap[id].chainID == id && Rooted(ld.layerMap[id])
    ensures var l, s := ld.layerMap[id], ld.stored.layers[id];
            && s == StoredLayer(Some(l.diffID), Some(l.size), Some(l.cacheID), Some(MetaOf(l).parent))
            && (l.parent == null <==> s.parent.value == "")
            && (l.parent != null ==> InMap(ld.layerMap, l.parent))
  {
    assert AsStored(ld.stored, ld.rank, ld.layerMap, id);
    if ld.layerMap[id].parent != null {
      assert AsStored(ld.stored, ld.rank, ld.layerMap, ld.stored.layers[id].parent.value);
    }
  }

  lemma StoredKeys(ls: LayerStore)
    requires ls.Valid()
    ensures ls.metadata.Keys == ls.layerMap.Keys && ls.mountMetadata.Keys == ls.mounts.Keys
  {
  }

  lemma ReloadedKeys(ls: LayerStore, ld: Loader, ids: seq<ChainID>, names: seq<string>)
    requires Reloaded(ls, ld, ids, names)
    ensures ld.layerMap.Keys == ls.layerMap.Keys == ls.metadata.Keys && ld.mounts.Keys == ls.mounts.Keys == ls.mountMetadata.Keys
  {
    StoredKeys(ls);
    hide LayerStore.Valid, Readable, Loader.Counted;
    CommittedIsListedWell(ls, ids, names);
    LoadedAreReadable(ld.stored, ld.rank, ids, SetOf(names));
  }

  // Layer by layer, the reloaded store is the one that was shut down.
  lemma ReloadedLayer(ls: LayerStore, ld: Loader, ids: seq<ChainID>, names: seq<string>, id: ChainID)
    requires Reloaded(ls, ld, ids, names) && id in ld.layerMap
    ensures id in ls.layerMap && MetaOf(ld.layerMap[id]) == ls.metadata[id] == MetaOf(ls.layerMap[id])
    ensures ld.layerMap[id].parent == null <==> ls.layerMap[id].parent == null
  {
    hide LayerStore.Valid, Readable, Loader.Counted, ListsAll, ListedWell, LoadedBy;
    ReloadedKeys(ls, ld, ids, names);
    CommittedLayer(ls, id);
    LoadedLayer(ld, id);
  }

  // And mount by mount.
  lemma ReloadedMount(ls: LayerStore, ld: Loader, ids: seq<ChainID>, names: seq<string>, n: string)
    requires Reloaded(ls, ld, ids, names) && n in ld.mounts
    ensures n in ls.mounts && ld.mounts[n].name == n && MountMetaOf(ld.mounts[n]) == ls.mountMetadata[n] == MountMetaOf(ls.mounts[n])
    ensures ld.mounts[n].parent == null <==> ls.mounts[n].parent == null
    ensures ld.mounts[n].parent != null ==> InMap(ld.layerMap, ld.mounts[n].parent)
  {
    hide LayerStore.Valid, Readable, Loader.Counted, ListsAll, ListedWell, LoadedBy;
    ReloadedKeys(ls, ld, ids, names);
    MountParentIsNamed(ls, n);
    assert MountAsStored(ld.stored, ld.rank, ld.layerMap, ld.mounts, n);
    if ld.mounts[n].parent != null {
      LoadedLayer(ld, ls.mountMetadata[n].parent);
    }
  }

  lemma ReloadedChild(ls: LayerStore, ld: Loader, ids: seq<ChainID>, names: seq<string>, id: ChainID, c: ChainID)
    requires Reloaded(ls, ld, ids, names) && id in ld.layerMap && c in ld.layerMap
    ensures id in ls.layerMap && c in ls.layerMap
    ensures ld.layerMap[c].parent == ld.layerMap[id] <==> ls.layerMap[c].parent == ls.layerMap[id]
  {
    hide LayerStore.Valid, Readable, Loader.Counted, ListsAll, ListedWell, LoadedBy;
    ReloadedKeys(ls, ld, ids, names);
    LoadedLayer(ld, id);
    LoadedLayer(ld, c);
    ReloadedLayer(ls, ld, ids, names, c);
    CommittedLayer(ls, c);
    CommittedLayer(ls, id);
  }

  lemma ReloadedMountOn(ls: LayerStore, ld: Loader, ids: seq<ChainID>, names: seq<string>, id: ChainID, n: string)
    requires Reloaded(ls, ld, ids, names) && id in ld.layerMap && n in ld.mounts
    ensures id in ls.layerMap && n in ls.mounts
    ensures ld.mounts[n].parent == ld.layerMap[id] <==> ls.mounts[n].parent == ls.layerMap[id]
  {
    hide LayerStore.Valid, Readable, Loader.Counted, ListsAll, ListedWell, LoadedBy;
    ReloadedKeys(ls, ld, ids, names);
    LoadedLayer(ld, id);
    ReloadedMount(ls, ld, ids, names, n);
    MountParentIsNamed(ls, n);
    CommittedLayer(ls, id);
  }

  lemma ReloadedHolders(ls: LayerStore, ld: Loader, ids: seq<ChainID>, names: seq<string>, id: ChainID)
    requires Reloaded(ls, ld, ids, names) && id in ld.layerMap
    ensures id in ls.layerMap
    ensures Children(ld.layerMap, ld.layerMap[id]) == Children(ls.layerMap, ls.layerMap[id])
    ensures MountsOn(ld.mounts, ld.layerMap[id]) == MountsOn(ls.mounts, ls.layerMap[id])
  {
    hide Reloaded;
    ReloadedKeys(ls, ld, ids, names);
    forall c | c in ld.layerMap
      ensures ld.layerMap[c].parent == ld.layerMap[id] <==> ls.layerMap[c].parent == ls.layerMap[id]
    {
      ReloadedChild(ls, ld, ids, names, id, c);
    }
    forall n | n in ld.mounts
      ensures ld.mounts[n].parent == ld.layerMap[id] <==> ls.mounts[n].parent == ls.layerMap[id]
    {
      ReloadedMountOn(ls, ld, ids, names, id, n);
    }
  }

  // A restart forgets the handles and the calls, and nothing else.
  lemma ReloadedCount(ls: LayerStore, ld: Loader, ids: seq<ChainID>, names: seq<string>, id: ChainID)
    requires Reloaded(ls, ld, ids, names) && id in ld.layerMap
    ensures id in ls.layerMap
    ensures ld.layerMap[id].referenceCount
         == ls.layerMap[id].referenceCount - |ls.layerMap[id].references| - |CallsHolding(ls.frames, ls.layerMap[id])|
  {
    hide LayerStore.Valid, Readable, Loader.Counted, ListsAll, ListedWell, LoadedBy, LoadedFrom;
    ReloadedHolders(ls, ld, ids, names, id);
    CommittedIsListedWell(ls, ids, names);
    LoadedCounts(ld, ids, names, id);
    CommittedLayer(ls, id);
    CountIsWhatHolds(ls, ls.layerMap[id]);
  }

  ghost function MountHolds(mounts: map<string, MountedLayer>): map<Holder, RoLayer> {
    map h: Holder | h in MountHolders(mounts.Keys) && mounts[h.name].parent != null :: mounts[h.name].parent
  }

  // The layers as loaded: no handles, and held only by mounts.
  ghost function LoadedState(ld: Loader, metadata: map<ChainID, LayerMeta>): State
    reads ld`layerMap, ld`mounts, ld.layerMap.Values
  {
    State(ld.layerMap, metadata, map id | id in ld.layerMap :: ld.layerMap[id].referenceCount,
          map id | id in ld.layerMap :: {}, MountHolds(ld.mounts))
  }

  lemma {:induction false} ReloadedDiffIDs(ls: LayerStore, ld: Loader, ids: seq<ChainID>, names: seq<string>, id: ChainID)
    requires Reloaded(ls, ld, ids, names) && id in ld.layerMap
    ensures id in ls.layerMap && Rooted(ls.layerMap[id]) && Rooted(ld.layerMap[id])
    ensures DiffIDs(ld.layerMap[id]) == DiffIDs(ls.layerMap[id])
    decreases ld.layerMap[id].rank
  {
    hide LayerStore.Valid, Readable, Loader.Counted, ListsAll, ListedWell, LoadedBy;
    ReloadedLayer(ls, ld, ids, names, id);
    LoadedLayer(ld, id);
    CommittedLayer(ls, id);
    if ld.layerMap[id].parent != null {
      ReloadedDiffIDs(ls, ld, ids, names, ld.layerMap[id].parent.chainID);
    }
  }

  lemma ReloadedIsForest(ls: LayerStore, ld: Loader, ids: seq<ChainID>, names: seq<string>)
    requires Reloaded(ls, ld, ids, names)
    ensures IsForest(ld.layerMap, ls.fromBytes)
  {
    forall id | id in ld.layerMap ensures WellPlaced(ld.layerMap, ls.fromBytes, id) {
      ReloadedLayer(ls, ld, ids, names, id);
      LoadedLayer(ld, id);
      ReloadedDiffIDs(ls, ld, ids, names, id);
      assert WellPlaced(ls.layerMap, ls.fromBytes, id);
    }
  }

  lemma ReloadedHolds(ls: LayerStore, ld: Loader, ids: seq<ChainID>, names: seq<string>)
    requires Reloaded(ls, ld, ids, names)
    ensures HoldsMatch(MountHolds(ld.mounts), ld.mounts, map[])
    ensures forall h | h in MountHolds(ld.mounts) :: InMap(ld.layerMap, MountHolds(ld.mounts)[h])
    ensures MountsOrdered(ld.mounts, ls.mountMetadata, map[], None)
  {
    hide Reloaded, LayerStore.Valid;
    ReloadedKeys(ls, ld, ids, names);
    forall n | n in ld.mounts
      ensures ld.mounts[n].name == n && ls.mountMetadata[n] == MountMetaOf(ld.mounts[n])
      ensures ld.mounts[n].parent != null ==> InMap(ld.layerMap, ld.mounts[n].parent) && ld.mounts[n].parent.chainID != ""
    {
      ReloadedMount(ls, ld, ids, names, n);
      ReloadedMountParent(ls, ld, ids, names, n);
    }
  }

  lemma ReloadedMountParent(ls: LayerStore, ld: Loader, ids: seq<ChainID>, names: seq<string>, n: string)
    requires Reloaded(ls, ld, ids, names) && n in ld.mounts
    ensures ld.mounts[n].parent != null ==> ld.mounts[n].parent.chainID != ""
  {
    hide LayerStore.Valid, Readable, Loader.Counted, ListsAll, ListedWell, LoadedBy;
    ReloadedMount(ls, ld, ids, names, n);
    MountParentIsNamed(ls, n);
  }

  // What is loaded meets the invariant of the store again.
  lemma ReloadedIsSound(ls: LayerStore, ld: Loader, ids: seq<ChainID>, names: seq<string>)
    requires Reloaded(ls, ld, ids, names)
    ensures Sound(LoadedState(ld, ls.metadata), ls.fromBytes)
  {
    hide Reloaded, IsForest, HoldsMatch, MountsOrdered, HolderCount;
    var s := LoadedState(ld, ls.metadata);
    ReloadedKeys(ls, ld, ids, names);
    ReloadedIsForest(ls, ld, ids, names);
    ReloadedHolds(ls, ld, ids, names);
    forall id | id in ld.layerMap ensures s.counts[id] == HolderCount(s, id) && s.metadata[id] == MetaOf(ld.layerMap[id]) {
      ReloadedLayer(ls, ld, ids, names, id);
      ReloadedHolderCount(ls, ld, ids, names, id);
    }
  }

  lemma ReloadedHolderCount(ls: LayerStore, ld: Loader, ids: seq<ChainID>, names: seq<string>, id: ChainID)
    requires Reloaded(ls, ld, ids, names) && id in ld.layerMap
    requires HoldsMatch(MountHolds(ld.mounts), ld.mounts, map[])
    ensures ld.layerMap[id].referenceCount == HolderCount(LoadedState(ld, ls.metadata), id)
  {
    hide LayerStore.Valid, Readable, Loader.Counted, ListsAll, ListedWell, LoadedBy, LoadedFrom, HoldsMatch;
    CommittedIsListedWell(ls, ids, names);
    LoadedCounts(ld, ids, names, id);
    HoldersAreMountsAndCalls(MountHolds(ld.mounts), ld.mounts, map[], ld.layerMap[id]);
    assert CallsHolding(map[], ld.layerMap[id]) == {};
  }

  // A store that is shut down at any moment and started again on what it has
  // committed is valid: it has the same layers and mounts and forgets handles and
  // calls. Runs may go on from it.
  method Restart(ls: LayerStore, stored: Stored, ids: seq<ChainID>, names: seq<string>) returns (ls': LayerStore)
    requires ls.Valid() && ListsAll(ls, ids, names) && stored == Committed(ls.metadata, ls.mountMetadata)
    ensures fresh(ls') && ls'.Valid() && ls'.fromBytes == ls.fromBytes
    ensures ls'.metadata == ls.metadata && ls'.mountMetadata == ls.mountMetadata
    ensures ls'.frames == map[] && ls'.mountL == None
    ensures forall id | id in ls'.layerMap :: ls'.layerMap[id].references == {}
  {
    hide Reloaded, LayerStore.Valid, Sound, HoldsMatch, MountsOrdered;
    CommittedIsAcyclic(ls);
    var ld := NewStoreFromGraphDriver(stored, RankIn(ls.layerMap), ids, names);
    IsReloaded(ls, ld, ids, names);
    ReloadedIsSound(ls, ld, ids, names);
    ReloadedHolds(ls, ld, ids, names);
    NoReferencesLoaded(ld, ids, names);
    ls' := new LayerStore.Loaded(ls.fromBytes, ld.layerMap, ld.mounts, ls.metadata, ls.mountMetadata, LoadedState(ld, ls.metadata));
  }

  lemma IsReloaded(ls: LayerStore, ld: Loader, ids: seq<ChainID>, names: seq<string>)
    requires ls.Valid() && ListsAll(ls, ids, names)
    requires ld.stored == Committed(ls.metadata, ls.mountMetadata) && ld.rank == RankIn(ls.layerMap)
    requires LoadedFrom(ld, ids, names)
    ensures Reloaded(ls, ld, ids, names)
  {
  }

  lemma NoReferencesLoaded(ld: Loader, ids: seq<ChainID>, names: seq<string>)
    requires LoadedFrom(ld, ids, names)
    ensures forall id | id in ld.layerMap :: ld.layerMap[id].references == {}
    ensures forall n | n in ld.mounts :: ld.mounts[n].references == {}
  {
  }
}
