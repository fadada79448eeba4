// The objects of the layer store: read-only layers, handles on them, mounts and
// references to mounts (docker/layer/ro_layer.go, docker/layer/mounted_layer.go).
module Layers {
  import opened ChainIDs

  // Signed 64-bit addition, as Go computes it.
  function AddInt64(a: int, b: int): int {
    (a + b + 0x8000_0000_0000_0000) % 0x1_0000_0000_0000_0000 - 0x8000_0000_0000_0000
  }

  // What Go's int64 can hold.
  predicate IsInt64(n: int) {
    -0x8000_0000_0000_0000 <= n < 0x8000_0000_0000_0000
  }

  // Two numbers that are the same in 64 bits.
  predicate SameInt64(a: int, b: int) {
    (a - b) % 0x1_0000_0000_0000_0000 == 0
  }

  lemma SameIfBothFit(a: int, b: int)
    requires SameInt64(a, b) && IsInt64(a)
    ensures IsInt64(b) ==> a == b
  {
  }

  lemma AddIsSame(a: int, b: int)
    ensures IsInt64(AddInt64(a, b)) && SameInt64(AddInt64(a, b), a + b)
  {
  }

  class RoLayer {
    const chainID: ChainID
    const diffID: DiffID
    const cacheID: string
    const size: int
    const parent: RoLayer?
    // Number of layers below; the parent is made first, so its rank is lower.
    ghost const rank: nat
    var referenceCount: int
    var references: set<LayerHandle>

    // A new layer is retained once, for the caller that makes it.
    constructor (chainID: ChainID, diffID: DiffID, cacheID: string, size: int, parent: RoLayer?, referenceCount: int)
      ensures this.chainID == chainID && this.diffID == diffID && this.cacheID == cacheID
      ensures this.size == size && this.parent == parent
      ensures rank == if parent == null then 0 else parent.rank + 1
      ensures this.referenceCount == referenceCount && references == {}
    {
      this.chainID, this.diffID, this.cacheID := chainID, diffID, cacheID;
      this.size, this.parent := size, parent;
      this.rank := if parent == null then 0 else parent.rank + 1;
      this.referenceCount, this.references := referenceCount, {};
    }

    method GetReference() returns (h: LayerHandle)
      modifies this`references
      ensures fresh(h) && h.layer == this
      ensures references == old(references) + {h}
    {
      h := new LayerHandle(this);
      references := references + {h};
    }

    method DeleteReference(h: LayerHandle)
      modifies this`references
      ensures references == old(references) - {h}
    {
      references := references - {h};
    }

    method Depth() returns (d: nat)
      requires Rooted(this)
      ensures d == |Ancestry(this)|
      decreases rank
    {
      if parent == null {
        return 1;
      }
      d := parent.Depth();
      d := d + 1;
    }

    // Size of the layer and all layers below it.
    method Size() returns (total: int)
      requires Rooted(this)
      ensures total == TotalSize(this)
      ensures IsInt64(total) && SameInt64(total, SumOfSizes(Ancestry(this)))
      ensures IsInt64(SumOfSizes(Ancestry(this))) ==> total == SumOfSizes(Ancestry(this))
      decreases rank
    {
      total := 0;
      if parent != null {
        total := parent.Size();
      }
      total := AddInt64(total, size);
      TotalSizeIsSum(this);
    }
  }

  // What Get and Register hand out: one retained use of a layer.
  class LayerHandle {
    const layer: RoLayer

    constructor (layer: RoLayer)
      ensures this.layer == layer
    {
      this.layer := layer;
    }
  }

  ghost predicate Rooted(l: RoLayer)
    decreases l.rank
  {
    l.parent == null || (l.parent.rank < l.rank && Rooted(l.parent))
  }

  // The layer, its parent, and so on down to the bottom of the stack.
  ghost function Ancestry(l: RoLayer): (s: seq<RoLayer>)
    requires Rooted(l)
    ensures |s| > 0 && s[0] == l
    decreases l.rank
  {
    [l] + if l.parent == null then [] else Ancestry(l.parent)
  }

  ghost function DiffIDs(l: RoLayer): seq<DiffID>
    requires Rooted(l)
    decreases l.rank
  {
    (if l.parent == null then [] else DiffIDs(l.parent)) + [l.diffID]
  }

  ghost function TotalSize(l: RoLayer): int
    requires Rooted(l)
    decreases l.rank
  {
    AddInt64(if l.parent == null then 0 else TotalSize(l.parent), l.size)
  }

  ghost function SumOfSizes(ls: seq<RoLayer>): int {
    if ls == [] then 0 else ls[0].size + SumOfSizes(ls[1..])
  }

  // The recursion over parents adds up the whole stack, in 64 bits: exactly if the sum
  // fits, and else it is off by a multiple of 2^64.
  lemma {:induction false} TotalSizeIsSum(l: RoLayer)
    requires Rooted(l)
    ensures IsInt64(TotalSize(l)) && SameInt64(TotalSize(l), SumOfSizes(Ancestry(l)))
    ensures IsInt64(SumOfSizes(Ancestry(l))) ==> TotalSize(l) == SumOfSizes(Ancestry(l))
    decreases l.rank
  {
    SumOfAncestry(l);
    if l.parent != null {
      TotalSizeIsSum(l.parent);
    }
    var below, sum := if l.parent == null then 0 else TotalSize(l.parent), if l.parent == null then 0 else SumOfSizes(Ancestry(l.parent));
    assert TotalSize(l) == AddInt64(below, l.size);
    SumSame(below, sum, l.size);
    SameIfBothFit(TotalSize(l), l.size + sum);
  }

  lemma SumOfAncestry(l: RoLayer)
    requires Rooted(l)
    ensures SumOfSizes(Ancestry(l)) == l.size + if l.parent == null then 0 else SumOfSizes(Ancestry(l.parent))
  {
    assert Ancestry(l)[1..] == if l.parent == null then [] else Ancestry(l.parent);
  }

  lemma SumSame(a: int, b: int, n: int)
    requires SameInt64(a, b)
    ensures IsInt64(AddInt64(a, n)) && SameInt64(AddInt64(a, n), n + b)
  {
  }

  // Each layer of an ancestry is the parent of the one before it.
  lemma {:induction false} AncestryLinks(l: RoLayer, i: nat)
    requires Rooted(l) && i < |Ancestry(l)|
    ensures Rooted(Ancestry(l)[i]) && Ancestry(Ancestry(l)[i]) == Ancestry(l)[i..]
    ensures Ancestry(l)[i].parent == if i + 1 < |Ancestry(l)| then Ancestry(l)[i + 1] else null
    decreases i
  {
    if i > 0 {
      AncestryLinks(l.parent, i - 1);
      assert Ancestry(l)[i..] == Ancestry(l.parent)[i - 1..];
    }
  }

  class MountedLayer {
    const name: string
    const mountID: string
    const initID: string
    const parent: RoLayer?
    var references: set<RWReference>

    constructor (name: string, mountID: string, initID: string, parent: RoLayer?)
      ensures this.name == name && this.mountID == mountID && this.initID == initID && this.parent == parent
      ensures references == {}
    {
      this.name, this.mountID, this.initID, this.parent := name, mountID, initID, parent;
      references := {};
    }

    method GetReference() returns (r: RWReference)
      modifies this`references
      ensures fresh(r) && r.mount == this && r.activityCount == 0
      ensures references == old(references) + {r}
    {
      r := new RWReference(this);
      references := references + {r};
    }

    method DeleteReference(r: RWReference) returns (res: RWResult)
      modifies this`references, r`activityCount
      ensures res == if r !in old(references) then NotRetained else if old(r.activityCount) > 0 then ActiveMount else Done
      ensures references == if res == Done then old(references) - {r} else old(references)
      ensures r.activityCount == if res == Done then -1 else old(r.activityCount)
    {
      if r !in references {
        return NotRetained;
      }
      res := r.Release();
      if res != Done {
        return;
      }
      references := references - {r};
    }
  }

  datatype RWResult = Done | NotRetained | ActiveMount | NotMounted

  // One user's reference to a mount. It counts its own uses; -1 means released.
  class RWReference {
    const mount: MountedLayer
    var activityCount: int

    constructor (mount: MountedLayer)
      ensures this.mount == mount && activityCount == 0
    {
      this.mount := mount;
      activityCount := 0;
    }

    method Release() returns (res: RWResult)
      modifies this`activityCount
      ensures res == if old(activityCount) > 0 then ActiveMount else Done
      ensures activityCount == if old(activityCount) > 0 then old(activityCount) else -1
    {
      if activityCount > 0 {
        return ActiveMount;
      }
      activityCount := -1;
      return Done;
    }

    // The count goes up even when the driver then fails to mount.
    method Mount() returns (res: RWResult)
      modifies this`activityCount
      ensures res == if old(activityCount) == -1 then NotRetained else Done
      ensures activityCount == if old(activityCount) == -1 then -1 else old(activityCount) + 1
    {
      if activityCount == -1 {
        return NotRetained;
      }
      activityCount := activityCount + 1;
      return Done;
    }

    method Unmount() returns (res: RWResult)
      modifies this`activityCount
      ensures res == if old(activityCount) == 0 then NotMounted else if old(activityCount) == -1 then NotRetained else Done
      ensures activityCount == if res == Done then old(activityCount) - 1 else old(activityCount)
    {
      if activityCount == 0 {
        return NotMounted;
      }
      if activityCount == -1 {
        return NotRetained;
      }
      activityCount := activityCount - 1;
      return Done;
    }
  }
}
