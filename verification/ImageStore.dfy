// The image store (docker/image/store.go) over its backend (docker/image/fs.go)
// and the layer store.
module ImageStores {
  import opened Options
  import opened Digests
  import DigestSets
  import opened ChainIDs
  import opened Layers
  import opened LayerStates
  import opened LayerStores
  import opened LayerSteps
  import opened LayerRuns

  type ID = Digest

  // What the store looks at in an image's configuration, once it is parsed.
  datatype Config =
    | Malformed
    | WithoutRootFS(nonEmptyHistory: nat)
    | Config(diffIDs: seq<DiffID>, nonEmptyHistory: nat)

  // ---- The backend ----

  // Contents under their digests, and of some images the ID of a parent. The
  // contents may have been changed behind the store's back; they are then unreadable.
  class Backend {
    const fromBytes: string -> string
    var content: map<ID, string>
    var parents: map<ID, ID>

    constructor (fromBytes: string -> string, content: map<ID, string>, parents: map<ID, ID>)
      ensures this.fromBytes == fromBytes && this.content == content && this.parents == parents
    {
      this.fromBytes, this.content, this.parents := fromBytes, content, parents;
    }

    predicate Readable(id: ID)
      reads this`content
    {
      id in content && fromBytes(content[id]) == id
    }

    // The parent links that can be read.
    ghost function Links(): (links: map<ID, ID>)
      reads this
      ensures forall c :: c in links <==> Readable(c) && c in parents
      ensures forall c | c in links :: links[c] == parents[c]
    {
      map c | c in parents && Readable(c) :: parents[c]
    }

    method Get(id: ID) returns (data: Option<string>)
      ensures data == if Readable(id) then Some(content[id]) else None
    {
      data := if Readable(id) then Some(content[id]) else None;
    }

    method Set(data: string, fails: bool) returns (id: Option<ID>)
      modifies this`content
      ensures id == if data == "" || fails then None else Some(fromBytes(data))
      ensures content == if id.None? then old(content) else old(content)[id.value := data]
    {
      if data == "" || fails {
        return None;
      }
      content := content[fromBytes(data) := data];
      return Some(fromBytes(data));
    }

    method Delete(id: ID, fails: bool)
      modifies this
      ensures content == if fails then old(content) else old(content) - {id}
      ensures parents == if fails then old(parents) else old(parents) - {id}
    {
      if !fails {
        content := content - {id};
        parents := parents - {id};
      }
    }

    method SetParent(id: ID, parent: ID, fails: bool) returns (ok: bool)
      modifies this`parents
      ensures ok == (Readable(id) && !fails)
      ensures parents == if ok then old(parents)[id := parent] else old(parents)
    {
      if !Readable(id) || fails {
        return false;
      }
      parents := parents[id := parent];
      return true;
    }

    method GetParent(id: ID) returns (parent: Option<ID>)
      ensures parent == if id in Links() then Some(Links()[id]) else None
    {
      parent := if Readable(id) && id in parents then Some(parents[id]) else None;
    }

    method DeleteParent(id: ID, fails: bool)
      modifies this`parents
      ensures parents == if fails then old(parents) else old(parents) - {id}
    {
      if !fails {
        parents := parents - {id};
      }
    }
  }

  // ---- The children maps as the inverse of the parent links ----

  // children[p] holds exactly the images whose link names p, and every link names
  // an image of the store.
  ghost predicate Inverse(children: map<ID, set<ID>>, links: map<ID, ID>) {
    && (forall p, c {:trigger c in children[p]} | p in children :: c in children[p] <==> c in links && links[c] == p)
    && (forall c {:trigger links[c]} | c in links :: links[c] in children)
  }

  // What SetParent does to the children maps: c leaves its old parent and joins p.
  ghost function Moved(children: map<ID, set<ID>>, links: map<ID, ID>, c: ID, p: ID): map<ID, set<ID>> {
    map q | q in children ::
      (if c in links && links[c] == q then children[q] - {c} else children[q]) + if q == p then {c} else {}
  }

  lemma MovedInSteps(children: map<ID, set<ID>>, links: map<ID, ID>, c: ID, p: ID, left: map<ID, set<ID>>)
    requires p in children
    requires left == if c in links && links[c] in children then children[links[c] := children[links[c]] - {c}] else children
    ensures Moved(children, links, c, p) == left[p := left[p] + {c}]
  {
    var moved := Moved(children, links, c, p);
    assert moved.Keys == children.Keys == left[p := left[p] + {c}].Keys;
    forall q | q in children ensures moved[q] == left[p := left[p] + {c}][q] {
    }
  }

  lemma MovedKeepsInverse(children: map<ID, set<ID>>, links: map<ID, ID>, c: ID, p: ID)
    requires Inverse(children, links) && p in children
    ensures Inverse(Moved(children, links, c, p), links[c := p])
  {
  }

  // If the link is not written, the maps agree with the links only if c was p's child before.
  lemma MovedWithoutLink(children: map<ID, set<ID>>, links: map<ID, ID>, c: ID, p: ID)
    requires Inverse(children, links) && p in children
    ensures Inverse(Moved(children, links, c, p), links) <==> c in links && links[c] == p
  {
    var moved := Moved(children, links, c, p);
    assert c in moved[p];
    if c in links && links[c] == p {
      forall q | q in children ensures moved[q] == children[q] {
        assert q == p ==> c in children[q];
      }
    }
  }

  // What Delete leaves of the children maps.
  ghost function WithoutImage(children: map<ID, set<ID>>, id: ID): map<ID, set<ID>> {
    map q | q in children && q != id :: children[q] - {id}
  }

  // Delete takes away the links of the image's children, except those that are
  // stuck, and the image's own, unless it is kept.
  ghost function LinksLeft(links: map<ID, ID>, id: ID, children: set<ID>, stuck: set<ID>, kept: bool): map<ID, ID> {
    links - (children - stuck) - if kept then {} else {id}
  }

  // No link from or to the deleted image is left.
  ghost predicate CleanDelete(children: map<ID, set<ID>>, links: map<ID, ID>, id: ID, stuck: set<ID>, kept: bool)
    requires id in children
  {
    && (forall c | c in stuck && c in children[id] :: c == id && !kept)
    && (kept && id in links ==> links[id] == id)
  }

  lemma WithoutInSteps(children: map<ID, set<ID>>, links: map<ID, ID>, id: ID, stuck: set<ID>, left: map<ID, set<ID>>)
    requires Inverse(children, links) && id in children
    requires var links1 := links - (children[id] - stuck);
             left == if id in links1 then children[links1[id] := children[links1[id]] - {id}] else children
    ensures left - {id} == WithoutImage(children, id)
  {
    var without := WithoutImage(children, id);
    assert (left - {id}).Keys == without.Keys;
    forall q | q in without ensures left[q] == without[q] {
    }
  }

  lemma DroppedKeepsInverse(children: map<ID, set<ID>>, links: map<ID, ID>, id: ID, stuck: set<ID>, kept: bool)
    requires Inverse(children, links) && id in children
    ensures Inverse(WithoutImage(children, id), LinksLeft(links, id, children[id], stuck, kept)) <==> CleanDelete(children, links, id, stuck, kept)
  {
    var dropped, left := WithoutImage(children, id), LinksLeft(links, id, children[id], stuck, kept);
    if Inverse(dropped, left) {
      assert id in children[id] <==> id in links && links[id] == id;
      assert kept && id in links && links[id] != id ==> id in left;
      forall c | c in left ensures c != id && left[c] != id {
        assert left[c] in dropped && c in dropped[left[c]];
      }
      forall c | c in stuck && c in children[id] ensures c == id && !kept {
        assert c in left <==> c != id || kept;
      }
    }
    if CleanDelete(children, links, id, stuck, kept) {
      CleanIsInverse(children, links, id, stuck, kept);
    }
  }

  lemma CleanIsInverse(children: map<ID, set<ID>>, links: map<ID, ID>, id: ID, stuck: set<ID>, kept: bool)
    requires Inverse(children, links) && id in children && CleanDelete(children, links, id, stuck, kept)
    ensures Inverse(WithoutImage(children, id), LinksLeft(links, id, children[id], stuck, kept))
  {
    var dropped, left := WithoutImage(children, id), LinksLeft(links, id, children[id], stuck, kept);
    assert left.Keys <= links.Keys && forall c | c in left :: left[c] == links[c];
    forall c | c in links ensures c in left <==> c != id && links[c] != id {
      assert c in children[id] <==> links[c] == id;
    }
    forall p, c {:trigger c in dropped[p]} | p in dropped ensures c in dropped[p] <==> c in left && left[c] == p {
      assert c in children[p] <==> c in links && links[c] == p;
    }
  }

  // The children maps that restore fills in, once it has looked at some images.
  ghost function KidsOf(keys: set<ID>, seen: set<ID>, links: map<ID, ID>): map<ID, set<ID>> {
    map p | p in keys :: set c | c in seen && c in links && links[c] == p
  }

  lemma KidsOneMore(keys: set<ID>, seen: set<ID>, links: map<ID, ID>, id: ID)
    ensures var kids := KidsOf(keys, seen, links);
            KidsOf(keys, seen + {id}, links) ==
              if id in links && links[id] in keys then kids[links[id] := kids[links[id]] + {id}] else kids
  {
    var kids, more := KidsOf(keys, seen, links), KidsOf(keys, seen + {id}, links);
    forall p | p in keys ensures more[p] == if id in links && links[id] == p then kids[p] + {id} else kids[p] {
    }
    assert more.Keys == kids.Keys == keys;
  }

  lemma NoKids(keys: set<ID>, links: map<ID, ID>, children: map<ID, set<ID>>)
    requires children.Keys == keys && forall p | p in children :: children[p] == {}
    ensures children == KidsOf(keys, {}, links)
  {
    var kids := KidsOf(keys, {}, links);
    forall p | p in keys ensures kids[p] == children[p] {
    }
    assert kids.Keys == keys;
  }

  // They are the inverse of the links exactly if the links stay among the images.
  lemma KidsAreInverse(keys: set<ID>, links: map<ID, ID>)
    ensures Inverse(KidsOf(keys, keys, links), links) <==> forall c | c in links :: c in keys && links[c] in keys
  {
    var kids := KidsOf(keys, keys, links);
    if Inverse(kids, links) {
      forall c | c in links ensures c in keys && links[c] in keys {
        assert links[c] in kids;
        assert c in kids[links[c]];
      }
    }
  }

  // If links are from images only, the maps of a running store are those that
  // restore makes.
  lemma RestoreRebuilds(children: map<ID, set<ID>>, links: map<ID, ID>)
    requires Inverse(children, links) && links.Keys <= children.Keys
    ensures KidsOf(children.Keys, children.Keys, links) == children
  {
    var kids := KidsOf(children.Keys, children.Keys, links);
    assert kids.Keys == children.Keys;
    forall p | p in children ensures kids[p] == children[p] {
      forall c ensures c in kids[p] <==> c in children[p] {
      }
    }
  }

  lemma AddedKeepsInverse(children: map<ID, set<ID>>, links: map<ID, ID>, id: ID)
    requires Inverse(children, links) && id !in children
    ensures Inverse(children[id := {}], links)
  {
  }

  // ---- The store ----

  class ImageMeta {
    const layer: LayerHandle?
    // The image's ID, and its chain ID when it was made or loaded.
    ghost const id: ID
    ghost const chainID: ChainID
    var children: set<ID>

    constructor (layer: LayerHandle?, ghost id: ID, ghost chainID: ChainID)
      ensures this.layer == layer && this.id == id && this.chainID == chainID && children == {}
    {
      this.layer, this.id, this.chainID, this.children := layer, id, chainID, {};
    }
  }

  datatype Created = Made(id: ID) | BadConfig | Panic | TooManyLayers | BackendFailed | NoLayer | BadID

  // An image has a handle exactly if it has layers.
  ghost predicate Consistent(images: map<ID, ImageMeta>) {
    forall a {:trigger images[a]} | a in images ::
      && images[a].id == a
      && (images[a].layer == null <==> images[a].chainID == "")
      && (images[a].layer != null ==> images[a].layer.layer.chainID == images[a].chainID)
  }

  // No two images have the same one.
  ghost predicate SeparateHandles(images: map<ID, ImageMeta>) {
    forall a, b {:trigger images[a], images[b]} | a in images && b in images && a != b ::
      images[a].layer != null ==> images[a].layer != images[b].layer
  }

  // The handles the images own.
  ghost function Owned(images: map<ID, ImageMeta>): set<LayerHandle> {
    set a | a in images && images[a].layer != null :: images[a].layer
  }

  ghost predicate IsIndex(images: map<ID, ImageMeta>, children: map<ID, set<ID>>, links: map<ID, ID>, digests: set<Digest>) {
    IsKeyed(images, digests) && Inverse(children, links) && images.Keys == children.Keys
  }

  ghost predicate IsKeyed(images: map<ID, ImageMeta>, digests: set<Digest>) {
    Consistent(images) && SeparateHandles(images) && digests == images.Keys
  }

  // Every image with layers owns a live handle on its top layer.
  ghost predicate Pinned(images: map<ID, ImageMeta>, s: State) {
    forall a {:trigger images[a]} | a in images && images[a].layer != null :: images[a].layer in HandlesOn(s, images[a].layer.layer.chainID)
  }

  lemma PinnedStays(images: map<ID, ImageMeta>, s: State, s': State, gone: set<LayerHandle>)
    requires Pinned(images, s) && HandlesKept(s, s', gone) && gone !! Owned(images)
    ensures Pinned(images, s')
  {
    forall a | a in images && images[a].layer != null ensures images[a].layer in HandlesOn(s', images[a].layer.layer.chainID) {
      assert images[a].layer in HandlesOn(s, images[a].layer.layer.chainID) - gone;
    }
  }

  lemma IndexMoved(images: map<ID, ImageMeta>, children: map<ID, set<ID>>, links: map<ID, ID>, digests: set<Digest>, c: ID, p: ID)
    requires IsIndex(images, children, links, digests) && p in images
    ensures IsIndex(images, Moved(children, links, c, p), links[c := p], digests)
    ensures IsIndex(images, Moved(children, links, c, p), links, digests) <==> c in links && links[c] == p
  {
    MovedKeepsInverse(children, links, c, p);
    MovedWithoutLink(children, links, c, p);
  }

  lemma IndexWithout(images: map<ID, ImageMeta>, children: map<ID, set<ID>>, links: map<ID, ID>, digests: set<Digest>,
                     id: ID, stuck: set<ID>, kept: bool)
    requires IsIndex(images, children, links, digests) && id in images
    ensures IsIndex(images - {id}, WithoutImage(children, id), LinksLeft(links, id, children[id], stuck, kept), digests - {id})
       <==> CleanDelete(children, links, id, stuck, kept)
  {
    DroppedKeepsInverse(children, links, id, stuck, kept);
    assert WithoutImage(children, id).Keys == (images - {id}).Keys;
  }

  lemma IndexParts(images: map<ID, ImageMeta>, children: map<ID, set<ID>>, links: map<ID, ID>, digests: set<Digest>)
    requires IsIndex(images, children, links, digests)
    ensures Consistent(images) && Inverse(children, links) && digests == images.Keys == children.Keys
  {
  }

  lemma OwnedOnce(images: map<ID, ImageMeta>, id: ID)
    requires SeparateHandles(images) && id in images && images[id].layer != null
    ensures images[id].layer !in Owned(images - {id})
  {
  }

  lemma PinnedWithout(images: map<ID, ImageMeta>, id: ID, s: State)
    requires Pinned(images, s)
    ensures Pinned(images - {id}, s)
  {
  }

  lemma PutThenDrop<K, V>(m: map<K, V>, k: K, v: V)
    requires k !in m
    ensures m[k := v] - {k} == m
  {
  }

  lemma KeyedAdded(images: map<ID, ImageMeta>, digests: set<Digest>, id: ID, m: ImageMeta, s: State)
    requires IsKeyed(images, digests) && Pinned(images, s) && id !in images
    requires m.id == id && (m.layer == null <==> m.chainID == "")
    requires m.layer != null ==> m.layer.layer.chainID == m.chainID && m.layer !in Owned(images) && m.layer in HandlesOn(s, m.chainID)
    ensures IsKeyed(images[id := m], digests + {id}) && Pinned(images[id := m], s)
  {
    forall a | a in images && images[a].layer != null ensures images[a].layer != m.layer {
      assert images[a].layer in Owned(images);
    }
  }

  lemma ImageAdded(images: map<ID, ImageMeta>, children: map<ID, set<ID>>, links: map<ID, ID>, digests: set<Digest>, id: ID, m: ImageMeta, s: State)
    requires IsIndex(images, children, links, digests) && Pinned(images, s) && id !in images
    requires m.id == id && (m.layer == null <==> m.chainID == "")
    requires m.layer != null ==> m.layer.layer.chainID == m.chainID && m.layer !in Owned(images) && m.layer in HandlesOn(s, m.chainID)
    ensures IsIndex(images[id := m], children[id := {}], links, digests + {id}) && Pinned(images[id := m], s)
  {
    AddedKeepsInverse(children, links, id);
    KeyedAdded(images, digests, id, m, s);
  }

  class ImageStore {
    const ls: LayerStore
    const fs: Backend
    const digestSet: DigestSets.DigestSet
    const parse: string -> Config
    var images: map<ID, ImageMeta>

    ghost function Children(): map<ID, set<ID>>
      reads this`images, images.Values
    {
      map a | a in images :: images[a].children
    }

    // The children maps, the digest set and the backend agree.
    ghost predicate Indexed()
      reads this`images, images.Values, fs, digestSet
    {
      && IsIndex(images, Children(), fs.parents, DigestSets.Contents(digestSet.entries))
      && digestSet.IsValid()
      && forall c | c in fs.parents :: fs.Readable(c)
    }

    ghost predicate Valid()
      reads this`images, images.Values, fs, digestSet, ls, ls.layers, ls.mountObjects, ls.rwReferences
    {
      Indexed() && Pinned(images, ls.state) && ls.Valid() && fs.fromBytes == ls.fromBytes
    }

    // NewImageStore before restore.
    constructor (ls: LayerStore, fs: Backend, parse: string -> Config)
      ensures this.ls == ls && this.fs == fs && this.parse == parse && images == map[]
      ensures fresh(digestSet) && digestSet.IsValid() && DigestSets.Contents(digestSet.entries) == {}
    {
      this.ls, this.fs, this.parse := ls, fs, parse;
      this.digestSet := new DigestSets.DigestSet();
      this.images := map[];
    }

    method SetParent(id: ID, parent: ID, fails: bool) returns (ok: bool)
      requires Indexed()
      modifies images.Values`children, fs`parents
      ensures parent !in images ==> !ok && Children() == old(Children()) && fs.parents == old(fs.parents)
      ensures parent in images ==>
                && ok == (fs.Readable(id) && !fails)
                && Children() == Moved(old(Children()), old(fs.parents), id, parent)
                && fs.parents == (if ok then old(fs.parents)[id := parent] else old(fs.parents))
      // With a known parent, the maps stay the inverse of the links exactly if the
      // link is written or was there before.
      ensures parent in images ==> (Indexed() <==> ok || (id in old(fs.parents) && old(fs.parents[id]) == parent))
      ensures parent !in images ==> Indexed()
    {
      hide IsIndex, Moved;
      if parent !in images {
        return false;
      }
      IndexMoved(images, Children(), fs.parents, DigestSets.Contents(digestSet.entries), id, parent);
      MoveChild(id, parent);
      ok := fs.SetParent(id, parent, fails);
    }

    method MoveChild(id: ID, parent: ID)
      requires Indexed() && parent in images
      modifies images.Values`children
      ensures Children() == Moved(old(Children()), fs.parents, id, parent)
    {
      hide Inverse, SeparateHandles, Moved;
      ghost var children := Children();
      var before := fs.GetParent(id);
      if before.Some? && before.value in images {
        RemoveChild(before.value, id);
      }
      ghost var left := Children();
      MovedInSteps(children, fs.parents, id, parent, left);
      assert images[parent].children == left[parent];
      ChangeChildren(parent, images[parent].children + {id});
    }

    method RemoveChild(p: ID, c: ID)
      requires Consistent(images) && p in images
      modifies images.Values`children
      ensures Children() == old(Children())[p := old(Children())[p] - {c}]
    {
      assert images[p].children == Children()[p];
      ChangeChildren(p, images[p].children - {c});
    }

    method ChangeChildren(p: ID, children: set<ID>)
      requires Consistent(images) && p in images
      modifies images.Values`children
      ensures Children() == old(Children())[p := children]
    {
      assert forall a | a in images :: images[a] in images.Values;
      var m := images[p];
      m.children := children;
    }

    // ---- Create ----

    // No restore that comes across this content succeeds without its layers, or if its
    // ID is refused.
    ghost predicate RestoreNeeds(id: ID, chainID: ChainID)
      reads fs`content
    {
      && Loadable(id)
      && forall order, chains {:trigger CanRestore(order, chains)} | id in order && CanRestore(order, chains) ::
           Validate(id).None? && (chainID == "" || chainID in chains)
    }

    lemma StoredIsNeeded(id: ID, config: string)
      requires parse(config).Config? && id in fs.content && fs.content[id] == config && fs.fromBytes(config) == id
      ensures RestoreNeeds(id, CreateChainID(ls.fromBytes, parse(config).diffIDs))
    {
      forall order, chains | id in order && CanRestore(order, chains)
        ensures Validate(id).None? && (ChainOf(id) == "" || ChainOf(id) in chains)
      {
        assert Restorable(id, chains);
      }
    }

    // The configuration is stored first, and stays stored if no image is made: restore
    // then fails with it until its layers are there, or for good if its ID is refused.
    // An image's layer is got while others go on using the layer store.
    method Create(config: string, fails: bool, t: nat, others: seq<Step>, handed: seq<LayerHandle>, rws: seq<RWReference>)
      returns (r: Created, handles: seq<LayerHandle>, references: seq<RWReference>)
      requires Valid() && t !in ls.frames && t !in CallsOf(others) && SetOf(rws) <= ls.rwReferences
      requires SetOf(handed) !! Owned(images)
      modifies this`images, fs`content, digestSet, ls, ls.layers, ls.mountObjects, ls.rwReferences
      ensures Valid()
      ensures parse(config).Malformed? ==> r == BadConfig
      ensures parse(config).WithoutRootFS? ==> r == Panic
      ensures parse(config).Config? ==>
                var id, chainID := fs.fromBytes(config), CreateChainID(ls.fromBytes, parse(config).diffIDs);
                r == if parse(config).nonEmptyHistory > |parse(config).diffIDs| then TooManyLayers
                     else if config == "" || fails then BackendFailed
                     else if id in old(images) then Made(id)
                     else if chainID != "" && chainID !in old(ls.layerMap) then NoLayer
                     else if Validate(id).Some? then BadID
                     else Made(id)
      ensures r.BadConfig? || r.Panic? || r.TooManyLayers? || r.BackendFailed? ==> fs.content == old(fs.content)
      ensures r.NoLayer? || r.BadID? || r.Made? ==>
                && fs.content == old(fs.content)[fs.fromBytes(config) := config]
                && RestoreNeeds(fs.fromBytes(config), CreateChainID(ls.fromBytes, parse(config).diffIDs))
      ensures !r.Made? || r.id in old(images) ==> images == old(images)
      ensures r.Made? && r.id !in old(images) ==>
                && r.id in images && images == old(images)[r.id := images[r.id]] && fresh(images[r.id])
                && images[r.id].chainID == CreateChainID(ls.fromBytes, parse(config).diffIDs)
      ensures forall h | h in handles :: fresh(h) && h !in Owned(images)
    {
      hide IsIndex, Pinned, LayerStore.Valid, Owned, CallsOf, LayerStore.StateIsReal, RestoreNeeds;
      handles, references := [], [];
      match parse(config) {
        case Malformed => r := BadConfig;
        case WithoutRootFS(_) => r := Panic;
        case Config(diffIDs, n) =>
          if n > |diffIDs| {
            return TooManyLayers, [], [];
          }
          var id := StoreConfig(config, fails);
          if id.None? {
            return BackendFailed, [], [];
          }
          StoredIsNeeded(id.value, config);
          if id.value in images {
            return Made(id.value), [], [];
          }
          r, handles, references := Enter(id.value, CreateChainID(ls.fromBytes, diffIDs), t, others, handed, rws);
      }
    }

    method StoreConfig(config: string, fails: bool) returns (id: Option<ID>)
      requires Valid()
      modifies fs`content
      ensures Valid() && id == if config == "" || fails then None else Some(fs.fromBytes(config))
      ensures fs.content == if id.None? then old(fs.content) else old(fs.content)[id.value := config]
    {
      hide IsIndex, Pinned, LayerStore.Valid;
      id := fs.Set(config, fails);
    }

    method Enter(id: ID, chainID: ChainID, t: nat, others: seq<Step>, handed: seq<LayerHandle>, rws: seq<RWReference>)
      returns (r: Created, handles: seq<LayerHandle>, references: seq<RWReference>)
      requires Valid() && t !in ls.frames && t !in CallsOf(others) && SetOf(rws) <= ls.rwReferences
      requires SetOf(handed) !! Owned(images) && id !in images
      modifies this`images, digestSet, ls, ls.layers, ls.mountObjects, ls.rwReferences
      ensures Valid()
      ensures r == if chainID != "" && chainID !in old(ls.layerMap) then NoLayer else if Validate(id).Some? then BadID else Made(id)
      ensures r.Made? ==> id in images && images == old(images)[id := images[id]] && fresh(images[id]) && images[id].chainID == chainID
      ensures !r.Made? ==> images == old(images)
      ensures forall h | h in handles :: fresh(h) && h !in Owned(images)
    {
      hide IsIndex, Pinned, Owned, LayerStore.Valid;
      var ref: LayerHandle? := null;
      handles, references := [], [];
      if chainID != "" {
        ref, handles, references := GetLayer(chainID, t, others, handed, rws);
        if ref == null {
          return NoLayer, handles, references;
        }
      }
      var m := new ImageMeta(ref, id, chainID);
      r := AddImage(id, m);
      NewlyOwned(old(images), id, m);
    }

    method GetLayer(chainID: ChainID, t: nat, others: seq<Step>, handed: seq<LayerHandle>, rws: seq<RWReference>)
      returns (ref: LayerHandle?, handles: seq<LayerHandle>, references: seq<RWReference>)
      requires Valid() && t !in ls.frames && t !in CallsOf(others) && SetOf(rws) <= ls.rwReferences
      requires SetOf(handed) !! Owned(images)
      modifies ls, ls.layers, ls.mountObjects, ls.rwReferences
      ensures Valid() && (ref == null <==> chainID !in old(ls.layerMap))
      ensures ref != null ==>
                && fresh(ref) && ref !in Owned(images) && ref.layer.chainID == chainID && ref in HandlesOn(ls.state, chainID)
      ensures forall h | h in handles :: fresh(h) && h !in Owned(images) && h != ref
    {
      hide IsIndex, Pinned, HandlesKept, FramesKept, LayerStore.Valid, CallsOf;
      ref, handles, references := GetAmongOthers(ls, t, chainID, others, handed, rws);
      PinnedStays(images, old(ls.state), ls.state, SetOf(handed));
    }

    lemma NewlyOwned(before: map<ID, ImageMeta>, id: ID, m: ImageMeta)
      ensures Owned(before[id := m]) <= Owned(before) + if m.layer == null then {} else {m.layer}
    {
    }

    // The image enters the store, unless the digest set refuses its ID.
    method AddImage(id: ID, m: ImageMeta) returns (r: Created)
      requires Indexed() && Pinned(images, ls.state) && id !in images
      requires m.id == id && m.children == {} && (m.layer == null <==> m.chainID == "")
      requires m.layer != null ==>
                 && m.layer.layer.chainID == m.chainID && m.layer !in Owned(images)
                 && m.layer in HandlesOn(ls.state, m.chainID)
      modifies this`images, digestSet
      ensures Indexed() && Pinned(images, ls.state)
      ensures r == if Validate(id).Some? then BadID else Made(id)
      ensures images == if r.Made? then old(images)[id := m] else old(images)
    {
      hide IsIndex, Pinned, Owned;
      ImageAdded(images, Children(), fs.parents, DigestSets.Contents(digestSet.entries), id, m, ls.state);
      PutMeta(id, m);
      var err := AddDigest(id);
      if err.Some? {
        PutThenDrop(old(images), id, m);
        PutThenDrop(old(Children()), id, {});
        DropMeta(id);
        return BadID;
      }
      return Made(id);
    }

    method PutMeta(id: ID, m: ImageMeta)
      requires id !in images && m.children == {}
      modifies this`images
      ensures images == old(images)[id := m] && Children() == old(Children())[id := {}]
    {
      images := images[id := m];
    }

    method AddDigest(id: ID) returns (err: Option<DigestError>)
      requires digestSet.IsValid()
      modifies digestSet
      ensures digestSet.IsValid() && err == Validate(id)
      ensures Children() == old(Children())
      ensures DigestSets.Contents(digestSet.entries) == if err.None? then old(DigestSets.Contents(digestSet.entries)) + {id} else old(DigestSets.Contents(digestSet.entries))
    {
      err := digestSet.Add(id);
    }

    method DropMeta(id: ID)
      requires id in images
      modifies this`images
      ensures images == old(images) - {id} && Children() == old(Children()) - {id}
    {
      images := images - {id};
    }

    // ---- Delete ----

    // The links of the children, and the image's own, may fail to be removed: the
    // backend's errors are ignored. The children maps stay the inverse of the links
    // exactly if none is left from or to the image. Its handle is released.
    method Delete(id: ID, stuck: set<ID>, kept: bool, faults: Faults) returns (known: bool, report: seq<Metadata>, err: bool)
      requires Valid()
      modifies this`images, images.Values`children, fs, digestSet, ls`layerMap, ls`metadata, ls`state, ls.layers
      ensures known == (id in old(images)) && (!known ==> Valid())
      ensures known ==>
                && images == old(images) - {id} && Children() == WithoutImage(old(Children()), id)
                && fs.parents == LinksLeft(old(fs.parents), id, old(images[id].children), stuck, kept)
                && fs.content == (if kept then old(fs.content) else old(fs.content) - {id})
                && (Valid() <==> CleanDelete(old(Children()), old(fs.parents), id, stuck, kept))
                && ls.Valid() && Pinned(images, ls.state)
                && (old(images[id]).layer != null ==> !ls.Live(old(images[id]).layer))
      // What was released of the image's layers, if it has any, or an error.
      ensures known && old(images[id]).layer != null ==>
                ReleasesHandle(old(ls.state), ls.state, old(images[id]).layer, faults, ls.fromBytes, report, err)
      ensures !known || old(images[id]).layer == null ==> report == [] && !err && ls.state == old(ls.state)
    {
      hide ReleasesHandle, Indexed, Children, IsIndex, Pinned, LayerStore.Valid, CleanDelete, LinksLeft, WithoutImage, Owned, HandlesKept;
      if id !in images {
        return false, [], false;
      }
      var m := images[id];
      HandleOf(id);
      PinnedWithout(images, id, ls.state);
      Unlink(id, stuck, kept);
      known, report, err := true, [], false;
      if m.layer != null {
        report, err := ReleaseOwned(m.layer, faults);
      }
    }

    method ReleaseOwned(ref: LayerHandle, faults: Faults) returns (report: seq<Metadata>, err: bool)
      requires ls.Valid() && Pinned(images, ls.state) && ls.Live(ref) && ref !in Owned(images)
      modifies ls`layerMap, ls`metadata, ls`state, ls.layers
      ensures ls.Valid() && Pinned(images, ls.state) && !ls.Live(ref)
      ensures ReleasesHandle(old(ls.state), ls.state, ref, faults, ls.fromBytes, report, err)
      ensures Indexed() == old(Indexed()) && Children() == old(Children())
    {
      hide ReleasesHandle, Indexed, Pinned, LayerStore.Valid, HandlesKept;
      report, err := ReleaseLive(ls, ref, faults);
      PinnedStays(images, old(ls.state), ls.state, {ref});
    }

    lemma HandleOf(id: ID)
      requires Valid() && id in images
      ensures images[id].layer != null ==> ls.Live(images[id].layer) && images[id].layer !in Owned(images - {id})
    {
      if images[id].layer != null {
        OwnedOnce(images, id);
      }
    }

    // Delete, but for the layer.
    method Unlink(id: ID, stuck: set<ID>, kept: bool)
      requires Indexed() && id in images
      modifies this`images, images.Values`children, fs, digestSet
      ensures images == old(images) - {id} && Children() == WithoutImage(old(Children()), id)
      ensures fs.parents == LinksLeft(old(fs.parents), id, old(images[id].children), stuck, kept)
      ensures fs.content == if kept then old(fs.content) else old(fs.content) - {id}
      ensures Indexed() <==> CleanDelete(old(Children()), old(fs.parents), id, stuck, kept)
    {
      hide IsIndex, LinksLeft, WithoutImage, CleanDelete;
      IndexWithout(images, Children(), fs.parents, DigestSets.Contents(digestSet.entries), id, stuck, kept);
      Detach(id, stuck);
      RemoveDigest(id);
      DropMeta(id);
      RemoveContent(id, old(fs.parents), old(images[id].children), stuck, kept);
    }

    method RemoveContent(id: ID, ghost links: map<ID, ID>, ghost children: set<ID>, stuck: set<ID>, kept: bool)
      requires fs.parents == links - (children - stuck) && forall c | c in fs.parents :: fs.Readable(c)
      modifies fs
      ensures fs.parents == LinksLeft(links, id, children, stuck, kept) && forall c | c in fs.parents :: fs.Readable(c)
      ensures fs.content == if kept then old(fs.content) else old(fs.content) - {id}
    {
      fs.Delete(id, kept);
    }

    // The image leaves the links of its children and the children of its parent.
    method Detach(id: ID, stuck: set<ID>)
      requires Indexed() && id in images
      modifies images.Values`children, fs`parents
      ensures Children() - {id} == WithoutImage(old(Children()), id)
      ensures fs.parents == old(fs.parents) - (old(images[id].children) - stuck) && forall c | c in fs.parents :: fs.Readable(c)
      ensures id in DigestSets.Contents(digestSet.entries)
    {
      hide IsIndex, WithoutImage;
      IndexParts(images, Children(), fs.parents, DigestSets.Contents(digestSet.entries));
      UnlinkChildren(images[id].children, stuck);
      LeaveParent(id, stuck, old(fs.parents));
    }

    method LeaveParent(id: ID, stuck: set<ID>, ghost links: map<ID, ID>)
      requires Consistent(images) && id in images && Inverse(Children(), links)
      requires fs.parents == links - (images[id].children - stuck) && forall c | c in fs.parents :: fs.Readable(c)
      modifies images.Values`children
      ensures Children() - {id} == WithoutImage(old(Children()), id)
    {
      hide WithoutImage;
      ghost var children := Children();
      assert images[id].children == children[id];
      var parent := fs.GetParent(id);
      if parent.Some? && parent.value in images {
        RemoveChild(parent.value, id);
      }
      WithoutInSteps(children, links, id, stuck, Children());
    }

    // No digest of the set is refused.
    method RemoveDigest(id: ID)
      requires digestSet.IsValid() && id in DigestSets.Contents(digestSet.entries)
      modifies digestSet
      ensures digestSet.IsValid() && DigestSets.Contents(digestSet.entries) == old(DigestSets.Contents(digestSet.entries)) - {id}
      ensures Children() == old(Children())
    {
      var i :| 0 <= i < |digestSet.entries| && digestSet.entries[i].digest == id;
      assert DigestSets.IsEntry(digestSet.entries[i]);
      var err := digestSet.Remove(id);
    }

    method UnlinkChildren(children: set<ID>, stuck: set<ID>)
      modifies fs`parents
      ensures fs.parents == old(fs.parents) - (children - stuck)
    {
      var todo := children;
      while todo != {}
        invariant todo <= children && fs.parents == old(fs.parents) - ((children - todo) - stuck)
      {
        var c :| c in todo;
        fs.DeleteParent(c, c in stuck);
        todo := todo - {c};
      }
    }

    // ---- restore ----

    // The content can be read and is an image's configuration.
    predicate Loadable(id: ID)
      reads fs`content
    {
      fs.Readable(id) && parse(fs.content[id]).Config?
    }

    function ChainOf(id: ID): ChainID
      requires Loadable(id)
      reads fs`content
    {
      CreateChainID(ls.fromBytes, parse(fs.content[id]).diffIDs)
    }

    // Nothing stops the walk at this ID.
    ghost predicate Restorable(id: ID, chains: set<ChainID>)
      reads fs`content
    {
      Loadable(id) ==> Validate(id).None? && (ChainOf(id) == "" || ChainOf(id) in chains)
    }

    ghost predicate CanRestore(order: seq<ID>, chains: set<ChainID>)
      reads fs`content
    {
      forall id | id in order :: Restorable(id, chains)
    }

    ghost function LoadableOf(keys: set<ID>): set<ID>
      reads fs`content
    {
      set id | id in keys && Loadable(id)
    }

    lemma LoadableOneMore(keys: set<ID>, id: ID)
      ensures LoadableOf(keys + {id}) == LoadableOf(keys) + if Loadable(id) then {id} else {}
    {
    }

    ghost predicate Restoring(keys: set<ID>)
      reads this`images, images.Values, fs`content, digestSet, ls, ls.layers, ls.mountObjects, ls.rwReferences
    {
      && ls.Valid() && Pinned(images, ls.state) && digestSet.IsValid()
      && IsKeyed(images, DigestSets.Contents(digestSet.entries))
      && images.Keys == LoadableOf(keys)
      && forall a | a in images :: images[a].chainID == ChainOf(a) && images[a].children == {}
    }

    lemma RestoringIsValid(keys: set<ID>)
      requires Restoring(keys)
      ensures ls.Valid()
    {
    }

    lemma RestoringParts(keys: set<ID>)
      requires Restoring(keys)
      ensures ls.Valid() && Pinned(images, ls.state) && digestSet.IsValid()
      ensures IsKeyed(images, DigestSets.Contents(digestSet.entries)) && images.Keys == LoadableOf(keys)
      ensures forall a | a in images :: fs.Readable(a) && images[a].chainID == ChainOf(a) && images[a].children == {}
    {
    }

    lemma NowRestoring(keys: set<ID>)
      requires ls.Valid() && Pinned(images, ls.state) && digestSet.IsValid()
      requires IsKeyed(images, DigestSets.Contents(digestSet.entries)) && images.Keys == LoadableOf(keys)
      requires forall a | a in images :: images[a].chainID == ChainOf(a) && images[a].children == {}
      ensures Restoring(keys)
    {
    }

    lemma StartsRestoring()
      requires images == map[] && digestSet.IsValid() && DigestSets.Contents(digestSet.entries) == {} && ls.Valid()
      ensures Restoring({})
    {
    }

    lemma RestoringKeys(keys: set<ID>)
      requires Restoring(keys)
      ensures images.Keys <= keys
    {
    }

    lemma RestoringPasses(keys: set<ID>, id: ID)
      requires Restoring(keys) && !Loadable(id)
      ensures Restoring(keys + {id})
    {
      LoadableOneMore(keys, id);
    }

    // One round of the walk.
    method LoadImage(id: ID, t: nat, ghost keys: set<ID>) returns (ok: bool)
      requires Restoring(keys) && t !in ls.frames && id !in images
      modifies this`images, digestSet, ls`state, ls`frames, ls.layers
      ensures ok <==> Restorable(id, ls.layerMap.Keys)
      ensures ls.Valid() && (ok ==> Restoring(keys + {id})) && ls.frames == old(ls.frames)
      ensures forall a | a in images :: if a in old(images) then images[a] == old(images[a]) else fresh(images[a])
    {
      hide Restoring, LayerStore.Valid, Owned;
      RestoringIsValid(keys);
      var data := fs.Get(id);
      if data.None? || !parse(data.value).Config? {
        RestoringPasses(keys, id);
        return true;
      }
      var chainID := CreateChainID(ls.fromBytes, parse(data.value).diffIDs);
      if chainID == "" {
        var m := new ImageMeta(null, id, chainID);
        ok := EnterLoaded(id, m, keys);
      } else {
        ok := LoadLayered(id, chainID, t, keys);
      }
    }

    method LoadLayered(id: ID, chainID: ChainID, t: nat, ghost keys: set<ID>) returns (ok: bool)
      requires ls.Valid() && Restoring(keys) && t !in ls.frames && id !in images && Loadable(id) && chainID == ChainOf(id) != ""
      modifies this`images, digestSet, ls`state, ls`frames, ls.layers
      ensures ok <==> Validate(id).None? && chainID in ls.layerMap
      ensures ls.Valid() && (ok ==> Restoring(keys + {id})) && ls.frames == old(ls.frames)
      ensures forall a | a in images :: if a in old(images) then images[a] == old(images[a]) else fresh(images[a])
    {
      hide Restoring, LayerStore.Valid, Owned;
      var ref := GetNow(t, chainID, keys);
      if ref == null {
        return false;
      }
      var m := new ImageMeta(ref, id, chainID);
      ok := EnterLoaded(id, m, keys);
    }

    method EnterLoaded(id: ID, m: ImageMeta, ghost keys: set<ID>) returns (ok: bool)
      requires ls.Valid() && Restoring(keys) && id !in images && Loadable(id)
      requires m.id == id && m.children == {} && m.chainID == ChainOf(id) && (m.layer == null <==> m.chainID == "")
      requires m.layer != null ==> m.layer.layer.chainID == m.chainID && m.layer !in Owned(images) && m.layer in HandlesOn(ls.state, m.chainID)
      modifies this`images, digestSet
      ensures ok <==> Validate(id).None?
      ensures ls.Valid() && (ok ==> Restoring(keys + {id}))
      ensures images == if ok then old(images)[id := m] else old(images)
    {
      hide Restoring, IsKeyed, Pinned, LayerStore.Valid, Owned, LoadableOf;
      RestoringParts(keys);
      LoadableOneMore(keys, id);
      KeyedAdded(images, DigestSets.Contents(digestSet.entries), id, m, ls.state);
      var err := AddDigest(id);
      if err.Some? {
        return false;
      }
      images := images[id := m];
      NowRestoring(keys + {id});
      return true;
    }

    method GetNow(t: nat, chainID: ChainID, ghost keys: set<ID>) returns (ref: LayerHandle?)
      requires Restoring(keys) && t !in ls.frames
      modifies ls`state, ls`frames, ls.layers
      ensures ls.Valid() && Restoring(keys) && ls.frames == old(ls.frames)
      ensures ref == null <==> chainID !in ls.layerMap
      ensures ref != null ==> fresh(ref) && ref !in Owned(images) && ref.layer.chainID == chainID && ref in HandlesOn(ls.state, chainID)
    {
      hide Restoring, LayerStore.Valid, Pinned, IsKeyed, LoadableOf;
      RestoringParts(keys);
      ref := GetPinned(t, chainID);
      NowRestoring(keys);
    }

    method GetPinned(t: nat, chainID: ChainID) returns (ref: LayerHandle?)
      requires ls.Valid() && Pinned(images, ls.state) && t !in ls.frames
      modifies ls`state, ls`frames, ls.layers
      ensures ls.Valid() && Pinned(images, ls.state) && ls.frames == old(ls.frames)
      ensures ref == null <==> chainID !in ls.layerMap
      ensures ref != null ==> fresh(ref) && ref.layer.chainID == chainID && ref in HandlesOn(ls.state, chainID)
    {
      hide LayerStore.Valid, HandlesKept, Pinned;
      var ok := ls.GetBegin(t, chainID);
      if !ok {
        return null;
      }
      ghost var s := ls.state;
      Taken(old(ls.state), Call(t), ls.layerMap[chainID]);
      ref := ls.GetFinish(t);
      Handled(s, Call(t), ref);
      HandlesKeptTwice(old(ls.state), s, ls.state, {}, {}, {});
      PinnedStays(images, old(ls.state), ls.state, {});
    }

    // restore: the first loop walks the contents, in any order, and stops at an
    // image whose layers are missing; the second fills in the children maps.
    method Restore(order: seq<ID>, t: nat) returns (ok: bool)
      requires images == map[] && digestSet.IsValid() && DigestSets.Contents(digestSet.entries) == {}
      requires ls.Valid() && fs.fromBytes == ls.fromBytes && t !in ls.frames
      requires forall i, j | 0 <= i < j < |order| :: order[i] != order[j]
      modifies this`images, digestSet, ls`state, ls`frames, ls.layers
      ensures ls.Valid() && (ok <==> CanRestore(order, ls.layerMap.Keys))
      ensures ok ==>
                && images.Keys == LoadableOf(SetOf(order))
                && (forall a | a in images :: images[a].chainID == ChainOf(a))
                && Children() == KidsOf(images.Keys, images.Keys, fs.parents)
      // The store is then valid exactly if the links stay among the images.
      ensures ok ==> (Valid() <==> forall c | c in fs.parents :: c in images && fs.parents[c] in images)
    {
      hide Restoring, LayerStore.Valid, IsIndex, IsKeyed, LoadableOf;
      assert SetOf(order[..0]) == {};
      StartsRestoring();
      for i := 0 to |order|
        invariant ls.Valid() && Restoring(SetOf(order[..i])) && t !in ls.frames
        invariant forall a | a in images :: a in order[..i] && fresh(images[a])
        invariant CanRestore(order[..i], ls.layerMap.Keys)
      {
        assert order[..i + 1] == order[..i] + [order[i]];
        assert SetOf(order[..i + 1]) == SetOf(order[..i]) + {order[i]};
        ok := LoadImage(order[i], t, SetOf(order[..i]));
        if !ok {
          return false;
        }
        RestoringKeys(SetOf(order[..i + 1]));
      }
      assert order[..|order|] == order;
      FillChildren(SetOf(order));
      return true;
    }

    method FillChildren(ghost keys: set<ID>)
      requires Restoring(keys) && fs.fromBytes == ls.fromBytes
      modifies images.Values`children
      ensures images.Keys == LoadableOf(keys) && forall a | a in images :: images[a].chainID == ChainOf(a)
      ensures Children() == KidsOf(images.Keys, images.Keys, fs.parents)
      ensures Valid() <==> forall c | c in fs.parents :: c in images && fs.parents[c] in images
    {
      hide LayerStore.Valid, LoadableOf, SeparateHandles, Pinned, KidsOf, Restoring;
      RestoringParts(keys);
      FillAll();
      ValidIfLinksStay();
    }

    lemma ValidIfLinksStay()
      requires ls.Valid() && Pinned(images, ls.state) && digestSet.IsValid() && fs.fromBytes == ls.fromBytes
      requires IsKeyed(images, DigestSets.Contents(digestSet.entries)) && forall a | a in images :: fs.Readable(a)
      requires Children() == KidsOf(images.Keys, images.Keys, fs.parents)
      ensures Valid() <==> forall c | c in fs.parents :: c in images && fs.parents[c] in images
    {
      hide LayerStore.Valid, SeparateHandles, Pinned, Inverse, KidsOf;
      KidsAreInverse(images.Keys, fs.parents);
    }

    // The second loop.
    method FillAll()
      requires Consistent(images) && forall a | a in images :: fs.Readable(a) && images[a].children == {}
      modifies images.Values`children
      ensures Children() == KidsOf(images.Keys, images.Keys, fs.parents)
    {
      hide KidsOf;
      var todo := images.Keys;
      NoKids(images.Keys, fs.parents, Children());
      assert images.Keys - todo == {};
      while todo != {}
        invariant todo <= images.Keys && Children() == KidsOf(images.Keys, images.Keys - todo, fs.parents)
      {
        var id :| id in todo;
        FillOne(id, images.Keys - todo);
        assert images.Keys - todo + {id} == images.Keys - (todo - {id});
        todo := todo - {id};
      }
      assert images.Keys - todo == images.Keys;
    }

    method FillOne(id: ID, ghost seen: set<ID>)
      requires Consistent(images) && fs.Readable(id)
      requires Children() == KidsOf(images.Keys, seen, fs.parents)
      modifies images.Values`children
      ensures Children() == KidsOf(images.Keys, seen + {id}, fs.parents)
    {
      hide KidsOf;
      KidsOneMore(images.Keys, seen, fs.parents, id);
      var parent := fs.GetParent(id);
      if parent.Some? && parent.value in images {
        assert images[parent.value].children == Children()[parent.value];
        ChangeChildren(parent.value, images[parent.value].children + {id});
      }
    }

    // ---- What the store promises ----

    // Any run of other users of the layer store, who were never given an image's
    // handle, leaves the image store valid.
    method LetOthersRun(steps: seq<Step>, handed: seq<LayerHandle>, rws: seq<RWReference>)
      returns (handles: seq<LayerHandle>, references: seq<RWReference>)
      requires Valid() && SetOf(rws) <= ls.rwReferences && SetOf(handed) !! Owned(images)
      modifies ls, ls.layers, ls.mountObjects, ls.rwReferences
      ensures Valid() && forall h | h in handles :: fresh(h)
    {
      hide LayerStore.Valid, Pinned, HandlesKept, FramesKept, IsIndex, CallsOf;
      ghost var worlds;
      handles, references, worlds := Run(ls, steps, handed, rws);
      PinnedStays(images, old(ls.state), ls.state, SetOf(handed));
    }

    // So while an image is in the store, its whole chain of layers is in the layer
    // store, under the chain ID the image was made with.
    lemma ImageChainStays(id: ID, i: nat)
      requires Valid() && id in images && images[id].chainID != ""
      ensures images[id].layer != null && Rooted(images[id].layer.layer)
      ensures ls.Live(images[id].layer) && images[id].layer.layer.chainID == images[id].chainID
      ensures i < |Ancestry(images[id].layer.layer)| ==> InMap(ls.layerMap, Ancestry(images[id].layer.layer)[i])
    {
      LiveHandleKeepsAncestry(ls, images[id].layer, i);
    }

    // imagesMap: Map lists all images that can be read, Heads those of them that no
    // link names as a parent.
    method ImagesMap(all: bool) returns (found: map<ID, string>)
      requires Indexed()
      ensures found.Keys ==
                set id | id in images && Loadable(id) && (all || forall c | c in fs.parents :: fs.parents[c] != id)
      ensures forall id | id in found :: found[id] == fs.content[id]
    {
      found := map[];
      var todo := images.Keys;
      while todo != {}
        invariant todo <= images.Keys
        invariant forall id :: id in found <==> id in images && id !in todo && Loadable(id) && (all || images[id].children == {})
        invariant forall id | id in found :: found[id] == fs.content[id]
      {
        var id :| id in todo;
        todo := todo - {id};
        if all || images[id].children == {} {
          var data := fs.Get(id);
          if data.Some? && parse(data.value).Config? {
            found := found[id := data.value];
          }
        }
      }
      forall id | id in images ensures images[id].children == {} <==> forall c | c in fs.parents :: fs.parents[c] != id {
        HeadIsUnnamed(id);
      }
    }

    lemma HeadIsUnnamed(id: ID)
      requires Indexed() && id in images
      ensures images[id].children == {} <==> forall c | c in fs.parents :: fs.parents[c] != id
    {
      var children := Children();
      assert children[id] == images[id].children;
      assert forall c :: c in children[id] <==> c in fs.parents && fs.parents[c] == id;
      if images[id].children != {} {
        var c :| c in images[id].children;
        assert c in fs.parents && fs.parents[c] == id;
      }
    }

    // Search gives the digest set's answer: it is that of a scan of all images for a
    // term without an algorithm, and for others if the matches start where it looks.
    method Search(term: string) returns (r: DigestSets.LookupResult)
      requires Indexed()
      ensures r == DigestSets.SearchAnswer(digestSet.entries, DigestSets.ParseQuery(term))
      ensures DigestSets.ScanAnswer(digestSet.entries, DigestSets.ParseQuery(term), r) <==>
                DigestSets.MatchesInFront(digestSet.entries, DigestSets.ParseQuery(term))
      ensures Validate(term) == Some(InvalidFormat) ==> DigestSets.ScanAnswer(digestSet.entries, DigestSets.ParseQuery(term), r)
      ensures r.Found? ==> r.digest in images
    {
      r := digestSet.Lookup(term);
      if Validate(term) == Some(InvalidFormat) {
        DigestSets.UnqualifiedMatchesInFront(digestSet.entries, DigestSets.ParseQuery(term));
      }
    }
  }
}
