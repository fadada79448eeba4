// The cancellation tree of contexts (golang.org/x/net/context/context.go).
module Contexts {
  import opened Options

  datatype Error = Canceled | DeadlineExceeded

  // Empty is Background or TODO; time is a number.
  datatype Kind = Empty | Value(key: string, val: string) | Cancel | Timer(deadline: int)
  {
    predicate Cancellable() {
      Cancel? || Timer?
    }
  }

  class Context {
    const kind: Kind
    const parent: Context?
    // Length of the chain of parents.
    ghost const depth: nat
    var err: Option<Error>
    var children: set<Context>
    // How often done was closed.
    var closed: nat
    // Whether a timer is running.
    var timer: bool

    constructor (kind: Kind, parent: Context?)
      ensures this.kind == kind && this.parent == parent && depth == if parent == null then 0 else parent.depth + 1
      ensures err == None && children == {} && closed == 0 && !timer
    {
      this.kind, this.parent := kind, parent;
      this.depth := if parent == null then 0 else parent.depth + 1;
      err, children, closed, timer := None, {}, 0, false;
    }
  }

  // ---- The shape of the tree; it never changes ----

  ghost predicate HasParent(c: Context) {
    c.parent != null && c.parent.depth < c.depth
  }

  // c is x or above it.
  ghost predicate Under(x: Context, c: Context)
    decreases x.depth
  {
    x == c || (HasParent(x) && Under(x.parent, c))
  }

  // The first context from c up that can be cancelled.
  ghost function Nearest(c: Context?): (p: Context?)
    ensures p != null ==> p.kind.Cancellable()
    decreases if c == null then 0 else c.depth + 1
  {
    if c == null then null
    else if c.kind.Cancellable() then c
    else if HasParent(c) then Nearest(c.parent)
    else null
  }

  ghost function NearestAbove(x: Context): Context? {
    if HasParent(x) then Nearest(x.parent) else null
  }

  ghost predicate Shaped(tree: set<Context>) {
    forall c | c in tree :: (c.kind.Empty? <==> c.parent == null) && (c.parent != null ==> c.parent in tree && HasParent(c))
  }

  lemma {:induction false} UnderIsTransitive(x: Context, y: Context, z: Context)
    requires Under(x, y) && Under(y, z)
    ensures Under(x, z)
    decreases x.depth
  {
    if x != y {
      UnderIsTransitive(x.parent, y, z);
    }
  }

  lemma {:induction false} UnderIsDeeper(x: Context, c: Context)
    requires Under(x, c)
    ensures x == c || x.depth > c.depth
    decreases x.depth
  {
    if x != c {
      UnderIsDeeper(x.parent, c);
    }
  }

  // Of two contexts above x, one is above the other.
  lemma {:induction false} UnderIsLinear(x: Context, a: Context, b: Context)
    requires Under(x, a) && Under(x, b)
    ensures Under(a, b) || Under(b, a)
    decreases x.depth
  {
    if x != a && x != b {
      UnderIsLinear(x.parent, a, b);
    }
  }

  lemma {:induction false} NearestIsAbove(c: Context?)
    ensures Nearest(c) != null ==> c != null && Under(c, Nearest(c))
    decreases if c == null then 0 else c.depth + 1
  {
    if c != null && !c.kind.Cancellable() && HasParent(c) {
      NearestIsAbove(c.parent);
    }
  }

  lemma NearestAboveIsAbove(x: Context)
    ensures NearestAbove(x) != null ==> Under(x, NearestAbove(x)) && NearestAbove(x) != x && NearestAbove(x).depth < x.depth
  {
    if HasParent(x) {
      NearestIsAbove(x.parent);
      if NearestAbove(x) != null {
        UnderIsDeeper(x.parent, NearestAbove(x));
      }
    }
  }

  // Nothing that can be cancelled lies between x and the nearest above it.
  lemma {:induction false} NearestIsNearest(c: Context?, k: Context)
    requires c != null && Under(c, k) && k.kind.Cancellable()
    ensures Nearest(c) != null && Under(Nearest(c), k)
    decreases if c == null then 0 else c.depth + 1
  {
    if !c.kind.Cancellable() {
      NearestIsNearest(c.parent, k);
    }
  }

  lemma NearestAboveIsNearest(x: Context, k: Context)
    requires Under(x, k) && x != k && k.kind.Cancellable()
    ensures NearestAbove(x) != null && Under(NearestAbove(x), k)
  {
    NearestIsNearest(x.parent, k);
  }

  // ---- Live contexts ----

  ghost predicate Live(c: Context)
    reads c
  {
    c.kind.Cancellable() && c.err.None?
  }

  ghost function LiveOf(tree: set<Context>): set<Context>
    reads tree
  {
    set c | c in tree && Live(c)
  }

  // The live contexts whose nearest cancellable context above is c.
  ghost function Kids(live: set<Context>, c: Context): set<Context> {
    set x | x in live && NearestAbove(x) == c
  }

  ghost function UnderIn(live: set<Context>, c: Context): set<Context> {
    set x | x in live && Under(x, c)
  }

  // Two of c's kids have nothing in common.
  lemma KidsAreApart(live: set<Context>, c: Context, k: Context, k': Context, x: Context)
    requires k in Kids(live, c) && k' in Kids(live, c) && Under(x, k) && Under(x, k') && k.kind.Cancellable() && k'.kind.Cancellable()
    ensures k == k'
  {
    if k != k' {
      UnderIsLinear(x, k, k');
      var a, b := if Under(k, k') then k else k', if Under(k, k') then k' else k;
      NearestAboveIsNearest(a, b);
      NearestAboveIsAbove(b);
      UnderIsDeeper(c, b);
    }
  }

  // Live contexts under c, that list their live children and hang together.
  ghost predicate Hangs(sub: set<Context>, c: Context)
    reads sub
  {
    && c in sub
    && forall x {:trigger x in sub} | x in sub ::
         && Live(x) && Under(x, c) && x.children == Kids(sub, x) && (x.timer ==> x.kind.Timer?)
         && (x != c ==> NearestAbove(x) in sub)
  }

  // All of them but c are under one of c's kids.
  lemma {:induction false} KidAbove(sub: set<Context>, c: Context, x: Context) returns (k: Context)
    requires Hangs(sub, c) && x in sub && x != c
    ensures k in Kids(sub, c) && Under(x, k)
    decreases x.depth
  {
    NearestAboveIsNearest(x, c);
    NearestAboveIsAbove(x);
    var p := NearestAbove(x);
    if p == c {
      k := x;
    } else {
      k := KidAbove(sub, c, p);
      UnderIsTransitive(x, p, k);
    }
  }

  lemma KidHangs(sub: set<Context>, c: Context, k: Context)
    requires Hangs(sub, c) && k in Kids(sub, c)
    ensures Hangs(UnderIn(sub, k), k) && c !in UnderIn(sub, k)
  {
    var sub_ := UnderIn(sub, k);
    NearestAboveIsAbove(k);
    if Under(c, k) {
      UnderIsDeeper(c, k);
    }
    forall x | x in sub_ ensures Kids(sub_, x) == Kids(sub, x) && (x != k ==> NearestAbove(x) in sub_) {
      forall y | y in Kids(sub, x) ensures y in sub_ {
        NearestAboveIsAbove(y);
        UnderIsTransitive(y, x, k);
      }
      if x != k {
        NearestAboveIsNearest(x, k);
      }
    }
  }

  // What is still to be cancelled, under the kids not yet seen.
  ghost function UnderAny(sub: set<Context>, kids: set<Context>): set<Context> {
    set x, k | k in kids && x in sub && Under(x, k) :: x
  }

  lemma UnderAllKids(sub: set<Context>, c: Context)
    requires Hangs(sub, c)
    ensures UnderAny(sub, Kids(sub, c)) == sub - {c}
  {
    forall x | x in sub && x != c ensures x in UnderAny(sub, Kids(sub, c)) {
      var k := KidAbove(sub, c, x);
    }
    forall k | k in Kids(sub, c) ensures !Under(c, k) {
      KidHangs(sub, c, k);
    }
  }

  lemma UnderRestOfKids(sub: set<Context>, c: Context, kids: set<Context>, k: Context)
    requires c in sub && (forall x | x in sub :: x.kind.Cancellable()) && kids <= Kids(sub, c) && k in kids
    ensures UnderAny(sub, kids - {k}) == UnderAny(sub, kids) - UnderIn(sub, k)
    ensures UnderIn(sub, k) <= UnderAny(sub, kids) && UnderIn(sub, k) < sub && c !in UnderIn(sub, k)
  {
    NearestAboveIsAbove(k);
    if Under(c, k) {
      UnderIsDeeper(c, k);
    }
    assert c !in UnderIn(sub, k);
    forall x, k' | x in sub && k' in kids && k' != k && Under(x, k') ensures !Under(x, k) {
      if Under(x, k) {
        KidsAreApart(sub, c, k, k', x);
      }
    }
  }

  // ---- Cancelling ----

  // What cancelling leaves of a live context.
  ghost predicate Stopped(x: Context, e: Error, closedBefore: nat)
    reads x
  {
    x.err == Some(e) && x.closed == closedBefore + 1 && x.children == {} && !x.timer
  }

  // cancelCtx.cancel for a live c, without the removal from its parent.
  method CancelLive(c: Context, e: Error, ghost sub: set<Context>)
    requires Hangs(sub, c)
    modifies sub
    ensures c.err == Some(e) && c.closed == old(c.closed) + 1 && c.children == {} && c.timer == old(c.timer)
    ensures forall x | x in sub && x != c :: Stopped(x, e, old(x.closed))
    decreases sub, 0
  {
    UnderAllKids(sub, c);
    forall k | k in Kids(sub, c) ensures Hangs(UnderIn(sub, k), k) {
      KidHangs(sub, c, k);
    }
    assert forall x | x in sub :: x.kind.Cancellable();
    assert c.children == Kids(sub, c) && c in sub;
    hide Hangs, Kids, UnderIn, UnderAny;
    c.err := Some(e);
    c.closed := c.closed + 1;
    var todo := c.children;
    while todo != {}
      invariant todo <= Kids(sub, c) == c.children
      invariant c.err == Some(e) && c.closed == old(c.closed) + 1 && c.timer == old(c.timer)
      invariant forall x {:trigger x in UnderAny(sub, todo)} | x in UnderAny(sub, todo) :: unchanged(x)
      invariant forall x {:trigger x in UnderAny(sub, todo)} | x in sub && x != c && x !in UnderAny(sub, todo) :: Stopped(x, e, old(x.closed))
    {
      var child :| child in todo;
      UnderRestOfKids(sub, c, todo, child);
      assert old(Hangs(UnderIn(sub, child), child));
      CancelAny(child, e, UnderIn(sub, child));
      todo := todo - {child};
    }
    c.children := {};
    forall x | x in sub && x != c ensures Stopped(x, e, old(x.closed)) {
      assert x !in UnderAny(sub, todo);
    }
  }

  // What Cancel does, in a context of either kind, without that removal.
  method CancelAny(c: Context, e: Error, ghost sub: set<Context>)
    requires Hangs(sub, c)
    modifies sub
    ensures forall x | x in sub :: Stopped(x, e, old(x.closed))
    decreases sub, 1
  {
    CancelLive(c, e, sub);
    if c.kind.Timer? {
      c.timer := false;
    }
  }

  // ---- The invariant ----

  ghost predicate NodeConsistent(live: set<Context>, x: Context)
    reads x
  {
    if !x.kind.Cancellable() then x.err.None? && x.children == {} && x.closed == 0 && !x.timer
    else if x.err.None? then
      && x.closed == 0 && x.children == Kids(live, x) && (x.timer ==> x.kind.Timer?)
      && (NearestAbove(x) != null ==> NearestAbove(x) in live)
    else x.closed == 1 && x.children == {} && !x.timer
  }

  // An uncancelled context is listed by the nearest one above it, which is uncancelled
  // too; a cancelled one has closed done once and has no children and no timer.
  ghost predicate Consistent(tree: set<Context>)
    reads tree
  {
    && Shaped(tree)
    && forall x {:trigger NodeConsistent(LiveOf(tree), x)} | x in tree :: NodeConsistent(LiveOf(tree), x)
  }

  // Between calls, every uncancelled context with a deadline has its timer.
  ghost predicate Timed(tree: set<Context>)
    reads tree
  {
    forall x | x in tree && Live(x) && x.kind.Timer? :: x.timer
  }

  ghost function Deadline(c: Context?): Option<int>
    decreases if c == null then 0 else c.depth + 1
  {
    if c == null then None
    else if c.kind.Timer? then Some(c.kind.deadline)
    else if HasParent(c) then Deadline(c.parent)
    else None
  }

  predicate NoLater(a: Option<int>, b: Option<int>) {
    b.Some? ==> a.Some? && a.value <= b.value
  }

  // A context's deadline is not later than its parent's.
  ghost predicate DeadlinesOrdered(tree: set<Context>) {
    forall x | x in tree && x.kind.Timer? :: NoLater(Deadline(x), Deadline(x.parent))
  }

  ghost predicate Valid(tree: set<Context>)
    reads tree
  {
    Consistent(tree) && Timed(tree) && DeadlinesOrdered(tree)
  }

  // Then it is not later than that of any context above.
  lemma {:induction false} DeadlineNeverLater(tree: set<Context>, x: Context, c: Context)
    requires Shaped(tree) && DeadlinesOrdered(tree) && x in tree && Under(x, c)
    ensures NoLater(Deadline(x), Deadline(c))
    decreases x.depth
  {
    if x != c {
      DeadlineNeverLater(tree, x.parent, c);
    }
  }

  // Below a cancelled context everything is cancelled.
  lemma {:induction false} CancelledBelow(tree: set<Context>, x: Context, c: Context)
    requires Consistent(tree) && x in tree && c in tree && Under(x, c)
    requires c.kind.Cancellable() && c.err.Some? && x.kind.Cancellable()
    ensures x.err.Some?
    decreases x.depth
  {
    if x != c {
      NearestAboveIsNearest(x, c);
      NearestAboveIsAbove(x);
      AboveIsInTree(tree, x, NearestAbove(x));
      assert NodeConsistent(LiveOf(tree), x);
      CancelledBelow(tree, NearestAbove(x), c);
    }
  }

  lemma {:induction false} AboveIsInTree(tree: set<Context>, x: Context, c: Context)
    requires Shaped(tree) && x in tree && Under(x, c)
    ensures c in tree
    decreases x.depth
  {
    if x != c {
      AboveIsInTree(tree, x.parent, c);
    }
  }

  lemma LiveHangs(tree: set<Context>, c: Context)
    requires Consistent(tree) && c in tree && Live(c)
    ensures Hangs(UnderIn(LiveOf(tree), c), c)
  {
    var live, sub := LiveOf(tree), UnderIn(LiveOf(tree), c);
    forall x | x in sub ensures x.children == Kids(sub, x) && (x.timer ==> x.kind.Timer?) && (x != c ==> NearestAbove(x) in sub) {
      assert NodeConsistent(live, x);
      forall y | y in Kids(live, x) ensures y in sub {
        NearestAboveIsAbove(y);
        UnderIsTransitive(y, x, c);
      }
      if x != c {
        NearestAboveIsNearest(x, c);
      }
    }
  }

  // What is left of the links once the live contexts under c are cancelled.
  lemma KidsLeft(live: set<Context>, c: Context, x: Context)
    requires c.kind.Cancellable() && c in live && x in live && !Under(x, c)
    ensures Kids(live - UnderIn(live, c), x) == Kids(live, x) - {c}
    ensures NearestAbove(x) != null ==> !Under(NearestAbove(x), c)
  {
    forall y | y in live && Under(y, c) && y != c ensures NearestAbove(y) != x {
      NearestAboveIsNearest(y, c);
    }
    NearestAboveIsAbove(x);
    if NearestAbove(x) != null && Under(NearestAbove(x), c) {
      UnderIsTransitive(x, NearestAbove(x), c);
    }
    forall y | y in Kids(live, x) && y != c ensures !Under(y, c) {
      if Under(y, c) {
        NearestAboveIsNearest(y, c);
      }
    }
  }

  // ---- The package's functions ----

  // parentCancelCtx
  method ParentCancelCtx(parent: Context?, ghost tree: set<Context>) returns (p: Context?)
    requires Shaped(tree) && (parent != null ==> parent in tree)
    ensures p == Nearest(parent)
    ensures p != null ==> p in tree
  {
    p := parent;
    while p != null && !p.kind.Cancellable()
      invariant (p != null ==> p in tree) && Nearest(p) == Nearest(parent)
      decreases if p == null then 0 else p.depth + 1
    {
      p := p.parent;
    }
  }

  // The context that would list c.
  ghost function Listing(c: Context): set<Context> {
    if NearestAbove(c) == null then {} else {NearestAbove(c)}
  }

  method RemoveChild(c: Context, ghost tree: set<Context>)
    requires Shaped(tree) && c in tree
    modifies Listing(c)`children
    ensures NearestAbove(c) != null ==> NearestAbove(c).children == old(NearestAbove(c).children) - {c}
  {
    var p := ParentCancelCtx(c.parent, tree);
    if p != null {
      p.children := p.children - {c};
    }
  }

  lemma NowCancelled(tree: set<Context>, live: set<Context>, c: Context)
    requires Shaped(tree) && live <= tree && c in live && forall x | x in live :: x.kind.Cancellable()
    requires forall x | x in tree && x !in live :: !Live(x) && NodeConsistent({}, x)
    requires forall x | x in UnderIn(live, c) :: x.err.Some? && x.closed == 1 && x.children == {} && !x.timer
    requires forall x | x in live && !Under(x, c) ::
               && x.err.None? && x.closed == 0 && x.children == Kids(live, x) - {c} && (x.timer ==> x.kind.Timer?)
               && (NearestAbove(x) != null ==> NearestAbove(x) in live)
    ensures Consistent(tree)
  {
    var left := live - UnderIn(live, c);
    assert LiveOf(tree) == left;
    forall x | x in tree ensures NodeConsistent(left, x) {
      if x in left {
        KidsLeft(live, c, x);
      } else {
        assert x in live ==> x in UnderIn(live, c);
      }
    }
  }

  // A cancel call, of a CancelFunc or of a timer. Everything uncancelled at or below
  // c gets the error; nothing else changes its error.
  method CancelContext(c: Context, e: Error, ghost tree: set<Context>)
    requires Consistent(tree) && c in tree && c.kind.Cancellable()
    modifies tree
    ensures Consistent(tree) && c.err.Some?
    ensures forall x | x in tree :: x.err == if old(Live(x)) && Under(x, c) then Some(e) else old(x.err)
    ensures forall x | x in tree && Live(x) :: x.timer == old(x.timer)
  {
    ParentOutside(tree, c);
    if c.err.Some? {
      NothingLiveBelow(tree, c);
      if c.kind.Timer? {
        RemoveDead(c, tree);
      }
      return;
    }
    ghost var live, sub := LiveOf(tree), UnderIn(LiveOf(tree), c);
    LiveHangs(tree, c);
    CancelLive(c, e, sub);
    RemoveChild(c, tree);
    if c.kind.Timer? {
      c.timer := false;
    }
    forall x | x in tree
      ensures x !in live ==> !Live(x) && NodeConsistent({}, x)
      ensures x in UnderIn(live, c) ==> x.err == Some(e) && x.closed == 1 && x.children == {} && !x.timer
      ensures x in live && !Under(x, c) ==> x.err.None? && x.closed == 0 && x.children == Kids(live, x) - {c} && x.timer == old(x.timer)
      ensures x in live ==> (old(x.timer) ==> x.kind.Timer?) && (NearestAbove(x) != null ==> NearestAbove(x) in live)
    {
      assert old(NodeConsistent(live, x));
    }
    NowCancelled(tree, live, c);
  }

  lemma ParentOutside(tree: set<Context>, c: Context)
    requires Shaped(tree) && c in tree
    ensures NearestAbove(c) != null ==> NearestAbove(c) in tree && NearestAbove(c) != c && !Under(NearestAbove(c), c)
  {
    NearestAboveIsAbove(c);
    if NearestAbove(c) != null {
      AboveIsInTree(tree, c, NearestAbove(c));
      if Under(NearestAbove(c), c) {
        UnderIsDeeper(NearestAbove(c), c);
      }
    }
  }

  lemma NothingLiveBelow(tree: set<Context>, c: Context)
    requires Consistent(tree) && c in tree && c.kind.Cancellable() && c.err.Some?
    ensures forall x | x in tree && Under(x, c) :: !Live(x)
  {
    forall x | x in tree && Under(x, c) && x.kind.Cancellable() ensures x.err.Some? {
      CancelledBelow(tree, x, c);
    }
  }

  method RemoveDead(c: Context, ghost tree: set<Context>)
    requires Consistent(tree) && c in tree && c.err.Some? && c.kind.Timer?
    modifies tree
    ensures Consistent(tree) && forall x | x in tree :: unchanged(x)
  {
    ParentOutside(tree, c);
    assert NodeConsistent(LiveOf(tree), c);
    if NearestAbove(c) != null {
      assert NodeConsistent(LiveOf(tree), NearestAbove(c));
    }
    RemoveChild(c, tree);
    if NearestAbove(c) != null {
      assert NearestAbove(c).children == old(NearestAbove(c).children);
    }
    c.timer := false;
  }

  // ---- New contexts ----

  // A new context, not listed yet.
  ghost predicate Unlisted(tree: set<Context>, c: Context)
    reads c
  {
    && c !in tree && c.parent != null && c.parent in tree && HasParent(c) && c.kind != Empty
    && c.err.None? && c.children == {} && c.closed == 0 && !c.timer
  }

  // No context of the tree is under a new one.
  lemma NewIsNotAbove(tree: set<Context>, c: Context, x: Context)
    requires Shaped(tree) && c !in tree && x in tree
    ensures !Under(x, c) && NearestAbove(x) != c
  {
    if Under(x, c) {
      AboveIsInTree(tree, x, c);
    }
    NearestAboveIsAbove(x);
  }

  lemma KidsWithNew(tree: set<Context>, live: set<Context>, c: Context, x: Context)
    requires Shaped(tree) && live <= tree && c !in tree
    ensures Kids(live, c) == {}
    ensures Kids(live + {c}, x) == Kids(live, x) + if NearestAbove(c) == x then {c} else {}
  {
    forall y | y in live ensures NearestAbove(y) != c {
      NewIsNotAbove(tree, c, y);
    }
  }

  lemma AloneHangs(c: Context)
    requires Live(c) && c.children == {} && !c.timer
    ensures Hangs({c}, c)
  {
    NearestAboveIsAbove(c);
    assert Kids({c}, c) == {};
  }

  // propagateCancel, for a new context on one of the tree: a cancelled ancestor
  // cancels it at once, a live one lists it.
  method PropagateCancel(c: Context, ghost tree: set<Context>)
    requires Consistent(tree) && Unlisted(tree, c) && c.kind.Cancellable()
    modifies c, Listing(c)`children
    ensures Consistent(tree + {c})
    ensures c.err == if NearestAbove(c) == null then None else NearestAbove(c).err
    ensures !c.timer
  {
    ghost var live := LiveOf(tree);
    var p := ParentCancelCtx(c.parent, tree);
    if p != null {
      assert NodeConsistent(live, p);
      NearestAboveIsAbove(c);
      if p.err.Some? {
        AloneHangs(c);
        CancelAny(c, p.err.value, {c});
      } else {
        p.children := p.children + {c};
      }
    }
    forall x | x in tree
      ensures x !in live ==> !Live(x) && NodeConsistent({}, x)
      ensures x in live ==> x.err.None? && x.closed == 0 && (x.timer ==> x.kind.Timer?) && (NearestAbove(x) != null ==> NearestAbove(x) in live)
      ensures x in live ==> x.children == Kids(live, x) + if NearestAbove(c) == x then {c} else {}
    {
      assert old(NodeConsistent(live, x));
    }
    NowListed(tree, live, c);
  }

  lemma NowListed(tree: set<Context>, live: set<Context>, c: Context)
    requires Shaped(tree) && live <= tree && c !in tree && c.parent != null && c.parent in tree && HasParent(c) && c.kind.Cancellable()
    requires forall x | x in tree && x !in live :: !Live(x) && NodeConsistent({}, x)
    requires forall x | x in live ::
               && x.kind.Cancellable() && x.err.None? && x.closed == 0 && (x.timer ==> x.kind.Timer?)
               && x.children == Kids(live, x) + (if NearestAbove(c) == x then {c} else {})
               && (NearestAbove(x) != null ==> NearestAbove(x) in live)
    requires !c.timer && c.children == {}
    requires if NearestAbove(c) == null || NearestAbove(c) in live then c.err.None? && c.closed == 0 else c.err.Some? && c.closed == 1
    ensures Consistent(tree + {c})
  {
    assert LiveOf(tree + {c}) == live + if c.err.None? then {c} else {};
    forall x | x in tree + {c} ensures NodeConsistent(LiveOf(tree + {c}), x) {
      KidsWithNew(tree, live, c, x);
      if c.err.Some? {
        assert LiveOf(tree + {c}) == live;
        assert x in live ==> NearestAbove(c) != x;
      }
    }
  }

  // The parent's Deadline method, through the embedded contexts.
  method DeadlineOf(parent: Context, ghost tree: set<Context>) returns (d: Option<int>)
    requires Shaped(tree) && parent in tree
    ensures d == Deadline(parent)
  {
    var c: Context? := parent;
    while c != null && !c.kind.Timer?
      invariant (c != null ==> c in tree) && Deadline(c) == Deadline(parent)
      decreases if c == null then 0 else c.depth + 1
    {
      c := c.parent;
    }
    return if c == null then None else Some(c.kind.deadline);
  }

  method Background(ghost tree: set<Context>) returns (c: Context)
    requires Valid(tree)
    ensures fresh(c) && c.kind == Empty && Valid(tree + {c})
  {
    c := new Context(Empty, null);
    PlainAdded(tree, c);
  }

  method WithValue(parent: Context, key: string, val: string, ghost tree: set<Context>) returns (c: Context)
    requires Valid(tree) && parent in tree
    ensures fresh(c) && c.kind == Value(key, val) && c.parent == parent && Valid(tree + {c})
  {
    c := new Context(Value(key, val), parent);
    PlainAdded(tree, c);
  }

  lemma PlainAdded(tree: set<Context>, c: Context)
    requires Valid(tree) && c !in tree && !c.kind.Cancellable()
    requires (c.kind.Empty? <==> c.parent == null) && (c.parent != null ==> c.parent in tree && HasParent(c))
    requires c.err.None? && c.children == {} && c.closed == 0 && !c.timer
    ensures Valid(tree + {c})
  {
    assert LiveOf(tree + {c}) == LiveOf(tree);
    forall x | x in tree ensures NodeConsistent(LiveOf(tree + {c}), x) {
      assert NodeConsistent(LiveOf(tree), x);
    }
  }

  // A new context of parent that can be cancelled: it is cancelled from the start
  // exactly if an ancestor is.
  method WithCancel(parent: Context, ghost tree: set<Context>) returns (c: Context)
    requires Valid(tree) && parent in tree
    modifies tree
    ensures fresh(c) && c.kind == Cancel && c.parent == parent && Valid(tree + {c})
    ensures c.err == if Nearest(parent) == null then None else Nearest(parent).err
    ensures forall x | x in tree :: x.err == old(x.err) && x.timer == old(x.timer)
  {
    c := new Context(Cancel, parent);
    ListingInTree(tree, c);
    PropagateCancel(c, tree);
    StillTimed(tree, c);
  }

  lemma ListingInTree(tree: set<Context>, c: Context)
    requires Shaped(tree) && c !in tree && c.parent != null && c.parent in tree && HasParent(c)
    ensures Listing(c) <= tree + {c} && (c.kind.Cancellable() ==> Listing(c) <= tree)
    ensures Shaped(tree + {c}) || c.kind.Empty?
  {
    NearestIsAbove(c.parent);
    if NearestAbove(c) != null {
      AboveIsInTree(tree, c.parent, NearestAbove(c));
    }
  }

  lemma StillTimed(tree: set<Context>, c: Context)
    requires Timed(tree) && (Live(c) && c.kind.Timer? ==> c.timer)
    ensures Timed(tree + {c})
  {
  }

  // WithDeadline never moves a deadline back: the new one is the earlier of the
  // parent's and the one asked for.
  method WithDeadline(parent: Context, deadline: int, now: int, ghost tree: set<Context>) returns (c: Context)
    requires Valid(tree) && parent in tree
    modifies tree
    ensures fresh(c) && c.parent == parent && Valid(tree + {c})
    ensures var cur := Deadline(parent);
            && Deadline(c) == (if cur.Some? && cur.value < deadline then cur else Some(deadline))
            && c.kind == (if cur.Some? && cur.value < deadline then Cancel else Timer(deadline))
    ensures var p := Nearest(parent);
            c.err == if p != null && p.err.Some? then p.err
                     else if c.kind.Timer? && deadline <= now then Some(DeadlineExceeded)
                     else None
    ensures forall x | x in tree :: x.err == old(x.err)
  {
    var cur := DeadlineOf(parent, tree);
    if cur.Some? && cur.value < deadline {
      // The parent's deadline comes first.
      c := WithCancel(parent, tree);
      return;
    }
    c := new Context(Timer(deadline), parent);
    ListingInTree(tree, c);
    PropagateCancel(c, tree);
    if deadline <= now {
      NewIsAboveNone(tree, c);
      CancelContext(c, DeadlineExceeded, tree + {c});
    } else if c.err.None? {
      StartTimer(c, tree + {c});
    }
  }

  lemma NewIsAboveNone(tree: set<Context>, c: Context)
    requires Shaped(tree) && c !in tree
    ensures forall x | x in tree :: !Under(x, c)
  {
    forall x | x in tree ensures !Under(x, c) {
      NewIsNotAbove(tree, c, x);
    }
  }

  method StartTimer(c: Context, ghost tree: set<Context>)
    requires Consistent(tree) && c in tree && Live(c) && c.kind.Timer?
    modifies c`timer
    ensures Consistent(tree) && c.timer
  {
    ghost var live := LiveOf(tree);
    c.timer := true;
    assert LiveOf(tree) == live;
    forall x | x in tree ensures NodeConsistent(live, x) {
      assert old(NodeConsistent(live, x));
    }
  }

  // ---- Runs ----

  // A call of the package, on one of the contexts made so far.
  datatype Step =
    | NewCancel(i: nat)
    | NewDeadline(i: nat, deadline: int, now: int)
    | NewValue(i: nat, key: string, val: string)
    | CallCancel(i: nat)
    | TimerFires(i: nat)

  // What a step does with every context's error: a cancel call gives Canceled, and a
  // timer DeadlineExceeded, to the live contexts at and below its own.
  ghost predicate Cancels(step: Step, contexts: seq<Context>, e: Error, x: Context) {
    && step.i < |contexts| && Under(x, contexts[step.i])
    && ((step.CallCancel? && contexts[step.i].kind.Cancellable() && e == Canceled)
        || (step.TimerFires? && contexts[step.i].kind.Timer? && e == DeadlineExceeded))
  }

  // The contexts a step makes are added to the tree. Errors, once set, stay.
  method Do(step: Step, contexts: seq<Context>, ghost tree: set<Context>) returns (made: seq<Context>)
    requires Valid(tree) && forall c | c in contexts :: c in tree
    modifies tree
    ensures Valid(tree + set c | c in made) && forall c | c in made :: fresh(c)
    ensures |made| == if step.i < |contexts| && !step.CallCancel? && !step.TimerFires? then 1 else 0
    ensures made != [] ==>
              && made[0].parent == contexts[step.i]
              && (match step
                  case NewCancel(_) => made[0].kind == Cancel
                  case NewDeadline(_, deadline, _) =>
                    var cur := Deadline(contexts[step.i]);
                    made[0].kind == if cur.Some? && cur.value < deadline then Cancel else Timer(deadline)
                  case NewValue(_, key, val) => made[0].kind == Value(key, val)
                  case _ => false)
    ensures forall x | x in tree ::
              && (old(Live(x)) && Cancels(step, contexts, Canceled, x) ==> x.err == Some(Canceled))
              && (old(Live(x)) && Cancels(step, contexts, DeadlineExceeded, x) ==> x.err == Some(DeadlineExceeded))
              && (old(Live(x)) && !Cancels(step, contexts, Canceled, x) && !Cancels(step, contexts, DeadlineExceeded, x) ==> x.err == None)
              && (!old(Live(x)) ==> x.err == old(x.err))
  {
    made := [];
    assert tree + (set c | c in made) == tree;
    if step.i >= |contexts| {
      return;
    }
    var at := contexts[step.i];
    match step {
      case NewCancel(_) =>
        var c := WithCancel(at, tree);
        made := [c];
      case NewDeadline(_, deadline, now) =>
        var c := WithDeadline(at, deadline, now, tree);
        made := [c];
      case NewValue(_, key, val) =>
        var c := WithValue(at, key, val, tree);
        made := [c];
      case CallCancel(_) =>
        if at.kind.Cancellable() {
          CancelContext(at, Canceled, tree);
        }
      case TimerFires(_) =>
        if at.kind.Timer? {
          CancelContext(at, DeadlineExceeded, tree);
        }
    }
    if made != [] {
      assert tree + (set c | c in made) == tree + {made[0]};
    }
  }

  // Any sequence of calls keeps the tree valid, and no error ever changes.
  method Run(steps: seq<Step>, contexts: seq<Context>, ghost tree: set<Context>) returns (made: seq<Context>)
    requires Valid(tree) && forall c | c in contexts :: c in tree
    modifies tree
    ensures Valid(tree + set c | c in made) && forall c | c in made :: fresh(c)
    ensures forall x | x in tree && old(x.err).Some? :: x.err == old(x.err)
  {
    made := [];
    ghost var now := tree;
    for i := 0 to |steps|
      invariant Valid(now) && now == tree + (set c | c in made) && forall c | c in made :: fresh(c)
      invariant forall c | c in contexts + made :: c in now
      invariant forall x | x in tree && old(x.err).Some? :: x.err == old(x.err)
    {
      var more := Do(steps[i], contexts + made, now);
      now := now + set c | c in more;
      made := made + more;
    }
  }
}
