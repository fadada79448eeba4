// Overlapping calls on the cancellation tree (golang.org/x/net/context/context.go). A
// context's lock is held while its children are cancelled, so a cancel call holds the
// locks along a path down the tree, and others run in between.
module ContextRuns {
  import opened Options
  import C = Contexts

  // Whether a context's lock is held, and the children that its holder has not
  // cancelled yet.
  datatype Lock = Free | Held(call: nat, todo: set<nat>)

  // A context that can be cancelled, with the nearest such context above it; a timerCtx
  // or a plain cancelCtx.
  datatype Node = Node(up: Option<nat>, timer: bool, err: Option<C.Error>, children: set<nat>, closed: nat, lock: Lock)

  // A cancel call of a user or a timer: before it has the lock, while it holds the
  // locks of a path, before it leaves its parent's children, and afterwards.
  datatype Call =
    | Waiting(root: nat, err: C.Error)
    | Running(path: seq<nat>, err: C.Error)
    | Removing(root: nat)
    | Returned(root: nat)

  datatype State = State(nodes: seq<Node>, calls: seq<Call>)

  const START := State([], [])

  datatype Step =
    | NewContext(up: Option<nat>, timer: bool)
    | CallCancel(c: nat, err: C.Error)
    | LockRoot(t: nat)
    | NextChild(t: nat, k: nat)
    | Unlock(t: nat)
    | RemoveChild(t: nat)

  predicate IsFree(s: State, n: nat) {
    n < |s.nodes| && s.nodes[n].lock.Free?
  }

  // A running call whose last lock is on a context.
  predicate Holds(s: State, t: nat) {
    && t < |s.calls| && s.calls[t].Running? && s.calls[t].path != []
    && Last(s.calls[t].path) < |s.nodes| && s.nodes[Last(s.calls[t].path)].lock.Held?
  }

  function Last(path: seq<nat>): nat
    requires path != []
  {
    path[|path| - 1]
  }

  // A step can be taken if the lock it takes is free.
  predicate Enabled(s: State, step: Step) {
    match step
    case NewContext(up, _) => up.Some? ==> IsFree(s, up.value)
    case CallCancel(c, _) => c < |s.nodes|
    case LockRoot(t) => t < |s.calls| && s.calls[t].Waiting? && IsFree(s, s.calls[t].root)
    case NextChild(t, k) => Holds(s, t) && k in s.nodes[Last(s.calls[t].path)].lock.todo && IsFree(s, k)
    case Unlock(t) => Holds(s, t) && s.nodes[Last(s.calls[t].path)].lock.todo == {}
    case RemoveChild(t) =>
      && t < |s.calls| && s.calls[t].Removing? && s.calls[t].root < |s.nodes|
      && (s.nodes[s.calls[t].root].up.Some? ==> IsFree(s, s.nodes[s.calls[t].root].up.value))
  }

  // cancel's first half, once it has the lock of an uncancelled context.
  function Cancelled(n: Node, t: nat, err: C.Error): Node {
    Node(n.up, n.timer, Some(err), n.children, n.closed + 1, Held(t, n.children))
  }

  function Next(s: State, step: Step): State
    requires Enabled(s, step)
  {
    match step
    case NewContext(None, timer) => s.(nodes := s.nodes + [Node(None, timer, None, {}, 0, Free)])
    case NewContext(Some(p), timer) =>
      if s.nodes[p].err.Some? then s.(nodes := s.nodes + [Node(Some(p), timer, s.nodes[p].err, {}, 1, Free)])
      else
        var parent := s.nodes[p].(children := s.nodes[p].children + {|s.nodes|});
        s.(nodes := s.nodes[p := parent] + [Node(Some(p), timer, None, {}, 0, Free)])
    case CallCancel(c, err) => s.(calls := s.calls + [Waiting(c, err)])
    case LockRoot(t) =>
      var c := s.calls[t].root;
      // Of a context already cancelled only a timerCtx goes on.
      if s.nodes[c].err.Some? then s.(calls := s.calls[t := if s.nodes[c].timer then Removing(c) else Returned(c)])
      else State(s.nodes[c := Cancelled(s.nodes[c], t, s.calls[t].err)], s.calls[t := Running([c], s.calls[t].err)])
    case NextChild(t, k) =>
      var n, call := Last(s.calls[t].path), s.calls[t];
      var nodes := s.nodes[n := s.nodes[n].(lock := Held(t, s.nodes[n].lock.todo - {k}))];
      if s.nodes[k].err.Some? then s.(nodes := nodes)
      else State(nodes[k := Cancelled(s.nodes[k], t, call.err)], s.calls[t := Running(call.path + [k], call.err)])
    case Unlock(t) =>
      var path, call := s.calls[t].path, s.calls[t];
      var n := Last(path);
      State(s.nodes[n := s.nodes[n].(children := {}, lock := Free)],
            s.calls[t := if |path| == 1 then Removing(n) else Running(path[..|path| - 1], call.err)])
    case RemoveChild(t) =>
      var c := s.calls[t].root;
      var nodes := match s.nodes[c].up
        case None => s.nodes
        case Some(p) => s.nodes[p := s.nodes[p].(children := s.nodes[p].children - {c})];
      State(nodes, s.calls[t := Returned(c)])
  }

  // A step that cannot be taken is not: it waits.
  function After(s: State, steps: seq<Step>): State {
    if steps == [] then s
    else
      var before := After(s, steps[..|steps| - 1]);
      if Enabled(before, steps[|steps| - 1]) then Next(before, steps[|steps| - 1]) else before
  }

  // ---- The invariant ----

  // Cancelled, and its cancel call is through with it.
  predicate Done(s: State, n: nat) {
    n < |s.nodes| && s.nodes[n].err.Some? && s.nodes[n].lock.Free?
  }

  ghost predicate NodeSound(s: State, n: nat)
    requires n < |s.nodes|
  {
    var x := s.nodes[n];
    && (x.up.Some? ==> x.up.value < n)
    && (forall k | k in x.children :: k < |s.nodes| && s.nodes[k].up == Some(n))
    && x.closed == (if x.err.Some? then 1 else 0)
    && (x.err.Some? && x.lock.Free? ==> x.children == {})
    && (x.lock.Held? ==>
          && x.err.Some? && x.lock.todo <= x.children
          && x.lock.call < |s.calls| && s.calls[x.lock.call].Running? && n in s.calls[x.lock.call].path)
  }

  // A context is listed by an uncancelled parent; a parent being cancelled has it still
  // to do or is doing it; and a cancelled one has done it.
  ghost predicate ChildSound(s: State, k: nat)
    requires k < |s.nodes|
  {
    s.nodes[k].up.Some? && s.nodes[k].up.value < k ==>
      var p := s.nodes[s.nodes[k].up.value];
      || Done(s, k)
      || (p.err.None? && k in p.children)
      || (p.lock.Held? && (k in p.lock.todo || (s.nodes[k].lock.Held? && s.nodes[k].lock.call == p.lock.call)))
  }

  // A call holds exactly the locks of its path, which goes down the tree.
  ghost predicate IsPath(s: State, t: nat, path: seq<nat>) {
    && path != []
    && (forall i {:trigger path[i]} | 0 <= i < |path| ::
          path[i] < |s.nodes| && s.nodes[path[i]].lock.Held? && s.nodes[path[i]].lock.call == t)
    && (forall i {:trigger path[i]} | 0 < i < |path| ::
          s.nodes[path[i]].up == Some(path[i - 1]) && path[i - 1] < path[i])
  }

  ghost predicate CallSound(s: State, t: nat)
    requires t < |s.calls|
  {
    match s.calls[t]
    case Waiting(root, _) => root < |s.nodes|
    case Running(path, _) => IsPath(s, t, path)
    case Removing(root) => Done(s, root)
    case Returned(root) => Done(s, root)
  }

  ghost predicate Sound(s: State) {
    && (forall n: nat {:trigger NodeSound(s, n)} | n < |s.nodes| :: NodeSound(s, n))
    && (forall n: nat {:trigger ChildSound(s, n)} | n < |s.nodes| :: ChildSound(s, n))
    && (forall t: nat {:trigger CallSound(s, t)} | t < |s.calls| :: CallSound(s, t))
  }

  lemma {:induction false} PathGoesDown(s: State, t: nat, path: seq<nat>, i: nat, j: nat)
    requires IsPath(s, t, path) && i <= j < |path|
    ensures path[i] <= path[j] && (i < j ==> path[i] < path[j])
  {
    if i < j {
      PathGoesDown(s, t, path, i, j - 1);
    }
  }

  lemma NotDeeper(s: State, t: nat, path: seq<nat>, n: nat)
    requires IsPath(s, t, path) && n in path
    ensures n <= Last(path) && (n in path[..|path| - 1] <==> n < Last(path))
  {
    hide IsPath;
    var front := path[..|path| - 1];
    assert path == front + [Last(path)];
    assert n in front || n == Last(path);
    if n in front {
      FrontIsAbove(s, t, path, n);
    }
  }

  lemma FrontIsAbove(s: State, t: nat, path: seq<nat>, n: nat)
    requires IsPath(s, t, path) && n in path[..|path| - 1]
    ensures n < Last(path)
  {
    hide IsPath;
    var i :| 0 <= i < |path| - 1 && path[..|path| - 1][i] == n;
    PathGoesDown(s, t, path, i, |path| - 1);
  }

  // ---- Every step keeps it ----

  lemma NewContextKeeps(s: State, up: Option<nat>, timer: bool)
    requires Sound(s) && Enabled(s, NewContext(up, timer))
    ensures Sound(Next(s, NewContext(up, timer)))
  {
    var s' := Next(s, NewContext(up, timer));
    forall n: nat | n < |s'.nodes| ensures NodeSound(s', n) && ChildSound(s', n) {
      assert n < |s.nodes| ==> NodeSound(s, n) && ChildSound(s, n);
    }
    forall t: nat | t < |s'.calls| ensures CallSound(s', t) {
      assert CallSound(s, t);
    }
  }

  lemma CallCancelKeeps(s: State, c: nat, err: C.Error)
    requires Sound(s) && Enabled(s, CallCancel(c, err))
    ensures Sound(Next(s, CallCancel(c, err)))
  {
    var s' := Next(s, CallCancel(c, err));
    forall n: nat | n < |s'.nodes| ensures NodeSound(s', n) && ChildSound(s', n) {
      assert NodeSound(s, n) && ChildSound(s, n);
    }
    forall t: nat | t < |s'.calls| ensures CallSound(s', t) {
      assert t < |s.calls| ==> CallSound(s, t);
    }
  }

  lemma LockRootKeeps(s: State, t: nat)
    requires Sound(s) && Enabled(s, LockRoot(t))
    ensures Sound(Next(s, LockRoot(t)))
  {
    var s' := Next(s, LockRoot(t));
    forall n: nat | n < |s'.nodes| ensures NodeSound(s', n) && ChildSound(s', n) {
      assert NodeSound(s, n) && ChildSound(s, n);
    }
    forall u: nat | u < |s'.calls| ensures CallSound(s', u) {
      assert CallSound(s, u);
    }
  }

  lemma PathHolds(s: State, t: nat, n: nat)
    requires Sound(s) && t < |s.calls| && s.calls[t].Running? && n in s.calls[t].path
    ensures n < |s.nodes| && s.nodes[n].lock.Held? && s.nodes[n].lock.call == t
  {
    assert CallSound(s, t);
    var i :| 0 <= i < |s.calls[t].path| && s.calls[t].path[i] == n;
  }

  // A child that is cancelled already is passed over.
  lemma SkipChildKeepsNode(s: State, t: nat, k: nat, m: nat)
    requires Sound(s) && Enabled(s, NextChild(t, k)) && s.nodes[k].err.Some? && m < |s.nodes|
    ensures NodeSound(Next(s, NextChild(t, k)), m) && ChildSound(Next(s, NextChild(t, k)), m)
  {
    var s', n := Next(s, NextChild(t, k)), Last(s.calls[t].path);
    PathHolds(s, t, n);
    assert Done(s, k) && NodeSound(s, n) && NodeSound(s, m) && ChildSound(s, m);
    assert Done(s, m) ==> Done(s', m);
    hide Sound;
  }

  lemma SkipChildKeeps(s: State, t: nat, k: nat)
    requires Sound(s) && Enabled(s, NextChild(t, k)) && s.nodes[k].err.Some?
    ensures Sound(Next(s, NextChild(t, k)))
  {
    var s' := Next(s, NextChild(t, k));
    PathHolds(s, t, Last(s.calls[t].path));
    hide NodeSound, ChildSound;
    forall m: nat | m < |s'.nodes| ensures NodeSound(s', m) && ChildSound(s', m) {
      SkipChildKeepsNode(s, t, k, m);
    }
    forall u: nat | u < |s'.calls| ensures CallSound(s', u) {
      assert CallSound(s, u);
    }
  }

  lemma LockChildKeepsNodes(s: State, t: nat, k: nat, m: nat)
    requires Sound(s) && Enabled(s, NextChild(t, k)) && s.nodes[k].err.None? && m < |s.nodes|
    ensures NodeSound(Next(s, NextChild(t, k)), m)
  {
    var s', n := Next(s, NextChild(t, k)), Last(s.calls[t].path);
    assert NodeSound(s, m) && NodeSound(s, n) && NodeSound(s, k);
    assert s'.calls[t].path == s.calls[t].path + [k];
  }

  lemma LockChildKeepsChildren(s: State, t: nat, k: nat, m: nat)
    requires Sound(s) && Enabled(s, NextChild(t, k)) && s.nodes[k].err.None? && m < |s.nodes|
    ensures ChildSound(Next(s, NextChild(t, k)), m)
  {
    var s', n := Next(s, NextChild(t, k)), Last(s.calls[t].path);
    assert ChildSound(s, m) && NodeSound(s, n) && NodeSound(s, k) && CallSound(s, t);
    assert Done(s, m) ==> Done(s', m);
  }

  // A path stays one if its locks are still held.
  lemma PathKept(s: State, s': State, t: nat, path: seq<nat>)
    requires IsPath(s, t, path) && |s.nodes| <= |s'.nodes|
    requires forall n {:trigger s'.nodes[n]} | n in path ::
               s'.nodes[n].lock.Held? && s'.nodes[n].lock.call == t && s'.nodes[n].up == s.nodes[n].up
    ensures IsPath(s', t, path)
  {
    forall i | 0 <= i < |path| ensures path[i] in path {
    }
  }

  lemma LockChildKeepsCalls(s: State, t: nat, k: nat, u: nat)
    requires Sound(s) && Enabled(s, NextChild(t, k)) && s.nodes[k].err.None? && u < |s.calls|
    ensures CallSound(Next(s, NextChild(t, k)), u)
  {
    var s', n := Next(s, NextChild(t, k)), Last(s.calls[t].path);
    assert CallSound(s, u) && NodeSound(s, n) && NodeSound(s, k);
    PathHolds(s, t, n);
    hide IsPath, Sound, NodeSound;
    if s.calls[u].Running? {
      forall m | m in s.calls[u].path
        ensures s'.nodes[m].lock.Held? && s'.nodes[m].lock.call == u && s'.nodes[m].up == s.nodes[m].up
      {
        PathHolds(s, u, m);
      }
      PathKept(s, s', u, s.calls[u].path);
      if u == t {
        PathExtended(s', t, s.calls[t].path, k);
      }
    }
  }

  lemma PathExtended(s: State, t: nat, path: seq<nat>, k: nat)
    requires IsPath(s, t, path) && k < |s.nodes| && s.nodes[k].lock.Held? && s.nodes[k].lock.call == t
    requires s.nodes[k].up == Some(Last(path)) && Last(path) < k
    ensures IsPath(s, t, path + [k])
  {
    var longer := path + [k];
    forall i | 0 <= i < |longer| ensures longer[i] == if i < |path| then path[i] else k {
    }
  }

  lemma NextChildKeeps(s: State, t: nat, k: nat)
    requires Sound(s) && Enabled(s, NextChild(t, k))
    ensures Sound(Next(s, NextChild(t, k)))
  {
    if s.nodes[k].err.Some? {
      SkipChildKeeps(s, t, k);
    } else {
      var s' := Next(s, NextChild(t, k));
      hide NodeSound, ChildSound, CallSound;
      forall m: nat | m < |s'.nodes| ensures NodeSound(s', m) && ChildSound(s', m) {
        LockChildKeepsNodes(s, t, k, m);
        LockChildKeepsChildren(s, t, k, m);
      }
      forall u: nat | u < |s'.calls| ensures CallSound(s', u) {
        LockChildKeepsCalls(s, t, k, u);
      }
    }
  }

  lemma UnlockKeepsOwn(s: State, t: nat)
    requires Sound(s) && Enabled(s, Unlock(t))
    ensures CallSound(Next(s, Unlock(t)), t)
  {
    var s', path := Next(s, Unlock(t)), s.calls[t].path;
    assert CallSound(s, t);
    if |path| > 1 {
      var front := path[..|path| - 1];
      PathShortened(s, t, path);
      forall m | m in front
        ensures s'.nodes[m].lock.Held? && s'.nodes[m].lock.call == t && s'.nodes[m].up == s.nodes[m].up
      {
        FrontIsAbove(s, t, path, m);
        PathHolds(s, t, m);
      }
      PathKept(s, s', t, front);
    } else {
      assert NodeSound(s, Last(path));
    }
  }

  lemma UnlockKeepsOthers(s: State, t: nat, u: nat)
    requires Sound(s) && Enabled(s, Unlock(t)) && u < |s.calls| && u != t
    ensures CallSound(Next(s, Unlock(t)), u)
  {
    var s', path := Next(s, Unlock(t)), s.calls[t].path;
    assert CallSound(s, u);
    PathHolds(s, t, Last(path));
    if s.calls[u].Running? {
      hide IsPath, Sound;
      forall m | m in s.calls[u].path
        ensures s'.nodes[m].lock.Held? && s'.nodes[m].lock.call == u && s'.nodes[m].up == s.nodes[m].up
      {
        PathHolds(s, u, m);
      }
      PathKept(s, s', u, s.calls[u].path);
    }
  }

  lemma PathShortened(s: State, t: nat, path: seq<nat>)
    requires IsPath(s, t, path) && |path| > 1
    ensures IsPath(s, t, path[..|path| - 1])
  {
    var shorter := path[..|path| - 1];
    forall i {:trigger shorter[i]} | 0 <= i < |shorter|
      ensures shorter[i] == path[i] && (i > 0 ==> shorter[i - 1] == path[i - 1])
    {
    }
  }

  lemma UnlockKeepsNodes(s: State, t: nat, m: nat)
    requires Sound(s) && Enabled(s, Unlock(t)) && m < |s.nodes|
    ensures NodeSound(Next(s, Unlock(t)), m)
  {
    var path := s.calls[t].path;
    assert NodeSound(s, m) && CallSound(s, t);
    PathHolds(s, t, Last(path));
    if m in path {
      NotDeeper(s, t, path, m);
    }
  }

  // The children of the context unlocked are done: none is deeper in the path.
  lemma UnlockKeepsChildren(s: State, t: nat, m: nat)
    requires Sound(s) && Enabled(s, Unlock(t)) && m < |s.nodes|
    ensures ChildSound(Next(s, Unlock(t)), m)
  {
    var path := s.calls[t].path;
    assert NodeSound(s, m) && ChildSound(s, m) && CallSound(s, t) && NodeSound(s, Last(path));
    PathHolds(s, t, Last(path));
    if m in path {
      NotDeeper(s, t, path, m);
    }
    hide IsPath, Sound;
  }

  lemma UnlockKeeps(s: State, t: nat)
    requires Sound(s) && Enabled(s, Unlock(t))
    ensures Sound(Next(s, Unlock(t)))
  {
    hide NodeSound, ChildSound, CallSound;
    var s' := Next(s, Unlock(t));
    forall u: nat | u < |s'.calls| ensures CallSound(s', u) {
      if u == t {
        UnlockKeepsOwn(s, t);
      } else {
        UnlockKeepsOthers(s, t, u);
      }
    }
    forall m: nat | m < |s'.nodes| ensures NodeSound(s', m) && ChildSound(s', m) {
      UnlockKeepsNodes(s, t, m);
      UnlockKeepsChildren(s, t, m);
    }
  }

  lemma RemoveChildKeeps(s: State, t: nat)
    requires Sound(s) && Enabled(s, RemoveChild(t))
    ensures Sound(Next(s, RemoveChild(t)))
  {
    var s' := Next(s, RemoveChild(t));
    assert CallSound(s, t);
    forall n: nat | n < |s'.nodes| ensures NodeSound(s', n) && ChildSound(s', n) {
      assert NodeSound(s, n) && ChildSound(s, n);
    }
    forall u: nat | u < |s'.calls| ensures CallSound(s', u) {
      assert CallSound(s, u);
    }
  }

  lemma NextKeeps(s: State, step: Step)
    requires Sound(s) && Enabled(s, step)
    ensures Sound(Next(s, step))
  {
    hide Sound, Enabled, Next;
    match step {
      case NewContext(up, timer) => NewContextKeeps(s, up, timer);
      case CallCancel(c, err) => CallCancelKeeps(s, c, err);
      case LockRoot(t) => LockRootKeeps(s, t);
      case NextChild(t, k) => NextChildKeeps(s, t, k);
      case Unlock(t) => UnlockKeeps(s, t);
      case RemoveChild(t) => RemoveChildKeeps(s, t);
    }
  }

  // A call's last step takes its context off its parent's list.
  lemma RemovedIsUnlisted(s: State, t: nat, n: nat)
    requires Sound(s) && Enabled(s, RemoveChild(t)) && n < |s.nodes|
    ensures s.calls[t].root !in Next(s, RemoveChild(t)).nodes[n].children
    ensures Next(s, RemoveChild(t)).calls[t] == Returned(s.calls[t].root)
  {
    assert NodeSound(s, n);
  }

  lemma {:induction false} RunKeeps(s: State, steps: seq<Step>)
    requires Sound(s)
    ensures Sound(After(s, steps))
  {
    hide Sound, Enabled, Next;
    if steps != [] {
      var before := After(s, steps[..|steps| - 1]);
      RunKeeps(s, steps[..|steps| - 1]);
      if Enabled(before, steps[|steps| - 1]) {
        NextKeeps(before, steps[|steps| - 1]);
      }
    }
  }

  // ---- What holds over every run ----

  // x is c or below it.
  predicate Below(s: State, x: nat, c: nat)
    decreases x
  {
    x == c || (x < |s.nodes| && s.nodes[x].up.Some? && s.nodes[x].up.value < x && Below(s, s.nodes[x].up.value, c))
  }

  lemma {:induction false} DoneBelow(s: State, x: nat, c: nat)
    requires Sound(s) && Done(s, c) && x < |s.nodes| && Below(s, x, c)
    ensures Done(s, x)
    decreases x
  {
    if x != c {
      DoneBelow(s, s.nodes[x].up.value, c);
      assert ChildSound(s, x);
    }
  }

  // What is set stays: errors, parents, and calls that have let go of their locks.
  ghost predicate Kept(s: State, s': State) {
    && |s.nodes| <= |s'.nodes| && |s.calls| <= |s'.calls|
    && (forall n {:trigger s.nodes[n]} {:trigger s'.nodes[n]} | 0 <= n < |s.nodes| ::
          && s'.nodes[n].up == s.nodes[n].up
          && (s.nodes[n].err.Some? ==> s'.nodes[n].err == s.nodes[n].err))
    && (forall t {:trigger s.calls[t]} {:trigger s'.calls[t]} |
          0 <= t < |s.calls| && (s.calls[t].Removing? || s.calls[t].Returned?) ::
          (s'.calls[t].Removing? || s'.calls[t].Returned?) && s'.calls[t].root == s.calls[t].root)
  }

  lemma {:induction false} RunKeepsErrors(s: State, steps: seq<Step>)
    ensures Kept(s, After(s, steps))
  {
    if steps != [] {
      RunKeepsErrors(s, steps[..|steps| - 1]);
      var before := After(s, steps[..|steps| - 1]);
      if Enabled(before, steps[|steps| - 1]) {
        assert Kept(before, Next(before, steps[|steps| - 1]));
      }
    }
  }

  // Once a cancel call is through with its locks, everything below its context is
  // cancelled, by this call or another, and so is whatever is made there later.
  lemma CancelledOnReturn(s: State, steps: seq<Step>, t: nat, x: nat)
    requires Sound(s) && t < |s.calls| && (s.calls[t].Removing? || s.calls[t].Returned?)
    requires x < |After(s, steps).nodes| && Below(After(s, steps), x, s.calls[t].root)
    ensures Done(After(s, steps), x)
  {
    RunKeeps(s, steps);
    RunKeepsErrors(s, steps);
    assert CallSound(After(s, steps), t);
    DoneBelow(After(s, steps), x, s.calls[t].root);
  }

  // done is closed once, and by whoever sets the error.
  lemma {:induction false} ClosedOnce(steps: seq<Step>, n: nat)
    requires n < |After(START, steps).nodes|
    ensures After(START, steps).nodes[n].closed == if After(START, steps).nodes[n].err.Some? then 1 else 0
  {
    RunKeeps(START, steps);
    assert NodeSound(After(START, steps), n);
  }

  // ---- Which error a context has ----

  // An error is that of the call that takes the context's lock, or, of a new context,
  // that of its cancelled parent.
  lemma ErrorComesFrom(s: State, step: Step, n: nat)
    requires Enabled(s, step) && n < |Next(s, step).nodes| && Next(s, step).nodes[n].err.Some?
    requires n < |s.nodes| ==> s.nodes[n].err.None?
    ensures if n < |s.nodes| then
              && (step.LockRoot? || step.NextChild?)
              && s.calls[step.t].err == Next(s, step).nodes[n].err.value
              && n == (if step.LockRoot? then s.calls[step.t].root else step.k)
              && Next(s, step).nodes[n].lock.Held? && Next(s, step).nodes[n].lock.call == step.t
            else
              step.NewContext? && n == |s.nodes| && step.up.Some? && Next(s, step).nodes[n].err == s.nodes[step.up.value].err
  {
  }

  // A call with this error was made on the context or on one above it.
  ghost predicate Caused(s: State, steps: seq<Step>, n: nat, err: C.Error) {
    exists c {:trigger Below(s, n, c)} :: Below(s, n, c) && CallCancel(c, err) in steps
  }

  ghost predicate Explained(s: State, steps: seq<Step>) {
    && (forall n: nat {:trigger s.nodes[n]} | n < |s.nodes| && s.nodes[n].err.Some? :: Caused(s, steps, n, s.nodes[n].err.value))
    && (forall t: nat {:trigger s.calls[t]} | t < |s.calls| ::
          match s.calls[t]
          case Waiting(root, err) => CallCancel(root, err) in steps
          case Running(path, err) => path != [] && CallCancel(path[0], err) in steps
          case _ => true)
  }

  predicate SameParents(s: State, s': State) {
    |s.nodes| <= |s'.nodes| && forall n | 0 <= n < |s.nodes| :: s'.nodes[n].up == s.nodes[n].up
  }

  lemma {:induction false} BelowKept(s: State, s': State, n: nat, c: nat)
    requires SameParents(s, s') && Below(s, n, c)
    ensures Below(s', n, c)
    decreases n
  {
    if n != c {
      BelowKept(s, s', s.nodes[n].up.value, c);
    }
  }

  lemma CausedKept(s: State, s': State, steps: seq<Step>, step: Step, n: nat, err: C.Error)
    requires SameParents(s, s') && Caused(s, steps, n, err)
    ensures Caused(s', steps + [step], n, err)
  {
    var c :| Below(s, n, c) && CallCancel(c, err) in steps;
    BelowKept(s, s', n, c);
  }

  lemma {:induction false} PathIsBelow(s: State, t: nat, path: seq<nat>, i: nat)
    requires IsPath(s, t, path) && i < |path|
    ensures Below(s, path[i], path[0])
  {
    if i > 0 {
      PathIsBelow(s, t, path, i - 1);
    }
  }

  lemma NextExplainsNode(s: State, steps: seq<Step>, step: Step, n: nat)
    requires Sound(s) && Explained(s, steps) && Enabled(s, step) && SameParents(s, Next(s, step))
    requires n < |Next(s, step).nodes| && Next(s, step).nodes[n].err.Some?
    ensures Caused(Next(s, step), steps + [step], n, Next(s, step).nodes[n].err.value)
  {
    var s' := Next(s, step);
    var err := s'.nodes[n].err.value;
    if n < |s.nodes| && s.nodes[n].err.Some? {
      CausedKept(s, s', steps, step, n, err);
    } else {
      ErrorComesFrom(s, step, n);
      if step.LockRoot? {
        assert Below(s', n, n);
      } else if step.NextChild? {
        var path := s.calls[step.t].path;
        assert CallSound(s, step.t) && NodeSound(s, Last(path)) && NodeSound(s, n);
        PathIsBelow(s, step.t, path, |path| - 1);
        BelowKept(s, s', Last(path), path[0]);
        assert Below(s', n, path[0]);
      } else {
        CausedKept(s, s', steps, step, step.up.value, err);
        var c :| Below(s', step.up.value, c) && CallCancel(c, err) in steps + [step];
        assert Below(s', n, c);
      }
    }
  }

  lemma NextExplains(s: State, steps: seq<Step>, step: Step)
    requires Sound(s) && Explained(s, steps) && Enabled(s, step)
    ensures Explained(Next(s, step), steps + [step])
  {
    var s' := Next(s, step);
    assert SameParents(s, s');
    forall n: nat | n < |s'.nodes| && s'.nodes[n].err.Some? ensures Caused(s', steps + [step], n, s'.nodes[n].err.value) {
      NextExplainsNode(s, steps, step, n);
    }
  }

  // In every reachable state the error of a context is that of a call on it or above it.
  lemma {:induction false} EveryErrorIsCaused(steps: seq<Step>)
    ensures Explained(After(START, steps), steps)
  {
    assert Sound(START);
    hide Sound, Enabled, Next, Caused;
    if steps != [] {
      var front, step := steps[..|steps| - 1], steps[|steps| - 1];
      EveryErrorIsCaused(front);
      RunKeeps(START, front);
      assert steps == front + [step];
      var before := After(START, front);
      if Enabled(before, step) {
        NextExplains(before, front, step);
      } else {
        forall n: nat | n < |before.nodes| && before.nodes[n].err.Some? ensures Caused(before, steps, n, before.nodes[n].err.value) {
          CausedKept(before, before, front, step, n, before.nodes[n].err.value);
        }
      }
    }
  }

  // What steps of call t alone have done, made on c with this error.
  ghost predicate Alone(s: State, s': State, t: nat, c: nat, err: C.Error) {
    && |s'.nodes| == |s.nodes| && SameParents(s, s') && t < |s'.calls|
    && (forall n: nat {:trigger s'.nodes[n]} | n < |s.nodes| ::
          s'.nodes[n].err == s.nodes[n].err || (s.nodes[n].err.None? && s'.nodes[n].err == Some(err) && Below(s, n, c)))
    && match s'.calls[t]
       case Waiting(root, e) => root == c && e == err
       case Running(path, e) => path != [] && path[0] == c && e == err
       case Removing(root) => root == c
       case Returned(root) => root == c
  }

  predicate OfCall(step: Step, t: nat) {
    match step
    case NewContext(_, _) => false
    case CallCancel(_, _) => false
    case _ => step.t == t
  }

  lemma AloneSetsBelow(s: State, step: Step, t: nat, c: nat, err: C.Error, n: nat)
    requires Sound(s) && Alone(s, s, t, c, err) && OfCall(step, t) && Enabled(s, step) && n < |s.nodes|
    requires Next(s, step).nodes[n].err != s.nodes[n].err
    ensures s.nodes[n].err.None? && Next(s, step).nodes[n].err == Some(err) && Below(s, n, c)
  {
    if step.NextChild? {
      var path := s.calls[t].path;
      assert CallSound(s, t) && NodeSound(s, Last(path)) && NodeSound(s, n);
      PathIsBelow(s, t, path, |path| - 1);
    }
  }

  lemma AloneFromHere(s: State, s1: State, t: nat, c: nat, err: C.Error)
    requires Alone(s, s1, t, c, err)
    ensures Alone(s1, s1, t, c, err)
  {
  }

  lemma AloneStep(s: State, s1: State, step: Step, t: nat, c: nat, err: C.Error)
    requires Sound(s1) && Alone(s, s1, t, c, err) && OfCall(step, t) && Enabled(s1, step)
    ensures Alone(s, Next(s1, step), t, c, err)
  {
    hide Sound, Below;
    var s2 := Next(s1, step);
    AloneFromHere(s, s1, t, c, err);
    forall n: nat | n < |s.nodes| && s2.nodes[n].err != s1.nodes[n].err
      ensures s.nodes[n].err.None? && s2.nodes[n].err == Some(err) && Below(s, n, c)
    {
      AloneSetsBelow(s1, step, t, c, err, n);
      BelowKept(s1, s, n, c);
    }
  }

  lemma {:induction false} AloneRun(s: State, s1: State, steps: seq<Step>, t: nat, c: nat, err: C.Error)
    requires Sound(s1) && Alone(s, s1, t, c, err) && forall step | step in steps :: OfCall(step, t)
    ensures Alone(s, After(s1, steps), t, c, err)
  {
    hide Sound, Alone, Enabled, Next;
    if steps != [] {
      var front, step := steps[..|steps| - 1], steps[|steps| - 1];
      AloneRun(s, s1, front, t, c, err);
      RunKeeps(s1, front);
      assert step in steps;
      if Enabled(After(s1, front), step) {
        AloneStep(s, After(s1, front), step, t, c, err);
      }
    }
  }

  // A cancel call that runs alone gives its error to exactly the uncancelled contexts
  // at and below its own.
  lemma AloneCancelsExactly(s: State, c: nat, err: C.Error, steps: seq<Step>, n: nat)
    requires Sound(s) && c < |s.nodes| && n < |s.nodes| && forall step | step in steps :: OfCall(step, |s.calls|)
    requires var call := After(Next(s, CallCancel(c, err)), steps).calls;
             |s.calls| < |call| && (call[|s.calls|].Removing? || call[|s.calls|].Returned?)
    ensures var s' := After(Next(s, CallCancel(c, err)), steps);
            && n < |s'.nodes|
            && s'.nodes[n].err == if s.nodes[n].err.None? && Below(s, n, c) then Some(err) else s.nodes[n].err
  {
    var t, s1 := |s.calls|, Next(s, CallCancel(c, err));
    var s' := After(s1, steps);
    NextKeeps(s, CallCancel(c, err));
    AloneRun(s, s1, steps, t, c, err);
    if Below(s, n, c) {
      BelowKept(s, s', n, c);
      RunKeeps(s1, steps);
      assert CallSound(s', t);
      DoneBelow(s', n, c);
    }
  }

  // ---- No deadlock ----

  lemma {:induction false} DeepestHeld(s: State, n: nat) returns (m: nat)
    requires n < |s.nodes| && s.nodes[n].lock.Held?
    ensures m < |s.nodes| && s.nodes[m].lock.Held? && forall k | m < k < |s.nodes| :: s.nodes[k].lock.Free?
    decreases |s.nodes| - n
  {
    m := n;
    if k :| n < k < |s.nodes| && s.nodes[k].lock.Held? {
      m := DeepestHeld(s, k);
    }
  }

  // While a call has not returned, one of the calls can take its next step: that with
  // the deepest lock.
  lemma SomeCallGoesOn(s: State, t: nat) returns (step: Step)
    requires Sound(s) && t < |s.calls| && !s.calls[t].Returned?
    ensures Enabled(s, step) && !step.NewContext? && !step.CallCancel?
  {
    if n: nat :| n < |s.nodes| && s.nodes[n].lock.Held? {
      var m := DeepestHeld(s, n);
      step := DeepestGoesOn(s, m);
    } else {
      NoneHeldNoneRunning(s, t);
      step := if s.calls[t].Waiting? then LockRoot(t) else RemoveChild(t);
    }
  }

  lemma NoneHeldNoneRunning(s: State, t: nat)
    requires Sound(s) && t < |s.calls| && forall n | 0 <= n < |s.nodes| :: s.nodes[n].lock.Free?
    ensures !s.calls[t].Running?
    ensures s.calls[t].Waiting? ==> s.calls[t].root < |s.nodes|
    ensures s.calls[t].Removing? ==>
              var root := s.calls[t].root;
              root < |s.nodes| && (s.nodes[root].up.Some? ==> s.nodes[root].up.value < root)
  {
    if s.calls[t].Running? {
      RunningHolds(s, t);
    } else {
      assert CallSound(s, t);
      if s.calls[t].Removing? {
        assert NodeSound(s, s.calls[t].root);
      }
    }
  }

  lemma RunningHolds(s: State, t: nat)
    requires Sound(s) && t < |s.calls| && s.calls[t].Running?
    ensures Holds(s, t)
  {
    assert CallSound(s, t) && Last(s.calls[t].path) < |s.nodes|;
  }

  lemma DeepestGoesOn(s: State, m: nat) returns (step: Step)
    requires Sound(s) && m < |s.nodes| && s.nodes[m].lock.Held?
    requires forall k | m < k < |s.nodes| :: s.nodes[k].lock.Free?
    ensures Enabled(s, step) && !step.NewContext? && !step.CallCancel?
  {
    var u := s.nodes[m].lock.call;
    assert NodeSound(s, m) && CallSound(s, u);
    NotDeeper(s, u, s.calls[u].path, m);
    PathHolds(s, u, Last(s.calls[u].path));
    if k :| k in s.nodes[m].lock.todo {
      assert NodeSound(s, k);
      step := NextChild(u, k);
    } else {
      step := Unlock(u);
    }
  }

  // ---- Every call returns ----

  function Total<A>(xs: seq<A>, weight: A -> nat): nat {
    if xs == [] then 0 else Total(xs[..|xs| - 1], weight) + weight(xs[|xs| - 1])
  }

  lemma {:induction false} TotalAfterUpdate<A>(xs: seq<A>, i: nat, x: A, weight: A -> nat)
    requires i < |xs|
    ensures Total(xs[i := x], weight) == Total(xs, weight) - weight(xs[i]) + weight(x)
  {
    var n := |xs| - 1;
    if i < n {
      TotalAfterUpdate(xs[..n], i, x, weight);
      assert xs[i := x][..n] == xs[..n][i := x];
    } else {
      assert xs[i := x][..n] == xs[..n];
    }
  }

  // What is left to do: contexts not cancelled, children to look at, and the calls' own steps.
  function Uncancelled(n: Node): nat {
    if n.err.None? then 1 else 0
  }

  function ToDo(n: Node): nat {
    if n.lock.Free? then 0 else |n.lock.todo|
  }

  function StepsLeft(call: Call): nat {
    match call
    case Waiting(_, _) => 2
    case Running(path, _) => |path| + 1
    case Removing(_) => 1
    case Returned(_) => 0
  }

  ghost predicate Less(s: State, s': State) {
    var u, u' := Total(s.nodes, Uncancelled), Total(s'.nodes, Uncancelled);
    var d, d' := Total(s.nodes, ToDo), Total(s'.nodes, ToDo);
    u < u' || (u == u' && (d < d' || (d == d' && Total(s.calls, StepsLeft) < Total(s'.calls, StepsLeft))))
  }

  lemma StepIsProgress(s: State, step: Step)
    requires Sound(s) && Enabled(s, step) && !step.NewContext? && !step.CallCancel?
    ensures Less(Next(s, step), s)
  {
    hide Sound, Enabled, Next, Less;
    match step {
      case LockRoot(t) => LockRootIsProgress(s, t);
      case NextChild(t, k) => NextChildIsProgress(s, t, k);
      case Unlock(t) => UnlockIsProgress(s, t);
      case RemoveChild(t) => RemoveChildIsProgress(s, t);
    }
  }

  lemma LockRootIsProgress(s: State, t: nat)
    requires Enabled(s, LockRoot(t))
    ensures Less(Next(s, LockRoot(t)), s)
  {
    var c := s.calls[t].root;
    TotalAfterUpdate(s.nodes, c, Cancelled(s.nodes[c], t, s.calls[t].err), Uncancelled);
    TotalAfterUpdate(s.calls, t, Next(s, LockRoot(t)).calls[t], StepsLeft);
  }

  lemma UnlockIsProgress(s: State, t: nat)
    requires Enabled(s, Unlock(t))
    ensures Less(Next(s, Unlock(t)), s)
  {
    var path := s.calls[t].path;
    var n := Last(path);
    var x := s.nodes[n].(children := {}, lock := Free);
    TotalAfterUpdate(s.nodes, n, x, Uncancelled);
    TotalAfterUpdate(s.nodes, n, x, ToDo);
    var left := if |path| == 1 then Removing(n) else Running(path[..|path| - 1], s.calls[t].err);
    TotalAfterUpdate(s.calls, t, left, StepsLeft);
  }

  lemma RemoveChildIsProgress(s: State, t: nat)
    requires Enabled(s, RemoveChild(t))
    ensures Less(Next(s, RemoveChild(t)), s)
  {
    var c := s.calls[t].root;
    TotalAfterUpdate(s.calls, t, Returned(c), StepsLeft);
    if s.nodes[c].up.Some? {
      var p := s.nodes[c].up.value;
      var x := s.nodes[p].(children := s.nodes[p].children - {c});
      TotalAfterUpdate(s.nodes, p, x, Uncancelled);
      TotalAfterUpdate(s.nodes, p, x, ToDo);
    }
  }

  lemma NextChildIsProgress(s: State, t: nat, k: nat)
    requires Enabled(s, NextChild(t, k))
    ensures Less(Next(s, NextChild(t, k)), s)
  {
    var n := Last(s.calls[t].path);
    var x := s.nodes[n].(lock := Held(t, s.nodes[n].lock.todo - {k}));
    var nodes := s.nodes[n := x];
    TotalAfterUpdate(s.nodes, n, x, Uncancelled);
    TotalAfterUpdate(s.nodes, n, x, ToDo);
    TotalAfterUpdate(nodes, k, Cancelled(s.nodes[k], t, s.calls[t].err), Uncancelled);
    assert nodes[k] == s.nodes[k];
  }

  // From any state the calls can all be run to their end, by steps of their own.
  lemma {:induction false} AllCanReturn(s: State) returns (steps: seq<Step>)
    requires Sound(s)
    ensures forall t | 0 <= t < |After(s, steps).calls| :: After(s, steps).calls[t].Returned?
    ensures forall step | step in steps :: !step.NewContext? && !step.CallCancel?
    decreases Total(s.nodes, Uncancelled), Total(s.nodes, ToDo), Total(s.calls, StepsLeft)
  {
    if t: nat :| t < |s.calls| && !s.calls[t].Returned? {
      var step := SomeCallGoesOn(s, t);
      StepIsProgress(s, step);
      NextKeeps(s, step);
      var rest := AllCanReturn(Next(s, step));
      AfterFirst(s, step, rest);
      steps := [step] + rest;
    } else {
      steps := [];
    }
  }

  lemma {:induction false} AfterFirst(s: State, step: Step, rest: seq<Step>)
    requires Enabled(s, step)
    ensures After(s, [step] + rest) == After(Next(s, step), rest)
  {
    hide Enabled, Next;
    var steps := [step] + rest;
    if rest == [] {
      assert steps == [step] && steps[..0] == [];
      assert After(s, steps[..0]) == s;
    } else {
      AfterFirst(s, step, rest[..|rest| - 1]);
      assert steps[..|steps| - 1] == [step] + rest[..|rest| - 1];
    }
  }
}
