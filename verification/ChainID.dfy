// Chain IDs: the content address of a stack of layers (docker/layer/layer.go).
module ChainIDs {
  import opened Options

  type ChainID = string
  type DiffID = string

  // The digest function stands for digest.FromBytes; nothing is assumed of it here.
  function CreateChainIDFromParent(fromBytes: string -> string, parent: ChainID, dgsts: seq<DiffID>): ChainID
    decreases |dgsts|
  {
    if |dgsts| == 0 then parent
    else if parent == "" then CreateChainIDFromParent(fromBytes, dgsts[0], dgsts[1..])
    else CreateChainIDFromParent(fromBytes, fromBytes(parent + " " + dgsts[0]), dgsts[1..])
  }

  function CreateChainID(fromBytes: string -> string, dgsts: seq<DiffID>): ChainID {
    CreateChainIDFromParent(fromBytes, "", dgsts)
  }

  // Folding a stack is folding its lower part and going on from that chain ID.
  lemma {:induction false} ChainIDsCompose(fromBytes: string -> string, parent: ChainID, lower: seq<DiffID>, upper: seq<DiffID>)
    ensures CreateChainIDFromParent(fromBytes, parent, lower + upper)
         == CreateChainIDFromParent(fromBytes, CreateChainIDFromParent(fromBytes, parent, lower), upper)
    decreases |lower|
  {
    if |lower| == 0 {
      assert lower + upper == upper;
    } else {
      assert (lower + upper)[1..] == lower[1..] + upper;
      if parent == "" {
        ChainIDsCompose(fromBytes, lower[0], lower[1..], upper);
      } else {
        ChainIDsCompose(fromBytes, fromBytes(parent + " " + lower[0]), lower[1..], upper);
      }
    }
  }

  // Non-empty and without the separator, as every "algorithm:hex" string is.
  predicate Plain(s: string) {
    s != "" && ' ' !in s
  }

  ghost predicate Collision(fromBytes: string -> string, x: string, y: string) {
    x != y && fromBytes(x) == fromBytes(y)
  }

  lemma TopOfChain(fromBytes: string -> string, ids: seq<DiffID>)
    requires |ids| > 0
    ensures var below := CreateChainID(fromBytes, ids[..|ids| - 1]);
            CreateChainID(fromBytes, ids) == if below == "" then ids[|ids| - 1] else fromBytes(below + " " + ids[|ids| - 1])
  {
    var n := |ids| - 1;
    assert ids == ids[..n] + [ids[n]];
    ChainIDsCompose(fromBytes, "", ids[..n], [ids[n]]);
  }

  lemma {:induction false} ChainIDIsPlain(fromBytes: string -> string, ids: seq<DiffID>)
    requires forall s :: Plain(fromBytes(s))
    requires |ids| > 0 && forall d | d in ids :: Plain(d)
    ensures Plain(CreateChainID(fromBytes, ids))
  {
    TopOfChain(fromBytes, ids);
    assert ids[|ids| - 1] in ids;
  }

  lemma SplitAtSpace(p: string, d: string, p': string, d': string)
    requires ' ' !in p && ' ' !in p' && p + " " + d == p' + " " + d'
    ensures p == p' && d == d'
  {
    var s := p + " " + d;
    assert s[|p|] == ' ' && s[|p'|] == ' ';
    assert forall k | 0 <= k < |p| :: s[k] == p[k];
    assert forall k | 0 <= k < |p'| :: s[k] == p'[k];
    assert |p| == |p'|;
    assert p == s[..|p|] && p' == s[..|p'|];
    assert d == s[|p| + 1..] && d' == s[|p'| + 1..];
  }

  // When two stacks have one chain ID, the shorter one starts with the chain ID
  // of the bottom of the longer one and goes on with the same layers, or the
  // digest function has a collision. So stacks of equal length are equal.
  lemma {:induction false} EqualChainIDs(fromBytes: string -> string, a: seq<DiffID>, b: seq<DiffID>)
    returns (collision: Option<(string, string)>)
    requires forall s :: Plain(fromBytes(s))
    requires 0 < |a| <= |b| && (forall d | d in a :: Plain(d)) && (forall d | d in b :: Plain(d))
    requires CreateChainID(fromBytes, a) == CreateChainID(fromBytes, b)
    ensures collision.Some? ==> Collision(fromBytes, collision.value.0, collision.value.1)
    ensures collision.None? ==>
              var n := |b| - |a| + 1;
              a[0] == CreateChainID(fromBytes, b[..n]) && a[1..] == b[n..]
    ensures collision.None? && |a| == |b| ==> a == b
    decreases |a|
  {
    var m, n := |a| - 1, |b| - 1;
    TopOfChain(fromBytes, a);
    TopOfChain(fromBytes, b);
    if m == 0 {
      assert b[..|b|] == b;
      assert a == [a[0]];
      if n == 0 {
        assert b == [b[0]];
      }
      return None;
    }
    ChainIDIsPlain(fromBytes, a[..m]);
    ChainIDIsPlain(fromBytes, b[..n]);
    var x := CreateChainID(fromBytes, a[..m]) + " " + a[m];
    var y := CreateChainID(fromBytes, b[..n]) + " " + b[n];
    if x != y {
      return Some((x, y));
    }
    SplitAtSpace(CreateChainID(fromBytes, a[..m]), a[m], CreateChainID(fromBytes, b[..n]), b[n]);
    collision := EqualChainIDs(fromBytes, a[..m], b[..n]);
    if collision.None? {
      var k := |b| - |a| + 1;
      assert b[..n][..k] == b[..k];
      assert a[1..] == a[..m][1..] + [a[m]];
      assert b[k..] == b[..n][k..] + [b[n]];
      if |a| == |b| {
        assert a == a[..m] + [a[m]] && b == b[..n] + [b[n]];
      }
    }
  }

  // The other direction, which needs no assumption: replacing the bottom of a
  // stack by its chain ID keeps the chain ID, so stacks of different lengths
  // can share one.
  lemma CollapsedStackHasSameChainID(fromBytes: string -> string, b: seq<DiffID>, n: nat)
    requires 0 < n <= |b| && CreateChainID(fromBytes, b[..n]) != ""
    ensures CreateChainID(fromBytes, [CreateChainID(fromBytes, b[..n])] + b[n..]) == CreateChainID(fromBytes, b)
  {
    var c := CreateChainID(fromBytes, b[..n]);
    assert b == b[..n] + b[n..];
    ChainIDsCompose(fromBytes, "", b[..n], b[n..]);
    assert ([c] + b[n..])[1..] == b[n..];
  }
}
