// The sorted set of digests with short-form lookup (distribution/digest/set.go).
module DigestSets {
  import opened Options
  import opened Strings
  import opened Digests

  datatype Entry = Entry(alg: string, val: string, digest: Digest)

  datatype LookupResult = Found(digest: Digest) | NotFound | Ambiguous

  function EntryOf(d: Digest): Entry
    requires ':' in d
  {
    Entry(Algorithm(d), Hex(d), d)
  }

  // Order of entries: by hex, then by algorithm.
  predicate Before(val: string, alg: string, val': string, alg': string) {
    Less(val, val') || (val == val' && Less(alg, alg'))
  }

  predicate EntryBefore(a: Entry, b: Entry) {
    Before(a.val, a.alg, b.val, b.alg)
  }

  ghost predicate Sorted(es: seq<Entry>) {
    forall i, j {:trigger EntryBefore(es[i], es[j])} | 0 <= i < j < |es| :: EntryBefore(es[i], es[j])
  }

  predicate IsEntry(e: Entry) {
    Valid(e.digest) && e == EntryOf(e.digest)
  }

  ghost predicate WellFormed(es: seq<Entry>) {
    && (forall i {:trigger IsEntry(es[i])} | 0 <= i < |es| :: IsEntry(es[i]))
    && Sorted(es)
  }

  function Contents(es: seq<Entry>): set<Digest> {
    set e | e in es :: e.digest
  }

  predicate CheckShortMatch(alg: string, hex: string, shortAlg: string, shortHex: string) {
    if |hex| == |shortHex| then
      hex == shortHex && !(|shortAlg| > 0 && alg != shortAlg)
    else if !(shortHex <= hex) then
      false
    else
      !(|shortAlg| > 0 && alg != shortAlg)
  }

  // What a query asks for: a hex prefix, and an algorithm unless it is empty.
  datatype Query = Query(alg: string, hex: string)

  function ParseQuery(s: string): Query {
    if Validate(s) == Some(InvalidFormat) then Query("", s)
    else Query(Algorithm(s), Hex(s))
  }

  // A query in the format of a digest asks for its algorithm too, whatever its length.
  lemma QueryIs(alg: string, hex: string)
    requires ':' !in alg && Validate(alg + ":" + hex) != Some(InvalidFormat)
    ensures ParseQuery(alg + ":" + hex) == Query(alg, hex)
    ensures ':' !in hex ==> ParseQuery(hex) == Query("", hex)
  {
    FormatOf(alg, hex);
    if ':' !in hex {
      NoColonNoDigest(hex);
    }
  }

  predicate Matches(e: Entry, q: Query) {
    CheckShortMatch(e.alg, e.val, q.alg, q.hex)
  }

  predicate Exact(e: Entry, q: Query) {
    e.alg == q.alg && e.val == q.hex
  }

  // The answer a scan of the whole set gives: the exact entry if there is one,
  // else the only match, else an error saying whether there were matches.
  ghost predicate ScanAnswer(es: seq<Entry>, q: Query, r: LookupResult) {
    match r
    case Found(d) =>
      exists e | e in es && e.digest == d ::
        Matches(e, q) && (Exact(e, q) || forall f | f in es && Matches(f, q) :: f == e)
    case NotFound =>
      forall e | e in es :: !Matches(e, q)
    case Ambiguous =>
      && (forall e | e in es :: !Exact(e, q))
      && exists e, f | e in es && f in es :: e != f && Matches(e, q) && Matches(f, q)
  }

  // Number of entries that sort before (q.hex, q.alg).
  function LowerBound(es: seq<Entry>, q: Query): (n: nat)
    ensures n <= |es|
  {
    if es == [] || !Before(es[0].val, es[0].alg, q.hex, q.alg) then 0
    else 1 + LowerBound(es[1..], q)
  }

  // Binary search looks at no more than two entries, the first that is not
  // below the query and its successor. That is enough exactly when an entry of
  // another algorithm never stands in one of these two places before a match.
  ghost predicate MatchesInFront(es: seq<Entry>, q: Query) {
    || (exists e :: e in es && Exact(e, q))
    || (forall i, k | LowerBound(es, q) <= i < k < |es| && i < LowerBound(es, q) + 2 && Matches(es[k], q) :: Matches(es[i], q))
  }

  ghost predicate SingleAlgorithm(es: seq<Entry>) {
    forall i, j | 0 <= i < |es| && 0 <= j < |es| :: es[i].alg == es[j].alg
  }

  // ---- The order of entries ----

  lemma BeforeTransitive(a: Entry, b: Entry, val: string, alg: string)
    requires EntryBefore(a, b) && Before(b.val, b.alg, val, alg)
    ensures Before(a.val, a.alg, val, alg)
  {
    if Less(a.val, b.val) && Less(b.val, val) {
      LessTransitive(a.val, b.val, val);
    } else if a.val == b.val == val {
      LessTransitive(a.alg, b.alg, alg);
    }
  }

  lemma BeforeIrreflexive(val: string, alg: string)
    ensures !Before(val, alg, val, alg)
  {
    LessIrreflexive(val);
    LessIrreflexive(alg);
  }

  lemma BeforeTotal(val: string, alg: string, val': string, alg': string)
    ensures Before(val, alg, val', alg') || (val == val' && alg == alg') || Before(val', alg', val, alg)
  {
    LessTotal(val, val');
    LessTotal(alg, alg');
  }

  lemma EntryAtMost(es: seq<Entry>, i: nat, j: nat)
    requires Sorted(es) && i <= j < |es|
    ensures AtMost(es[i].val, es[j].val)
  {
    LessIrreflexive(es[i].val);
    if i < j && Less(es[j].val, es[i].val) {
      assert EntryBefore(es[i], es[j]);
      if Less(es[i].val, es[j].val) {
        LessTransitive(es[i].val, es[j].val, es[i].val);
      }
    }
  }

  // Where the entries cross from below a key to not below it.
  lemma {:induction false} LowerBoundIs(es: seq<Entry>, q: Query, n: nat)
    requires n <= |es|
    requires forall i | 0 <= i < n :: Before(es[i].val, es[i].alg, q.hex, q.alg)
    requires n < |es| ==> !Before(es[n].val, es[n].alg, q.hex, q.alg)
    ensures LowerBound(es, q) == n
  {
    if n > 0 {
      assert Before(es[0].val, es[0].alg, q.hex, q.alg);
      LowerBoundIs(es[1..], q, n - 1);
    }
  }

  lemma {:induction false} LowerBoundSplits(es: seq<Entry>, q: Query)
    ensures var n := LowerBound(es, q);
            && (forall i | 0 <= i < n :: Before(es[i].val, es[i].alg, q.hex, q.alg))
            && (n < |es| ==> !Before(es[n].val, es[n].alg, q.hex, q.alg))
  {
    if es != [] && Before(es[0].val, es[0].alg, q.hex, q.alg) {
      LowerBoundSplits(es[1..], q);
      assert forall i | 1 <= i < |es| :: es[i] == es[1..][i - 1];
    }
  }

  lemma NotBeforeIsMonotone(es: seq<Entry>, q: Query)
    requires Sorted(es)
    ensures forall i | 0 <= i < LowerBound(es, q) :: Before(es[i].val, es[i].alg, q.hex, q.alg)
    ensures forall i | LowerBound(es, q) <= i < |es| :: !Before(es[i].val, es[i].alg, q.hex, q.alg)
  {
    LowerBoundSplits(es, q);
    var n := LowerBound(es, q);
    forall i | n <= i < |es|
      ensures !Before(es[i].val, es[i].alg, q.hex, q.alg)
    {
      if n < i && Before(es[i].val, es[i].alg, q.hex, q.alg) {
        BeforeTransitive(es[n], es[i], q.hex, q.alg);
      }
    }
  }

  // ---- Matching ----

  lemma MatchMeaning(e: Entry, q: Query)
    ensures Matches(e, q) <==> q.hex <= e.val && (q.alg == "" || e.alg == q.alg)
  {
  }

  lemma MembersAreEntries(es: seq<Entry>, e: Entry)
    requires WellFormed(es) && e in es
    ensures IsEntry(e)
  {
    var i :| 0 <= i < |es| && es[i] == e;
    assert IsEntry(es[i]);
  }

  lemma ScanAnswerUnique(es: seq<Entry>, q: Query, r: LookupResult, r': LookupResult)
    requires WellFormed(es) && ScanAnswer(es, q, r) && ScanAnswer(es, q, r')
    ensures r == r'
  {
    if r.Found? && r'.Found? {
      var e :| e in es && e.digest == r.digest && Matches(e, q) && (Exact(e, q) || forall f | f in es && Matches(f, q) :: f == e);
      var f :| f in es && f.digest == r'.digest && Matches(f, q) && (Exact(f, q) || forall g | g in es && Matches(g, q) :: g == f);
      if Exact(e, q) && Exact(f, q) {
        MembersAreEntries(es, e);
        MembersAreEntries(es, f);
        HexFixesDigest(e.digest, f.digest);
      }
    }
  }

  // No entry below the query matches it.
  lemma NothingBelowMatches(es: seq<Entry>, q: Query, k: nat)
    requires WellFormed(es) && k < LowerBound(es, q)
    ensures !Matches(es[k], q)
  {
    MatchMeaning(es[k], q);
    LowerBoundSplits(es, q);
    if Matches(es[k], q) {
      PrefixAtMost(q.hex, es[k].val);
      LessIrreflexive(q.alg);
    }
  }

  // Entries whose hex extends the query are contiguous from the lower bound.
  lemma ExtensionsAreContiguous(es: seq<Entry>, q: Query, j: nat, k: nat)
    requires WellFormed(es) && LowerBound(es, q) <= j <= k < |es| && q.hex <= es[k].val
    ensures q.hex <= es[j].val
  {
    NotBeforeIsMonotone(es, q);
    assert AtMost(q.hex, es[j].val);
    EntryAtMost(es, j, k);
    PrefixConvex(q.hex, q.hex, es[j].val, es[k].val);
  }

  lemma ExactIsAtLowerBound(es: seq<Entry>, q: Query, k: nat)
    requires WellFormed(es) && k < |es| && Exact(es[k], q)
    ensures k == LowerBound(es, q)
  {
    BeforeIrreflexive(q.hex, q.alg);
    assert forall i | 0 <= i < k :: EntryBefore(es[i], es[k]);
    LowerBoundIs(es, q, k);
  }

  // ---- What the binary search answers, and when that is the scan's answer ----

  // The decision Lookup takes from the entry at the lower bound and its successor.
  function SearchAnswer(es: seq<Entry>, q: Query): LookupResult {
    var n := LowerBound(es, q);
    if n == |es| || !Matches(es[n], q) then NotFound
    else if Exact(es[n], q) then Found(es[n].digest)
    else if n + 1 < |es| && Matches(es[n + 1], q) then Ambiguous
    else Found(es[n].digest)
  }

  lemma SearchIsScan(es: seq<Entry>, q: Query)
    requires WellFormed(es)
    ensures ScanAnswer(es, q, SearchAnswer(es, q)) <==> MatchesInFront(es, q)
  {
    var n := LowerBound(es, q);
    forall k | 0 <= k < n ensures !Matches(es[k], q) {
      NothingBelowMatches(es, q, k);
    }
    if k :| 0 <= k < |es| && Exact(es[k], q) {
      ExactIsAtLowerBound(es, q, k);
      assert es[k] in es;
    } else {
      SearchIsScanInexact(es, q);
    }
  }

  lemma SearchIsScanInexact(es: seq<Entry>, q: Query)
    requires WellFormed(es)
    requires forall e | e in es :: !Exact(e, q)
    requires forall k | 0 <= k < LowerBound(es, q) :: !Matches(es[k], q)
    ensures ScanAnswer(es, q, SearchAnswer(es, q)) <==> MatchesInFront(es, q)
  {
    if MatchesInFront(es, q) {
      InFrontIsEnough(es, q);
    } else {
      InFrontIsNeeded(es, q);
    }
  }

  lemma InFrontIsEnough(es: seq<Entry>, q: Query)
    requires WellFormed(es) && MatchesInFront(es, q)
    requires forall e | e in es :: !Exact(e, q)
    requires forall k | 0 <= k < LowerBound(es, q) :: !Matches(es[k], q)
    ensures ScanAnswer(es, q, SearchAnswer(es, q))
  {
    var n := LowerBound(es, q);
    assert forall i, k | n <= i < k < |es| && i < n + 2 && Matches(es[k], q) :: Matches(es[i], q);
    if n == |es| || !Matches(es[n], q) {
      forall e | e in es ensures !Matches(e, q) {
        var k :| 0 <= k < |es| && es[k] == e;
        assert k < n || k == n || n < k;
      }
    } else if n + 1 < |es| && Matches(es[n + 1], q) {
      EntriesDifferByDigest(es, n, n + 1);
      assert es[n] in es && es[n + 1] in es;
    } else {
      forall f | f in es && Matches(f, q) ensures f == es[n] {
        var k :| 0 <= k < |es| && es[k] == f;
        assert k <= n || k == n + 1 || n + 1 < k;
      }
      assert es[n] in es;
    }
  }

  lemma InFrontIsNeeded(es: seq<Entry>, q: Query)
    requires WellFormed(es) && !MatchesInFront(es, q)
    requires forall e | e in es :: !Exact(e, q)
    ensures !ScanAnswer(es, q, SearchAnswer(es, q))
  {
    var n := LowerBound(es, q);
    var i, k :| n <= i < k < |es| && i < n + 2 && Matches(es[k], q) && !Matches(es[i], q);
    assert es[k] in es;
    if Matches(es[n], q) {
      assert i == n + 1;
      EntriesDifferByDigest(es, n, k);
      forall e | e in es && e.digest == es[n].digest ensures e == es[n] {
        MembersAreEntries(es, e);
        MembersAreEntries(es, es[n]);
      }
    }
  }

  lemma EntriesDifferByDigest(es: seq<Entry>, i: nat, j: nat)
    requires WellFormed(es) && i < |es| && j < |es| && i != j
    ensures es[i] != es[j] && es[i].digest != es[j].digest && es[i].val != es[j].val
  {
    assert IsEntry(es[i]) && IsEntry(es[j]);
    if es[i].val == es[j].val {
      HexFixesDigest(es[i].digest, es[j].digest);
    }
    BeforeIrreflexive(es[i].val, es[i].alg);
    assert EntryBefore(es[if i < j then i else j], es[if i < j then j else i]);
  }

  // Queries without an algorithm are always answered as a scan would.
  lemma UnqualifiedMatchesInFront(es: seq<Entry>, q: Query)
    requires WellFormed(es) && q.alg == ""
    ensures MatchesInFront(es, q)
  {
    forall i, k | LowerBound(es, q) <= i < k < |es| && i < LowerBound(es, q) + 2 && Matches(es[k], q)
      ensures Matches(es[i], q)
    {
      ExtensionsAreContiguous(es, q, i, k);
    }
  }

  // So are queries with an algorithm over a set that uses one algorithm.
  lemma SingleAlgorithmMatchesInFront(es: seq<Entry>, q: Query)
    requires WellFormed(es) && SingleAlgorithm(es)
    ensures MatchesInFront(es, q)
  {
    forall i, k | LowerBound(es, q) <= i < k < |es| && i < LowerBound(es, q) + 2 && Matches(es[k], q)
      ensures Matches(es[i], q)
    {
      ExtensionsAreContiguous(es, q, i, k);
    }
  }

  // With two algorithms in the set a qualified query can miss its only match:
  // the sha256 entry stands in front of the sha512 entry that is asked for.
  lemma QualifiedLookupCanMiss() returns (es: seq<Entry>, s: string)
    ensures WellFormed(es) && |es| == 2 && s == "sha512:a"
    ensures Matches(es[1], ParseQuery(s)) && !Matches(es[0], ParseQuery(s))
    ensures SearchAnswer(es, ParseQuery(s)) == NotFound
    ensures ScanAnswer(es, ParseQuery(s), Found(es[1].digest))
  {
    var x := seq(64, _ => 'a');
    var y := "ab" + seq(126, _ => 'a');
    es := [Entry(SHA256, x, SHA256 + ":" + x), Entry(SHA512, y, SHA512 + ":" + y)];
    s := "sha512:a";
    MixedEntries(x, y, es);
    QualifiedShortQuery(s);
    MixedAnswer(es, Query(SHA512, "a"));
  }

  lemma MixedAnswer(es: seq<Entry>, q: Query)
    requires |es| == 2 && es[0].alg == SHA256 && es[1].alg == SHA512
    requires q == Query(SHA512, "a") && "a" <= es[0].val && "a" <= es[1].val && es[0].val != "a"
    ensures Matches(es[1], q) && !Matches(es[0], q)
    ensures SearchAnswer(es, q) == NotFound && ScanAnswer(es, q, Found(es[1].digest))
  {
    PrefixAtMost("a", es[0].val);
    LowerBoundIs(es, q, 0);
    MatchMeaning(es[0], q);
    MatchMeaning(es[1], q);
    assert es[1] in es;
  }

  lemma MixedEntries(x: string, y: string, es: seq<Entry>)
    requires x == seq(64, _ => 'a') && y == "ab" + seq(126, _ => 'a')
    requires es == [Entry(SHA256, x, SHA256 + ":" + x), Entry(SHA512, y, SHA512 + ":" + y)]
    ensures WellFormed(es)
  {
    ComposedDigest(SHA256, x);
    ComposedDigest(SHA512, y);
    assert IsEntry(es[0]) && IsEntry(es[1]);
    assert EntryBefore(es[0], es[1]) by {
      assert x[0] == y[0] && Less(x[1..], y[1..]);
    }
  }

  lemma QualifiedShortQuery(s: string)
    requires s == "sha512:a"
    ensures ParseQuery(s) == Query(SHA512, "a")
  {
    SepIndexIs(s, 6);
    assert forall k | 6 < k < |s| :: IsHexChar(s[k]);
    assert HasDigestFormat(s);
    assert Algorithm(s) == SHA512 && Hex(s) == "a";
  }

  // ---- Lemmas the methods of DigestSet use ----

  // The search predicate of Add, Remove and the qualified Lookup.
  predicate NotBelow(e: Entry, val: string, alg: string) {
    if e.val == val then AtMost(alg, e.alg) else AtMost(val, e.val)
  }

  lemma NotBelowMeaning(e: Entry, val: string, alg: string)
    ensures NotBelow(e, val, alg) <==> !Before(e.val, e.alg, val, alg)
  {
    LessIrreflexive(val);
  }

  lemma KeySearchIsMonotone(es: seq<Entry>, q: Query)
    requires Sorted(es)
    ensures forall i, j | 0 <= i < j < |es| && NotBelow(es[i], q.hex, q.alg) :: NotBelow(es[j], q.hex, q.alg)
  {
    forall i, j | 0 <= i < j < |es| && NotBelow(es[i], q.hex, q.alg) ensures NotBelow(es[j], q.hex, q.alg) {
      NotBelowMeaning(es[i], q.hex, q.alg);
      NotBelowMeaning(es[j], q.hex, q.alg);
      if Before(es[j].val, es[j].alg, q.hex, q.alg) {
        BeforeTransitive(es[i], es[j], q.hex, q.alg);
      }
    }
  }

  lemma KeySearchIsLowerBound(es: seq<Entry>, q: Query, idx: nat)
    requires Sorted(es) && idx <= |es|
    requires forall i | 0 <= i < idx :: !NotBelow(es[i], q.hex, q.alg)
    requires forall i | idx <= i < |es| :: NotBelow(es[i], q.hex, q.alg)
    ensures LowerBound(es, q) == idx
  {
    forall i | 0 <= i < |es| ensures NotBelow(es[i], q.hex, q.alg) <==> !Before(es[i].val, es[i].alg, q.hex, q.alg) {
      NotBelowMeaning(es[i], q.hex, q.alg);
    }
    LowerBoundIs(es, q, idx);
  }

  lemma ValueSearchIsMonotone(es: seq<Entry>, s: string)
    requires Sorted(es)
    ensures forall i, j | 0 <= i < j < |es| && AtMost(s, es[i].val) :: AtMost(s, es[j].val)
  {
    forall i, j | 0 <= i < j < |es| && AtMost(s, es[i].val) ensures AtMost(s, es[j].val) {
      EntryAtMost(es, i, j);
      if Less(es[j].val, s) {
        LessTotal(es[i].val, es[j].val);
        if Less(es[i].val, es[j].val) {
          LessTransitive(es[i].val, es[j].val, s);
        }
      }
    }
  }

  lemma InsertKeepsOrder(es: seq<Entry>, e: Entry, n: nat)
    requires WellFormed(es) && IsEntry(e)
    requires n == LowerBound(es, Query(e.alg, e.val))
    requires n < |es| ==> es[n].digest != e.digest
    ensures WellFormed(es[..n] + [e] + es[n..])
    ensures Contents(es[..n] + [e] + es[n..]) == Contents(es) + {e.digest}
  {
    var t := es[..n] + [e] + es[n..];
    InsertContents(es, e, n);
    AllEntries(es, e, t);
    InsertKeepsSorted(es, e, n, t);
  }

  lemma AllEntries(es: seq<Entry>, e: Entry, t: seq<Entry>)
    requires WellFormed(es) && IsEntry(e)
    requires forall x | x in t :: x in es || x == e
    ensures forall i {:trigger IsEntry(t[i])} | 0 <= i < |t| :: IsEntry(t[i])
  {
    forall i | 0 <= i < |t| ensures IsEntry(t[i]) {
      assert t[i] in t;
      if t[i] != e {
        MembersAreEntries(es, t[i]);
      }
    }
  }

  function Inserted(es: seq<Entry>, e: Entry, n: nat, i: nat): Entry
    requires n <= |es| && i <= |es|
  {
    if i < n then es[i] else if i == n then e else es[i - 1]
  }

  lemma InsertKeepsSorted(es: seq<Entry>, e: Entry, n: nat, t: seq<Entry>)
    requires WellFormed(es) && IsEntry(e)
    requires n == LowerBound(es, Query(e.alg, e.val))
    requires n < |es| ==> es[n].digest != e.digest
    requires t == es[..n] + [e] + es[n..]
    ensures Sorted(t)
  {
    hide EntryBefore, IsEntry, WellFormed, LowerBound;
    forall i, j | 0 <= i < j < |t| ensures EntryBefore(t[i], t[j]) {
      InsertedPairInOrder(es, e, n, i, j);
      assert t[i] == Inserted(es, e, n, i) && t[j] == Inserted(es, e, n, j);
    }
  }

  lemma InsertedPairInOrder(es: seq<Entry>, e: Entry, n: nat, i: nat, j: nat)
    requires WellFormed(es) && IsEntry(e)
    requires n == LowerBound(es, Query(e.alg, e.val))
    requires n < |es| ==> es[n].digest != e.digest
    requires i < j <= |es|
    ensures EntryBefore(Inserted(es, e, n, i), Inserted(es, e, n, j))
  {
    hide IsEntry, LowerBound, Sorted, EntryBefore;
    if j == n {
      BoundIsBefore(es, e, i);
    } else if i == n {
      InsertedIsBefore(es, e, n, j - 1);
    } else {
      SortedPair(es, if i < n then i else i - 1, if j < n then j else j - 1);
    }
  }

  lemma SortedPair(es: seq<Entry>, i: nat, j: nat)
    requires Sorted(es) && i < j < |es|
    ensures EntryBefore(es[i], es[j])
  {
  }

  lemma BoundIsBefore(es: seq<Entry>, e: Entry, i: nat)
    requires i < LowerBound(es, Query(e.alg, e.val))
    ensures EntryBefore(es[i], e)
  {
    hide LowerBound, Less;
    LowerBoundSplits(es, Query(e.alg, e.val));
  }

  lemma InsertContents(es: seq<Entry>, e: Entry, n: nat)
    requires n <= |es|
    ensures var t := es[..n] + [e] + es[n..];
            && (forall x :: x in t <==> x in es || x == e)
            && Contents(t) == Contents(es) + {e.digest}
  {
    var t := es[..n] + [e] + es[n..];
    assert es == es[..n] + es[n..];
    assert forall x :: x in t <==> x in es || x == e;
  }

  lemma InsertedIsBefore(es: seq<Entry>, e: Entry, n: nat, i: nat)
    requires WellFormed(es) && IsEntry(e)
    requires n == LowerBound(es, Query(e.alg, e.val)) && n <= i < |es|
    requires es[n].digest != e.digest
    ensures EntryBefore(e, es[i])
  {
    var q := Query(e.alg, e.val);
    NotBeforeIsMonotone(es, q);
    BeforeTotal(es[i].val, es[i].alg, e.val, e.alg);
    if Exact(es[i], q) {
      ExactIsAtLowerBound(es, q, i);
      assert IsEntry(es[i]);
      HexFixesDigest(es[i].digest, e.digest);
    }
  }

  lemma DeletedAt(es: seq<Entry>, n: nat, t: seq<Entry>)
    requires n < |es| && t == es[..n] + es[n + 1..]
    ensures forall i {:trigger t[i]} | 0 <= i < |t| :: t[i] == if i < n then es[i] else es[i + 1]
  {
  }

  lemma LeftOver(es: seq<Entry>, n: nat, t: seq<Entry>, e: Entry)
    requires WellFormed(es) && n < |es| && |t| == |es| - 1
    requires forall i {:trigger t[i]} | 0 <= i < |t| :: t[i] == if i < n then es[i] else es[i + 1]
    ensures e in t <==> e in es && e != es[n]
    ensures e in t ==> e.digest != es[n].digest
  {
    hide WellFormed;
    if e in t {
      var k :| 0 <= k < |t| && t[k] == e;
      var i := if k < n then k else k + 1;
      assert es[i] == e;
      EntriesDifferByDigest(es, i, n);
    }
    if e in es && e != es[n] {
      var i :| 0 <= i < |es| && es[i] == e;
      var k := if i < n then i else i - 1;
      assert t[k] == e;
    }
  }

  lemma DeletedAre(es: seq<Entry>, n: nat, t: seq<Entry>)
    requires WellFormed(es) && n < |es| && |t| == |es| - 1
    requires forall i {:trigger t[i]} | 0 <= i < |t| :: t[i] == if i < n then es[i] else es[i + 1]
    ensures forall e :: e in t <==> e in es && e != es[n]
    ensures forall e | e in t :: e.digest != es[n].digest
  {
    hide WellFormed;
    forall e ensures (e in t <==> e in es && e != es[n]) && (e in t ==> e.digest != es[n].digest) {
      LeftOver(es, n, t, e);
    }
  }

  lemma DeleteKeepsOrder(es: seq<Entry>, n: nat)
    requires WellFormed(es) && n < |es|
    ensures WellFormed(es[..n] + es[n + 1..])
    ensures Contents(es[..n] + es[n + 1..]) == Contents(es) - {es[n].digest}
  {
    hide EntryBefore, IsEntry;
    var t := es[..n] + es[n + 1..];
    DeletedAt(es, n, t);
    DeletedAre(es, n, t);
    forall i | 0 <= i < |t| ensures IsEntry(t[i]) {
      MembersAreEntries(es, t[i]);
    }
    forall i, j | 0 <= i < j < |t| ensures EntryBefore(t[i], t[j]) {
      SortedPair(es, if i < n then i else i + 1, if j < n then j else j + 1);
    }
    DeletedContents(es, n, t);
  }

  lemma DeletedContents(es: seq<Entry>, n: nat, t: seq<Entry>)
    requires n < |es| && (forall e :: e in t <==> e in es && e != es[n]) && forall e | e in t :: e.digest != es[n].digest
    ensures Contents(t) == Contents(es) - {es[n].digest}
  {
  }

  lemma AbsentWhenNotAtLowerBound(es: seq<Entry>, d: Digest)
    requires WellFormed(es) && Valid(d)
    requires var n := LowerBound(es, Query(Algorithm(d), Hex(d))); n == |es| || es[n].digest != d
    ensures d !in Contents(es)
  {
    if d in Contents(es) {
      var k :| 0 <= k < |es| && es[k].digest == d;
      assert IsEntry(es[k]);
      ExactIsAtLowerBound(es, Query(Algorithm(d), Hex(d)), k);
    }
  }

  // ---- Short codes ----

  // es[a]'s hex begins the hex of exactly one other entry. Only hexes of
  // different algorithms, which differ in length, can be in this position.
  ghost predicate LoneExtension(es: seq<Entry>, a: nat) {
    && a + 1 < |es|
    && es[a].val <= es[a + 1].val
    && !(a + 2 < |es| && es[a].val <= es[a + 2].val)
  }

  ghost predicate NoLoneExtension(es: seq<Entry>) {
    forall a: nat {:trigger LoneExtension(es, a)} :: !LoneExtension(es, a)
  }

  // The loop for es[b] can come to `n`: es[b] and the next entry agree up to there.
  predicate Reaches(es: seq<Entry>, b: nat, n: nat)
    requires b < |es|
  {
    b + 1 < |es| && 0 < n <= |es[b].val| && Share(es[b].val, es[b + 1].val, n - 1)
  }

  // An earlier entry whose hex has its first `length` characters in common with es[a]'s
  // takes the minimum past es[a]'s hex, and it is not reset before es[a].
  ghost predicate Passed(es: seq<Entry>, a: nat, length: nat)
    requires a < |es|
  {
    exists b: nat {:trigger es[b]} | b < a :: Share(es[b].val, es[a].val, length) && Reaches(es, b, |es[a].val| + 1)
  }

  // Exactly when es[a + 1] gets an ambiguous code, which is es[a]'s hex.
  ghost predicate AmbiguousAfter(es: seq<Entry>, a: nat, length: nat) {
    LoneExtension(es, a) && length <= |es[a].val| && !Passed(es, a, length)
  }

  // A code for es[i]: the whole digest, or a hex prefix no other entry has.
  ghost predicate IdentifyingCode(es: seq<Entry>, i: nat, code: string)
    requires i < |es|
  {
    || code == es[i].digest
    || (code < es[i].val && forall j | 0 <= j < |es| && j != i :: !(code <= es[j].val))
  }

  lemma SingleAlgorithmHasNoLoneExtension(es: seq<Entry>)
    requires WellFormed(es) && SingleAlgorithm(es)
    ensures NoLoneExtension(es)
  {
    forall a: nat ensures !LoneExtension(es, a) {
      if LoneExtension(es, a) {
        assert IsEntry(es[a]) && IsEntry(es[a + 1]);
        assert es[a].alg == es[a + 1].alg;
        EntriesDifferByDigest(es, a, a + 1);
      }
    }
  }

  // Two algorithms are enough for one: 64 times 'a', and 128 times.
  lemma ShortCodeCanBeAmbiguous() returns (es: seq<Entry>)
    ensures WellFormed(es) && LoneExtension(es, 0) && |es[0].val| == 64
    ensures SearchAnswer(es, ParseQuery(es[0].val)) == Ambiguous
  {
    var x := seq(64, _ => 'a');
    var y := x + x;
    es := [Entry(SHA256, x, SHA256 + ":" + x), Entry(SHA512, y, SHA512 + ":" + y)];
    ComposedDigest(SHA256, x);
    ComposedDigest(SHA512, y);
    assert IsEntry(es[0]) && IsEntry(es[1]);
    assert EntryBefore(es[0], es[1]) by {
      PrefixAtMost(x, y);
      LessTotal(x, y);
    }
    LoneCodeIsAmbiguous(es, 0);
  }

  // A prefix that starts at es[i] and is not in es[i + 1] is in no later entry.
  lemma PrefixStops(es: seq<Entry>, p: string, i: nat, j: nat, k: nat)
    requires WellFormed(es) && i <= j <= k < |es|
    requires p <= es[i].val && p <= es[k].val
    ensures p <= es[j].val
  {
    EntryAtMost(es, i, j);
    EntryAtMost(es, j, k);
    PrefixConvex(p, es[i].val, es[j].val, es[k].val);
  }

  lemma ShareStops(es: seq<Entry>, n: nat, i: nat, j: nat, k: nat)
    requires WellFormed(es) && i <= j <= k < |es| && Share(es[i].val, es[k].val, n)
    ensures Share(es[i].val, es[j].val, n)
  {
    PrefixStops(es, es[i].val[..n], i, j, k);
  }

  lemma HexHasNoColon(e: Entry, code: string)
    requires IsEntry(e) && code <= e.val
    ensures ':' !in code
  {
    forall c | c in code ensures c != ':' {
      var k :| 0 <= k < |code| && code[k] == c;
      assert HasDigestFormat(e.digest);
      assert c == e.digest[SepIndex(e.digest) + 1 + k];
    }
  }

  // Looking up an identifying code finds the entry it was made for.
  lemma IdentifyingCodeResolves(es: seq<Entry>, i: nat, code: string)
    requires WellFormed(es) && i < |es| && IdentifyingCode(es, i, code)
    ensures SearchAnswer(es, ParseQuery(code)) == Found(es[i].digest)
  {
    assert IsEntry(es[i]);
    var q := ParseQuery(code);
    if code == es[i].digest {
      ExactIsAtLowerBound(es, q, i);
    } else {
      HexHasNoColon(es[i], code);
      NoColonNoDigest(code);
      PrefixIsAtOrAfterLowerBound(es, q, i);
      if LowerBound(es, q) < i {
        ExtensionsAreContiguous(es, q, LowerBound(es, q), i);
      }
    }
  }

  lemma PrefixIsAtOrAfterLowerBound(es: seq<Entry>, q: Query, i: nat)
    requires WellFormed(es) && q.alg == "" && i < |es| && q.hex <= es[i].val
    ensures LowerBound(es, q) <= i
  {
    PrefixAtMost(q.hex, es[i].val);
    LowerBoundSplits(es, q);
  }

  // A lone extension's whole hex, taken as a code for the longer entry, is ambiguous.
  lemma LoneCodeIsAmbiguous(es: seq<Entry>, a: nat)
    requires WellFormed(es) && LoneExtension(es, a)
    ensures SearchAnswer(es, ParseQuery(es[a].val)) == Ambiguous
    ensures ScanAnswer(es, ParseQuery(es[a].val), Ambiguous)
  {
    var code := es[a].val;
    assert IsEntry(es[a]);
    HexHasNoColon(es[a], code);
    NoColonNoDigest(code);
    var q := ParseQuery(code);
    PrefixIsAtOrAfterLowerBound(es, q, a);
    var n := LowerBound(es, q);
    if n < a {
      ExtensionsAreContiguous(es, q, n, a);
      EntryAtMost(es, n, a);
      EntriesDifferByDigest(es, n, a);
      PrefixAtMost(es[a].val, es[n].val);
      LessTotal(es[a].val, es[n].val);
    }
    UnqualifiedMatchesInFront(es, q);
    SearchIsScan(es, q);
  }

  // The shape of every code, whatever the set: the digest itself, or a prefix
  // of its hex of at least the asked length.
  ghost predicate CodeShape(e: Entry, code: string, length: nat) {
    code == e.digest || (length <= |code| < |e.val| && code <= e.val)
  }

  // What the generator knows when it comes to es[i] with minimum l and reset
  // index r. Its minimum separates es[i] from es[i - 1], unless es[i - 1] is no
  // longer than it. And either the minimum was just reset, or es[i] lies in a
  // run of hexes agreeing on `length` characters, and r is the run's last index.
  ghost predicate Cursor(es: seq<Entry>, i: nat, length: nat, l: nat, r: nat)
    requires i < |es|
  {
    && length <= l
    && (i > 0 && Share(es[i - 1].val, es[i].val, l) ==> |es[i - 1].val| == l)
    && ((l == length && r <= i) || InRun(es, i, length, r))
  }

  ghost predicate InRun(es: seq<Entry>, i: nat, length: nat, r: nat)
    requires i < |es|
  {
    && i > 0 && |es[i - 1].val| > length
    && Share(es[i - 1].val, es[i].val, length)
    && forall j | i <= j < |es| :: j <= r <==> Share(es[i - 1].val, es[j].val, length)
  }

  // The minimum the generator comes to es[i] with is the longest that the earlier
  // entries agreeing with es[i] on `length` characters have reached, if any has.
  ghost predicate Inherited(es: seq<Entry>, i: nat, length: nat, l: nat)
    requires i < |es|
  {
    && length <= l
    && (forall b: nat {:trigger es[b]} | b < i && Share(es[b].val, es[i].val, length) :: !Reaches(es, b, l + 1))
    && (l > length ==> exists b: nat {:trigger es[b]} | b < i :: Share(es[b].val, es[i].val, length) && Reaches(es, b, l))
  }

  lemma StartsKnowing(es: seq<Entry>, length: nat)
    requires |es| > 0
    ensures Cursor(es, 0, length, length, 0) && Inherited(es, 0, length, length)
  {
  }

  // How far the extension loop for es[i] has come from (l0, r0) to (l, r).
  ghost predicate Extension(es: seq<Entry>, i: nat, l0: nat, r0: nat, l: nat, r: nat)
    requires i < |es|
  {
    && l0 <= l && r0 <= r
    && (l == l0 ==> r == r0)
    && (l > l0 ==> l <= |es[i].val| && i + 1 < |es| && Share(es[i].val, es[i + 1].val, l - 1))
    && (l > l0 ==> forall j | i < j < |es| && Share(es[i].val, es[j].val, l0) :: j <= r)
    && (r == r0 || (i < r < |es| && Share(es[i].val, es[r].val, l0)))
  }

  // The loop is done: the code is the digest or is not in the next hex.
  ghost predicate Settled(es: seq<Entry>, i: nat, l: nat, short: string)
    requires i < |es|
  {
    if |es[i].val| <= l then short == es[i].digest
    else short == es[i].val[..l] && (i + 1 < |es| ==> !(short <= es[i + 1].val))
  }

  lemma ShortMatchIsShare(es: seq<Entry>, i: nat, j: nat, l: nat)
    requires i < |es| && j < |es| && l < |es[i].val|
    ensures CheckShortMatch(es[j].alg, es[j].val, "", es[i].val[..l]) <==> Share(es[i].val, es[j].val, l)
  {
  }

  lemma ExtensionStep(es: seq<Entry>, i: nat, l0: nat, r0: nat, l: nat, r: nat, j: nat, r': nat)
    requires WellFormed(es) && i < |es| && Extension(es, i, l0, r0, l, r) && l < |es[i].val|
    requires i + 1 < j <= |es| && (j < |es| ==> !Share(es[i].val, es[j].val, l))
    requires j - 1 <= r' && forall k {:trigger es[k]} | i < k < j :: Share(es[i].val, es[k].val, l)
    requires r <= r' && (r == r' || i < r' < j)
    ensures Extension(es, i, l0, r0, l + 1, r')
  {
    assert Share(es[i].val, es[i + 1].val, l);
    forall k | i < k < |es| && Share(es[i].val, es[k].val, l0) ensures k <= r' {
      if l == l0 && j <= k {
        ShareStops(es, l, i, j, k);
      }
    }
    if r' != r0 && r' == r {
      assert Share(es[i].val, es[r].val, l0);
    } else if r' != r0 {
      ShareLess(es[i].val, es[r'].val, l, l0);
    }
  }

  lemma ShareLess(a: string, b: string, n: nat, k: nat)
    requires Share(a, b, n) && k <= n
    ensures Share(a, b, k)
  {
    assert a[..k] == a[..n][..k] && b[..k] == b[..n][..k];
  }

  lemma ShareTransitive(a: string, b: string, c: string, n: nat)
    requires Share(a, b, n) && Share(b, c, n)
    ensures Share(a, c, n)
  {
  }

  // Inside a run the hexes stay longer than `length`.
  lemma RunStaysLong(es: seq<Entry>, i: nat, length: nat)
    requires WellFormed(es) && 0 < i < |es| && |es[i - 1].val| > length && Share(es[i - 1].val, es[i].val, length)
    ensures |es[i].val| > length
  {
    if |es[i].val| == length {
      PrefixAtMost(es[i].val, es[i - 1].val);
      EntryAtMost(es, i - 1, i);
      LessTotal(es[i].val, es[i - 1].val);
    }
  }

  lemma CursorStep(es: seq<Entry>, i: nat, length: nat, l0: nat, r0: nat, l: nat, r: nat)
    requires WellFormed(es) && i < |es| && Cursor(es, i, length, l0, r0) && Extension(es, i, l0, r0, l, r)
    requires exists short :: Settled(es, i, l, short)
    ensures i + 1 < |es| ==> Cursor(es, i + 1, length, if i >= r then length else l, r)
  {
    if i + 1 < |es| {
      if InRun(es, i, length, r0) {
        RunStep(es, i, length, l0, r0, l, r);
      } else if i < r {
        RunStarts(es, i, length, r0, l, r);
      } else if Share(es[i].val, es[i + 1].val, length) {
        assert l == l0;
      }
    }
  }

  lemma RunStarts(es: seq<Entry>, i: nat, length: nat, r0: nat, l: nat, r: nat)
    requires WellFormed(es) && i + 1 < |es| && r0 <= i < r && Extension(es, i, length, r0, l, r)
    requires exists short :: Settled(es, i, l, short)
    ensures Cursor(es, i + 1, length, l, r)
  {
    ShareLess(es[i].val, es[i + 1].val, l - 1, length);
    forall j | i + 1 <= j <= r ensures Share(es[i].val, es[j].val, length) {
      ShareStops(es, length, i, j, r);
    }
  }

  lemma RunStep(es: seq<Entry>, i: nat, length: nat, l0: nat, r0: nat, l: nat, r: nat)
    requires WellFormed(es) && i + 1 < |es| && length <= l0 && InRun(es, i, length, r0) && Extension(es, i, l0, r0, l, r)
    requires exists short :: Settled(es, i, l, short)
    ensures Cursor(es, i + 1, length, if i >= r then length else l, r)
  {
    RunStaysLong(es, i, length);
    if r != r0 {
      ShareLess(es[i].val, es[r].val, l0, length);
      ShareTransitive(es[i - 1].val, es[i].val, es[r].val, length);
    }
    assert r == r0;
    forall j | i < j < |es| ensures j <= r <==> Share(es[i].val, es[j].val, length) {
    }
  }

  lemma ReachesLess(es: seq<Entry>, b: nat, n: nat, k: nat)
    requires b < |es| && Reaches(es, b, n) && 0 < k <= n
    ensures Reaches(es, b, k)
  {
    ShareLess(es[b].val, es[b + 1].val, n - 1, k - 1);
  }

  // An entry that agrees with a later one agrees with all between.
  lemma RunBetween(es: seq<Entry>, b: nat, i: nat, length: nat)
    requires WellFormed(es) && b <= i && i + 1 < |es| && Share(es[b].val, es[i + 1].val, length)
    ensures Share(es[b].val, es[i].val, length) && Share(es[i].val, es[i + 1].val, length)
  {
    ShareStops(es, length, b, i, i + 1);
  }

  lemma InheritedStep(es: seq<Entry>, i: nat, length: nat, l0: nat, r0: nat, l: nat, r: nat)
    requires WellFormed(es) && i + 1 < |es| && Cursor(es, i, length, l0, r0) && Inherited(es, i, length, l0)
    requires Extension(es, i, l0, r0, l, r) && exists short :: Settled(es, i, l, short)
    ensures Inherited(es, i + 1, length, if i >= r then length else l)
  {
    hide Share, WellFormed;
    if i < r {
      InheritedStays(es, i, length, l0, r0, l, r);
    } else {
      forall b: nat | b < i + 1 && Share(es[b].val, es[i + 1].val, length) ensures !Reaches(es, b, length + 1) {
        RunBetween(es, b, i, length);
        ResetIsRight(es, i, length, l0, r0, l, r, b);
      }
    }
  }

  // Inside a run the minimum is kept.
  lemma InheritedStays(es: seq<Entry>, i: nat, length: nat, l0: nat, r0: nat, l: nat, r: nat)
    requires WellFormed(es) && i + 1 < |es| && Cursor(es, i, length, l0, r0) && Inherited(es, i, length, l0)
    requires Extension(es, i, l0, r0, l, r) && (exists short :: Settled(es, i, l, short)) && i < r
    ensures Inherited(es, i + 1, length, l)
  {
    hide WellFormed;
    assert !Reaches(es, i, l + 1);
    forall b: nat | b < i && Share(es[b].val, es[i + 1].val, length) ensures !Reaches(es, b, l + 1) {
      RunBetween(es, b, i, length);
      if Reaches(es, b, l + 1) {
        ReachesLess(es, b, l + 1, l0 + 1);
      }
    }
    if l > l0 {
      ShareLess(es[i].val, es[i + 1].val, l - 1, length);
      assert Share(es[i].val, es[i + 1].val, length) && Reaches(es, i, l);
    } else if l0 > length {
      var b: nat :| b < i && Share(es[b].val, es[i].val, length) && Reaches(es, b, l);
      assert Share(es[i - 1].val, es[i + 1].val, length);
      RunBetween(es, i - 1, i, length);
      ShareTransitive(es[b].val, es[i].val, es[i + 1].val, length);
    }
  }

  // Where the minimum is reset, no earlier entry of the run has reached beyond it.
  lemma ResetIsRight(es: seq<Entry>, i: nat, length: nat, l0: nat, r0: nat, l: nat, r: nat, b: nat)
    requires WellFormed(es) && i + 1 < |es| && Cursor(es, i, length, l0, r0)
    requires Extension(es, i, l0, r0, l, r) && (exists short :: Settled(es, i, l, short)) && r <= i
    requires b <= i && Share(es[b].val, es[i].val, length) && Share(es[i].val, es[i + 1].val, length)
    ensures !Reaches(es, b, length + 1)
  {
    if InRun(es, i, length, r0) {
      ShareTransitive(es[i - 1].val, es[i].val, es[i + 1].val, length);
      assert false;
    } else {
      assert l == l0;
      assert |es[i].val| == length;
      if b < i {
        EntriesDifferByDigest(es, b, i);
        PrefixAtMost(es[i].val, es[b].val);
        EntryAtMost(es, b, i);
        LessTotal(es[i].val, es[b].val);
      }
    }
  }

  // The code chosen for es[i] has the promised properties.
  lemma CodeOfEntry(es: seq<Entry>, i: nat, length: nat, l0: nat, r0: nat, l: nat, r: nat, short: string)
    requires WellFormed(es) && i < |es| && Cursor(es, i, length, l0, r0) && Inherited(es, i, length, l0)
    requires Extension(es, i, l0, r0, l, r) && Settled(es, i, l, short)
    ensures GoodCode(es, i, length, short)
  {
    hide WellFormed, Share, Inherited, Cursor;
    if i > 0 && AmbiguousAfter(es, i - 1, length) {
      AmbiguousMinimum(es, i - 1, length, l0);
      AmbiguousCode(es, i, l0, r0, l, r, short);
    } else if short != es[i].digest {
      forall j | 0 <= j < |es| && j != i ensures !(short <= es[j].val) {
        if short <= es[j].val {
          if j < i {
            CodeAvoidsPredecessor(es, i, length, l0, r0, l, r, short, j);
            assert false;
          } else {
            PrefixStops(es, short, i, i + 1, j);
          }
        }
      }
    }
    CodeHasShape(es, i, length, l0, r0, l, r, short);
  }

  lemma CodeHasShape(es: seq<Entry>, i: nat, length: nat, l0: nat, r0: nat, l: nat, r: nat, short: string)
    requires i < |es| && Cursor(es, i, length, l0, r0) && Extension(es, i, l0, r0, l, r) && Settled(es, i, l, short)
    ensures CodeShape(es[i], short, length)
  {
  }

  // Then the minimum for es[a + 1] is exactly the length of es[a]'s hex.
  lemma AmbiguousMinimum(es: seq<Entry>, a: nat, length: nat, l: nat)
    requires WellFormed(es) && AmbiguousAfter(es, a, length) && Inherited(es, a + 1, length, l)
    ensures l == |es[a].val|
  {
    hide WellFormed;
    var n := |es[a].val|;
    assert Share(es[a].val, es[a + 1].val, n);
    ShareLess(es[a].val, es[a + 1].val, n, length);
    if l < n {
      ShareLess(es[a].val, es[a + 1].val, n, l);
    } else if l > n {
      var b: nat :| b < a + 1 && Share(es[b].val, es[a + 1].val, length) && Reaches(es, b, l);
      if b < a {
        ReachesLess(es, b, l, n + 1);
        RunBetween(es, b, a, length);
      }
    }
  }

  // With that minimum its code is es[a]'s hex.
  lemma AmbiguousCode(es: seq<Entry>, i: nat, l0: nat, r0: nat, l: nat, r: nat, short: string)
    requires WellFormed(es) && 0 < i < |es| && LoneExtension(es, i - 1) && l0 == |es[i - 1].val|
    requires Extension(es, i, l0, r0, l, r) && Settled(es, i, l, short)
    ensures short == es[i - 1].val
  {
    EntriesDifferByDigest(es, i - 1, i);
    assert l == l0;
  }

  lemma CodeAvoidsPredecessor(es: seq<Entry>, i: nat, length: nat, l0: nat, r0: nat, l: nat, r: nat, short: string, j: nat)
    requires WellFormed(es) && j < i < |es| && Cursor(es, i, length, l0, r0) && Inherited(es, i, length, l0)
    requires Extension(es, i, l0, r0, l, r) && Settled(es, i, l, short) && short != es[i].digest
    requires short <= es[j].val
    ensures AmbiguousAfter(es, i - 1, length)
  {
    PrefixStops(es, short, j, i - 1, i);
    ShareLess(es[i - 1].val, es[i].val, l, l0);
    assert |es[i - 1].val| == l0 == l;
    if Passed(es, i - 1, length) {
      PassedIsInherited(es, i, length);
    }
  }

  lemma PassedIsInherited(es: seq<Entry>, i: nat, length: nat)
    requires 0 < i < |es| && Passed(es, i - 1, length) && length <= |es[i - 1].val|
    requires Share(es[i - 1].val, es[i].val, |es[i - 1].val|)
    ensures exists b: nat | b < i :: Share(es[b].val, es[i].val, length) && Reaches(es, b, |es[i - 1].val| + 1)
  {
    var b: nat :| b < i - 1 && Share(es[b].val, es[i - 1].val, length) && Reaches(es, b, |es[i - 1].val| + 1);
    ShareLess(es[i - 1].val, es[i].val, |es[i - 1].val|, length);
    ShareTransitive(es[b].val, es[i - 1].val, es[i].val, length);
  }

  // All that is promised of the code given to es[i].
  ghost predicate GoodCode(es: seq<Entry>, i: nat, length: nat, code: string)
    requires i < |es|
  {
    && CodeShape(es[i], code, length)
    && if i > 0 && AmbiguousAfter(es, i - 1, length) then code == es[i - 1].val else IdentifyingCode(es, i, code)
  }

  // The table holds the given codes for the first entries, and nothing else.
  ghost predicate Tabulated(es: seq<Entry>, codes: seq<string>, m: map<Digest, string>)
    requires |codes| <= |es|
  {
    && (forall k | 0 <= k < |codes| :: es[k].digest in m && m[es[k].digest] == codes[k])
    && (forall d | d in m :: exists k :: 0 <= k < |codes| && es[k].digest == d)
  }

  lemma TabulateOne(es: seq<Entry>, codes: seq<string>, m: map<Digest, string>, short: string)
    requires WellFormed(es) && |codes| < |es| && Tabulated(es, codes, m)
    ensures Tabulated(es, codes + [short], m[es[|codes|].digest := short])
  {
    var i := |codes|;
    forall k | 0 <= k < i ensures es[k].digest != es[i].digest {
      EntriesDifferByDigest(es, k, i);
    }
    forall d | d in m && d != es[i].digest ensures exists k :: 0 <= k < i + 1 && es[k].digest == d {
      var k :| 0 <= k < i && es[k].digest == d;
    }
  }

  // What looking up es[i]'s code gives.
  ghost function CodeAnswer(es: seq<Entry>, i: nat, length: nat): LookupResult
    requires i < |es|
  {
    if i > 0 && AmbiguousAfter(es, i - 1, length) then Ambiguous else Found(es[i].digest)
  }

  lemma GoodCodeAnswer(es: seq<Entry>, i: nat, length: nat, code: string)
    requires WellFormed(es) && i < |es| && GoodCode(es, i, length, code)
    ensures SearchAnswer(es, ParseQuery(code)) == CodeAnswer(es, i, length)
  {
    hide WellFormed, IdentifyingCode, SearchAnswer, ParseQuery, LoneExtension, Passed;
    if i > 0 && AmbiguousAfter(es, i - 1, length) {
      LoneCodeIsAmbiguous(es, i - 1);
    } else {
      IdentifyingCodeResolves(es, i, code);
    }
  }

  lemma TableIsGood(es: seq<Entry>, codes: seq<string>, m: map<Digest, string>, length: nat)
    requires WellFormed(es) && |codes| == |es| && Tabulated(es, codes, m)
    requires forall k | 0 <= k < |es| :: GoodCode(es, k, length, codes[k])
    ensures m.Keys == Contents(es)
    ensures forall i | 0 <= i < |es| ::
              && GoodCode(es, i, length, m[es[i].digest])
              && SearchAnswer(es, ParseQuery(m[es[i].digest])) == CodeAnswer(es, i, length)
  {
    hide WellFormed, GoodCode, SearchAnswer, ParseQuery, CodeAnswer;
    assert forall d | d in m :: d in Contents(es);
    forall d | d in Contents(es) ensures d in m {
      var k :| 0 <= k < |es| && es[k].digest == d;
    }
    forall i | 0 <= i < |es|
      ensures GoodCode(es, i, length, m[es[i].digest])
      ensures SearchAnswer(es, ParseQuery(m[es[i].digest])) == CodeAnswer(es, i, length)
    {
      assert m[es[i].digest] == codes[i];
      GoodCodeAnswer(es, i, length, codes[i]);
    }
  }

  // A lone extension is ambiguous at its hex's own length.
  lemma LoneIsAmbiguousAtOwnLength(es: seq<Entry>, a: nat)
    requires WellFormed(es) && LoneExtension(es, a)
    ensures AmbiguousAfter(es, a, |es[a].val|)
  {
    var n := |es[a].val|;
    if Passed(es, a, n) {
      var b: nat :| b < a && Share(es[b].val, es[a].val, n) && Reaches(es, b, n + 1);
      EntriesDifferByDigest(es, b, a);
      PrefixAtMost(es[a].val, es[b].val);
      EntryAtMost(es, b, a);
      LessTotal(es[a].val, es[b].val);
    }
  }

  // So all codes are good at every length exactly if the set has none.
  lemma AllCodesGoodExactly(es: seq<Entry>)
    requires WellFormed(es)
    ensures (forall length, i | 0 <= i < |es| :: CodeAnswer(es, i, length) == Found(es[i].digest)) <==> NoLoneExtension(es)
  {
    if a: nat :| LoneExtension(es, a) {
      LoneIsAmbiguousAtOwnLength(es, a);
      assert CodeAnswer(es, a + 1, |es[a].val|) == Ambiguous;
    }
  }

  class DigestSet {
    var entries: seq<Entry>

    ghost predicate IsValid()
      reads this
    {
      WellFormed(entries)
    }

    constructor ()
      ensures IsValid() && Contents(entries) == {}
    {
      entries := [];
    }

    // sort.Search: the first index at which f holds, if f never turns false again.
    static method Search(n: nat, f: int --> bool) returns (idx: nat)
      requires forall i | 0 <= i < n :: f.requires(i)
      requires forall i, j | 0 <= i < j < n && f(i) :: f(j)
      ensures idx <= n
      ensures forall i | 0 <= i < idx :: !f(i)
      ensures forall i | idx <= i < n :: f(i)
    {
      idx := 0;
      var j := n;
      while idx < j
        invariant 0 <= idx <= j <= n
        invariant forall i | 0 <= i < idx :: !f(i)
        invariant forall i | j <= i < n :: f(i)
      {
        var h := idx + (j - idx) / 2;
        if !f(h) {
          idx := h + 1;
        } else {
          j := h;
        }
      }
    }

    // The search Add, Remove and a qualified Lookup run.
    static method SearchKey(es: seq<Entry>, val: string, alg: string) returns (idx: nat)
      requires Sorted(es)
      ensures idx == LowerBound(es, Query(alg, val))
    {
      KeySearchIsMonotone(es, Query(alg, val));
      var f := i requires 0 <= i < |es| => NotBelow(es[i], val, alg);
      assert forall i | 0 <= i < |es| :: f(i) == NotBelow(es[i], val, alg);
      idx := Search(|es|, f);
      KeySearchIsLowerBound(es, Query(alg, val), idx);
    }

    // The search an unqualified Lookup runs.
    static method SearchValue(es: seq<Entry>, val: string) returns (idx: nat)
      requires Sorted(es)
      ensures idx == LowerBound(es, Query("", val))
    {
      ValueSearchIsMonotone(es, val);
      var f := i requires 0 <= i < |es| => AtMost(val, es[i].val);
      assert forall i | 0 <= i < |es| :: f(i) == AtMost(val, es[i].val);
      idx := Search(|es|, f);
      LowerBoundIs(es, Query("", val), idx);
    }

    method Lookup(s: string) returns (r: LookupResult)
      requires IsValid()
      ensures ScanAnswer(entries, ParseQuery(s), r) <==> MatchesInFront(entries, ParseQuery(s))
      ensures r == SearchAnswer(entries, ParseQuery(s))
    {
      SearchIsScan(entries, ParseQuery(s));
      if |entries| == 0 {
        return NotFound;
      }
      var es := entries;
      var alg, hex, idx;
      if Validate(s) == Some(InvalidFormat) {
        alg, hex := "", s;
        idx := SearchValue(es, s);
      } else {
        alg, hex := Algorithm(s), Hex(s);
        idx := SearchKey(es, hex, alg);
      }
      if idx == |es| || !CheckShortMatch(es[idx].alg, es[idx].val, alg, hex) {
        return NotFound;
      }
      if es[idx].alg == alg && es[idx].val == hex {
        return Found(es[idx].digest);
      }
      if idx + 1 < |es| && CheckShortMatch(es[idx + 1].alg, es[idx + 1].val, alg, hex) {
        return Ambiguous;
      }
      return Found(es[idx].digest);
    }

    method Add(d: Digest) returns (err: Option<DigestError>)
      requires IsValid()
      modifies this
      ensures IsValid()
      ensures err == Validate(d)
      ensures Contents(entries) == if err.None? then old(Contents(entries)) + {d} else old(Contents(entries))
    {
      err := Validate(d);
      if err.Some? {
        return;
      }
      var es := entries;
      var entry := EntryOf(d);
      var idx := SearchKey(es, entry.val, entry.alg);
      if idx == |es| {
        entries := es + [entry];
      } else if es[idx].digest == d {
        return;
      } else {
        entries := es[..idx] + [entry] + es[idx..];
      }
      assert entries == es[..idx] + [entry] + es[idx..];
      InsertKeepsOrder(es, entry, idx);
    }

    method Remove(d: Digest) returns (err: Option<DigestError>)
      requires IsValid()
      modifies this
      ensures IsValid()
      ensures err == Validate(d)
      ensures Contents(entries) == if err.None? then old(Contents(entries)) - {d} else old(Contents(entries))
    {
      err := Validate(d);
      if err.Some? {
        return;
      }
      var es := entries;
      var entry := EntryOf(d);
      var idx := SearchKey(es, entry.val, entry.alg);
      if idx == |es| || es[idx].digest != d {
        AbsentWhenNotAtLowerBound(es, d);
        return;
      }
      entries := es[..idx] + es[idx + 1..];
      DeleteKeepsOrder(es, idx);
    }

    method All() returns (ds: seq<Digest>)
      requires IsValid()
      ensures |ds| == |entries| && forall i | 0 <= i < |ds| :: ds[i] == entries[i].digest
      ensures (set d | d in ds) == Contents(entries)
      ensures forall i, j | 0 <= i < j < |ds| :: ds[i] != ds[j]
    {
      ds := [];
      for i := 0 to |entries|
        invariant |ds| == i && forall k | 0 <= k < i :: ds[k] == entries[k].digest
      {
        ds := ds + [entries[i].digest];
      }
      forall i, j | 0 <= i < j < |ds| ensures ds[i] != ds[j] {
        EntriesDifferByDigest(entries, i, j);
      }
      assert forall d | d in Contents(entries) :: exists i :: 0 <= i < |ds| && ds[i] == d;
    }

    // The loop of ShortCodeTable that lengthens one entry's code until the next
    // entry does not share it.
    static method ExtendCode(es: seq<Entry>, i: nat, l0: nat, r0: nat) returns (short: string, l: nat, resetIdx: nat)
      requires WellFormed(es) && i < |es|
      ensures Extension(es, i, l0, r0, l, resetIdx) && Settled(es, i, l, short)
    {
      short := "";
      var extended := true;
      l, resetIdx := l0, r0;
      while extended
        invariant Extension(es, i, l0, r0, l, resetIdx)
        invariant !extended ==> Settled(es, i, l, short)
        decreases if |es[i].val| > l then |es[i].val| - l else 0, extended
      {
        extended := false;
        if |es[i].val| <= l {
          short := es[i].digest;
        } else {
          short := es[i].val[..l];
          var j := i + 1;
          ghost var r := resetIdx;
          while j < |es|
            invariant i < j <= |es|
            invariant forall k {:trigger es[k]} | i < k < j :: Share(es[i].val, es[k].val, l)
            invariant j > i + 1 ==> j - 1 <= resetIdx
            invariant r <= resetIdx && (r == resetIdx || (i < resetIdx < j))
            invariant extended <==> j > i + 1
          {
            ShortMatchIsShare(es, i, j, l);
            if CheckShortMatch(es[j].alg, es[j].val, "", short) {
              if j > resetIdx {
                resetIdx := j;
              }
              extended := true;
            } else {
              break;
            }
            j := j + 1;
          }
          if extended {
            ExtensionStep(es, i, l0, r0, l, r, j, resetIdx);
            l := l + 1;
          }
        }
      }
    }

    // For every entry a code at least `length` long that Lookup resolves to it. The
    // exception is an entry after one whose hex begins its own and no other: its code
    // is that hex, and ambiguous, unless `length` is more or the minimum has passed it.
    method ShortCodeTable(length: nat) returns (m: map<Digest, string>)
      requires IsValid()
      ensures m.Keys == Contents(entries)
      ensures forall i | 0 <= i < |entries| ::
                && CodeShape(entries[i], m[entries[i].digest], length)
                && (if i > 0 && AmbiguousAfter(entries, i - 1, length) then m[entries[i].digest] == entries[i - 1].val
                    else IdentifyingCode(entries, i, m[entries[i].digest]))
      ensures forall i | 0 <= i < |entries| ::
                SearchAnswer(entries, ParseQuery(m[entries[i].digest])) ==
                  if i > 0 && AmbiguousAfter(entries, i - 1, length) then Ambiguous else Found(entries[i].digest)
    {
      hide IdentifyingCode, SearchAnswer, AmbiguousAfter, CodeShape, ParseQuery, WellFormed, Inherited, Cursor, Extension, Settled;
      m := map[];
      var es := entries;
      var l: nat := length;
      var resetIdx: nat := 0;
      var i: nat := 0;
      ghost var codes: seq<string> := [];
      if |es| > 0 {
        StartsKnowing(es, length);
      }
      while i < |es|
        invariant i == |codes| <= |es|
        invariant i < |es| ==> Cursor(es, i, length, l, resetIdx) && Inherited(es, i, length, l)
        invariant Tabulated(es, codes, m)
        invariant forall k | 0 <= k < |codes| :: GoodCode(es, k, length, codes[k])
      {
        ghost var l0, r0 := l, resetIdx;
        var short;
        short, l, resetIdx := ExtendCode(es, i, l, resetIdx);
        CodeOfEntry(es, i, length, l0, r0, l, resetIdx, short);
        TabulateOne(es, codes, m, short);
        m := m[es[i].digest := short];
        codes := codes + [short];
        CursorStep(es, i, length, l0, r0, l, resetIdx);
        if i + 1 < |es| {
          InheritedStep(es, i, length, l0, r0, l, resetIdx);
        }
        if i >= resetIdx {
          l := length;
        }
        i := i + 1;
      }
      TableIsGood(es, codes, m, length);
    }
  }
}
