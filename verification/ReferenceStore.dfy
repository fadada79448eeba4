// The reference store: tags and digests of repositories, with an index by image
// (docker/reference/store.go, docker/reference/reference.go).
module ReferenceStores {
  import opened Options
  import opened Strings

  type ImageID = string

  const DEFAULT_TAG := "latest"

  // A reference names a repository, and may have a tag or a digest.
  datatype Named = NameOnly(name: string) | Tagged(name: string, tag: string) | Canonical(name: string, digest: string)
  {
    function String(): string {
      match this
      case NameOnly(n) => n
      case Tagged(n, t) => n + ":" + t
      case Canonical(n, d) => n + "@" + d
    }

    // What the grammar of references guarantees of the parts.
    predicate WellFormed() {
      && '@' !in name
      && (Tagged? ==> ':' !in tag && '@' !in tag)
    }

    function WithDefaultTag(): Named {
      if NameOnly? then Tagged(name, DEFAULT_TAG) else this
    }

    // Complete references are those that can be stored.
    predicate IsKey() {
      WellFormed() && !NameOnly?
    }
  }

  // The string of a stored reference determines the reference.
  lemma StringIsInjective(a: Named, b: Named)
    requires a.IsKey() && b.IsKey() && a.String() == b.String()
    ensures a == b
  {
    if a.Tagged? && b.Tagged? {
      SplitAtLast(a.name, a.tag, b.name, b.tag, ':');
    } else if a.Canonical? && b.Canonical? {
      SplitAtFirst(a.name, a.digest, b.name, b.digest, '@');
    } else if a.Tagged? {
      NotIn(a, b);
    } else {
      NotIn(b, a);
    }
  }

  lemma NotIn(a: Named, b: Named)
    requires a.IsKey() && b.IsKey() && a.Tagged? && b.Canonical?
    ensures a.String() != b.String()
  {
    assert '@' !in a.String();
    assert b.String()[|b.name|] == '@';
  }

  lemma SplitAtFirst(x: string, y: string, x': string, y': string, c: char)
    requires c !in x && c !in x' && x + [c] + y == x' + [c] + y'
    ensures x == x' && y == y'
  {
    var s := x + [c] + y;
    assert s[|x|] == c && s[|x'|] == c;
    assert forall i | 0 <= i < |x| :: s[i] == x[i];
    assert forall i | 0 <= i < |x'| :: s[i] == x'[i];
    assert |x| == |x'|;
    assert x == s[..|x|] == x';
    assert y == s[|x| + 1..] == y';
  }

  lemma SplitAtLast(x: string, y: string, x': string, y': string, c: char)
    requires c !in y && c !in y' && x + [c] + y == x' + [c] + y'
    ensures x == x' && y == y'
  {
    var s := x + [c] + y;
    assert s[|x|] == c && s[|x'|] == c;
    assert forall i | |x| < i < |s| :: s[i] == y[i - |x| - 1];
    assert forall i | |x'| < i < |s| :: s[i] == y'[i - |x'| - 1];
    assert |x| == |x'|;
    assert x == s[..|x|] == x';
    assert y == s[|x| + 1..] == y';
  }

  // ---- The repository a stored string belongs to ----

  function LastIndexOf(s: string, c: char): (i: int)
    ensures -1 <= i < |s| && (i >= 0 ==> s[i] == c)
  {
    if s == "" || s[|s| - 1] == c then |s| - 1 else LastIndexOf(s[..|s| - 1], c)
  }

  function NameOf(s: string): string {
    var i := IndexOf(s, '@');
    if i < |s| then s[..i] else s[..if LastIndexOf(s, ':') < 0 then 0 else LastIndexOf(s, ':')]
  }

  lemma {:induction false} LastIndexOfSeparator(x: string, c: char, y: string)
    requires c !in y
    ensures LastIndexOf(x + [c] + y, c) == |x|
  {
    var s := x + [c] + y;
    if y != "" {
      LastIndexOfSeparator(x, c, y[..|y| - 1]);
      assert s[..|s| - 1] == x + [c] + y[..|y| - 1];
    }
  }

  // It is the reference's own name.
  lemma NameOfString(r: Named)
    requires r.IsKey()
    ensures NameOf(r.String()) == r.name
    ensures r.Canonical? <==> '@' in r.String()
  {
    var s := r.String();
    if r.Canonical? {
      IndexOfSeparator(r.name, '@', r.digest);
      assert s[|r.name|] == '@';
    } else {
      IndexOfAbsent(s, '@');
      LastIndexOfSeparator(r.name, ':', r.tag);
    }
  }

  // ---- Normalised names ----

  const DEFAULT_HOSTNAME := "docker.io"
  const LEGACY_DEFAULT_HOSTNAME := "index.docker.io"
  const DEFAULT_REPO_PREFIX := "library/"

  // The name starts with a host: its first component has a dot or a colon, or is "localhost".
  predicate HasHost(name: string) {
    var i := IndexOf(name, '/');
    i < |name| && ('.' in name[..i] || ':' in name[..i] || name[..i] == "localhost")
  }

  function SplitHostname(name: string): (string, string) {
    var i := IndexOf(name, '/');
    var host := if HasHost(name) then name[..i] else DEFAULT_HOSTNAME;
    var remote := if HasHost(name) then name[i + 1..] else name;
    var hostname := if host == LEGACY_DEFAULT_HOSTNAME then DEFAULT_HOSTNAME else host;
    (hostname, if hostname == DEFAULT_HOSTNAME && '/' !in remote then DEFAULT_REPO_PREFIX + remote else remote)
  }

  // References are ASCII.
  predicate IsLower(s: string) {
    forall i | 0 <= i < |s| :: !('A' <= s[i] <= 'Z')
  }

  function Normalize(name: string): Option<string> {
    var (host, remote) := SplitHostname(name);
    if !IsLower(remote) then None
    else if host != DEFAULT_HOSTNAME then Some(name)
    else if DEFAULT_REPO_PREFIX <= remote then Some(remote[|DEFAULT_REPO_PREFIX|..])
    else Some(remote)
  }

  // Nothing that normalising would strip.
  predicate IsNormal(name: string) {
    && !(DEFAULT_HOSTNAME + "/" <= name)
    && !(LEGACY_DEFAULT_HOSTNAME + "/" <= name)
    && !(DEFAULT_REPO_PREFIX <= name)
  }

  lemma HostIsPrefix(host: string, name: string)
    requires '/' !in host
    ensures host + "/" <= name <==> IndexOf(name, '/') < |name| && name[..IndexOf(name, '/')] == host
  {
    hide IndexOf;
    var i := IndexOf(name, '/');
    if host + "/" <= name {
      var rest := name[|host| + 1..];
      IndexOfSeparator(host, '/', rest);
      assert name == host + ['/'] + rest;
      assert i == |host|;
    }
    if i < |name| && name[..i] == host {
      assert name[..i + 1] == host + "/";
    }
  }

  lemma NoSlash(name: string)
    ensures '/' !in name <==> IndexOf(name, '/') == |name|
  {
    NoneBeforeIndex(name, '/');
    if '/' !in name {
      IndexOfAbsent(name, '/');
    }
  }

  // A name normalises to itself exactly if nothing of it would be stripped and what
  // is not the host is in lower case.
  lemma NormalExactly(name: string)
    ensures Normalize(name) == Some(name) <==> IsNormal(name) && IsLower(SplitHostname(name).1)
  {
    hide IndexOf;
    HostIsPrefix(DEFAULT_HOSTNAME, name);
    HostIsPrefix(LEGACY_DEFAULT_HOSTNAME, name);
    HostIsPrefix("library", name);
    NoSlash(name);
  }

  lemma LowerParts(s: string, i: nat)
    requires IsLower(s) && i <= |s|
    ensures IsLower(s[i..]) && IsLower(DEFAULT_REPO_PREFIX + s) && IsLower(DEFAULT_REPO_PREFIX + s[i..])
  {
  }

  lemma LowerRemote(name: string)
    requires IsLower(name)
    ensures IsLower(SplitHostname(name).1)
  {
    var i := if HasHost(name) then IndexOf(name, '/') + 1 else 0;
    LowerParts(name, i);
    hide IndexOf, HasHost, IsLower;
    assert name[0..] == name;
  }

  // A normalised name is in lower case behind its host; so it normalises to itself
  // exactly if nothing of it would be stripped.
  lemma NormalizedAgain(name: string, m: string)
    requires Normalize(m) == Some(name)
    ensures Normalize(name) == Some(name) <==> IsNormal(name)
  {
    hide SplitHostname, IsNormal;
    NormalExactly(name);
    if SplitHostname(m).0 == DEFAULT_HOSTNAME {
      LowerRemote(name);
    }
  }

  lemma LibraryIsStripped(rest: string)
    requires IsLower(rest)
    ensures Normalize(DEFAULT_REPO_PREFIX + rest) == Some(rest)
  {
    var name := "library" + ['/'] + rest;
    IndexOfSeparator("library", '/', rest);
    hide IndexOf;
    assert name[..7] == "library" && !HasHost(name);
    assert name == DEFAULT_REPO_PREFIX + rest && name[7] == '/' && name[8..] == rest;
    assert IsLower(name);
  }

  lemma HostIsStripped(host: string, rest: string)
    requires host == "docker.io" || host == "index.docker.io"
    requires IsLower(rest) && !(DEFAULT_REPO_PREFIX <= rest)
    ensures Normalize(host + "/" + rest) == Some(rest)
  {
    hide IndexOf, HasHost, SplitHostname, IsLower;
    assert '.' in DEFAULT_HOSTNAME && '.' in LEGACY_DEFAULT_HOSTNAME by {
      assert DEFAULT_HOSTNAME[6] == '.' && LEGACY_DEFAULT_HOSTNAME[5] == '.';
    }
    HostIsSplit(host, rest);
    LowerConstants();
    LowerOf(DEFAULT_REPO_PREFIX, rest);
    assert '/' !in rest ==> (DEFAULT_REPO_PREFIX + rest)[8..] == rest;
  }

  // A name that begins with a host.
  lemma HostIsSplit(host: string, rest: string)
    requires '/' !in host && ('.' in host || ':' in host || host == "localhost")
    ensures HasHost(host + "/" + rest)
    ensures var h := if host == LEGACY_DEFAULT_HOSTNAME then DEFAULT_HOSTNAME else host;
            SplitHostname(host + "/" + rest) ==
              (h, if h == DEFAULT_HOSTNAME && '/' !in rest then DEFAULT_REPO_PREFIX + rest else rest)
  {
    var name := host + ['/'] + rest;
    IndexOfSeparator(host, '/', rest);
    hide IndexOf;
    assert name == host + "/" + rest && name[..|host|] == host && name[|host| + 1..] == rest;
  }

  lemma LowerOf(s: string, t: string)
    ensures IsLower(s + t) <==> IsLower(s) && IsLower(t)
  {
    assert forall i | 0 <= i < |s| :: (s + t)[i] == s[i];
    assert forall i | 0 <= i < |t| :: (s + t)[|s| + i] == t[i];
  }

  lemma UpperIsSomewhere(s: string)
    ensures IsLower(s) <==> !exists c | c in s :: 'A' <= c <= 'Z'
  {
    if !IsLower(s) {
      var i :| 0 <= i < |s| && 'A' <= s[i] <= 'Z';
      assert s[i] in s;
    }
  }

  // Only what is a host may have upper case: a first component with a dot or a colon,
  // or "localhost".
  lemma RefusesExactly(first: string, rest: string)
    requires '/' !in first
    ensures Normalize(first).None? <==> exists c | c in first :: 'A' <= c <= 'Z'
    ensures Normalize(first + "/" + rest).None? <==>
              || (exists c | c in rest :: 'A' <= c <= 'Z')
              || (!('.' in first || ':' in first || first == "localhost") && exists c | c in first :: 'A' <= c <= 'Z')
  {
    hide SplitHostname, IsLower;
    UpperIsSomewhere(first);
    UpperIsSomewhere(rest);
    LowerConstants();
    LowerOf(DEFAULT_REPO_PREFIX, first);
    LowerOf(DEFAULT_REPO_PREFIX, rest);
    LowerOf(first, "/" + rest);
    LowerOf("/", rest);
    NoSlashSplit(first);
    assert first + "/" + rest == first + ("/" + rest);
    if '.' in first || ':' in first || first == "localhost" {
      HostIsSplit(first, rest);
    } else {
      NoHost(first, rest);
    }
  }

  lemma LowerConstants()
    ensures IsLower(DEFAULT_REPO_PREFIX) && IsLower("/")
  {
  }

  lemma NoSlashSplit(name: string)
    requires '/' !in name
    ensures SplitHostname(name) == (DEFAULT_HOSTNAME, DEFAULT_REPO_PREFIX + name)
  {
    NoSlash(name);
  }

  lemma NoHost(first: string, rest: string)
    requires '/' !in first && !('.' in first || ':' in first || first == "localhost")
    ensures !HasHost(first + "/" + rest) && SplitHostname(first + "/" + rest) == (DEFAULT_HOSTNAME, first + "/" + rest)
  {
    var name := first + ['/'] + rest;
    IndexOfSeparator(first, '/', rest);
    hide IndexOf;
    assert name == first + "/" + rest && name[..|first|] == first && name[|first|] == '/';
  }

  // The full name with its host, "docker.io/library/x" for "x".
  function FullName(name: string): string {
    SplitHostname(name).0 + "/" + SplitHostname(name).1
  }

  // It stands for the same repository.
  lemma FullNameIsSame(name: string)
    ensures SplitHostname(FullName(name)) == SplitHostname(name) && Normalize(FullName(name)) == Normalize(name)
  {
    var (host, remote) := SplitHostname(name);
    SplitParts(name);
    HostIsSplit(host, remote);
    hide IndexOf, SplitHostname, HasHost;
  }

  lemma SplitParts(name: string)
    ensures var (host, remote) := SplitHostname(name);
            && '/' !in host && ('.' in host || ':' in host || host == "localhost") && host != LEGACY_DEFAULT_HOSTNAME
            && (host == DEFAULT_HOSTNAME ==> '/' in remote)
            && (host != DEFAULT_HOSTNAME ==> name == host + "/" + remote)
  {
    assert DEFAULT_HOSTNAME[6] == '.' && DEFAULT_REPO_PREFIX[7] == '/';
    if HasHost(name) {
      HostIsThere(name);
    }
  }

  lemma HostIsThere(name: string)
    requires HasHost(name)
    ensures var i := IndexOf(name, '/');
            i < |name| && '/' !in name[..i] && name == name[..i] + "/" + name[i + 1..]
  {
    NoneBeforeIndex(name, '/');
    CutAt(name, IndexOf(name, '/'));
  }

  lemma CutAt(name: string, i: nat)
    requires i < |name|
    ensures name == name[..i] + [name[i]] + name[i + 1..]
  {
  }

  // Each prefix is stripped once, so what is stored can have one left.
  lemma NormalizedOnlyOnce()
    ensures Normalize("library/library/x") == Some("library/x") && Normalize("library/x") == Some("x")
    ensures Normalize("docker.io/docker.io/x") == Some("docker.io/x") && Normalize("docker.io/x") == Some("x")
  {
    hide Normalize;
    LibraryIsStripped("library/x");
    LibraryIsStripped("x");
    assert "docker.io/x"[0] == 'd' && "x"[0] == 'x';
    HostIsStripped("docker.io", "docker.io/x");
    HostIsStripped("docker.io", "x");
    assert DEFAULT_REPO_PREFIX + "library/x" == "library/library/x" && DEFAULT_REPO_PREFIX + "x" == "library/x";
    assert DEFAULT_HOSTNAME + "/" + "docker.io/x" == "docker.io/docker.io/x" && DEFAULT_HOSTNAME + "/" + "x" == "docker.io/x";
  }

  // A name that is not an image ID and that the grammar accepts.
  predicate ValidName(name: string, accepts: string -> bool) {
    !(|name| == 64 && forall c | c in name :: '0' <= c <= '9' || 'a' <= c <= 'f') && accepts(name)
  }

  // ParseNamed. `grammar` takes a string apart, a reference with a tag and a digest
  // being one with the digest.
  function ParseNamed(s: string, grammar: string -> Option<Named>, accepts: string -> bool): Option<Named> {
    match grammar(s)
    case None => None
    case Some(r) =>
      match Normalize(r.name)
      case None => None
      case Some(name) => if ValidName(name, accepts) then Some(r.(name := name)) else None
  }

  // No name is what could be an image ID, so that no reference is taken for one.
  lemma NoNameIsImageID(s: string, grammar: string -> Option<Named>, accepts: string -> bool)
    ensures var r := ParseNamed(s, grammar, accepts);
            r.Some? && |r.value.name| == 64 ==> exists c | c in r.value.name :: !('0' <= c <= '9' || 'a' <= c <= 'f')
  {
  }

  // The string of a reference that was made by ParseNamed or WithName.
  ghost predicate IsStored(s: string, grammar: string -> Option<Named>, accepts: string -> bool) {
    && grammar(s).Some? && grammar(s).value.IsKey() && grammar(s).value.String() == s
    && ValidName(grammar(s).value.name, accepts)
    && exists m :: Normalize(m) == Some(grammar(s).value.name)
  }

  predicate Reparses(s: string, parse: string -> Option<Named>) {
    parse(s).Some? && parse(s).value.String() == s
  }

  lemma ReparsesExactly(s: string, grammar: string -> Option<Named>, accepts: string -> bool)
    requires IsStored(s, grammar, accepts)
    ensures Reparses(s, t => ParseNamed(t, grammar, accepts)) <==> IsNormal(NameOf(s))
  {
    hide Normalize, IsNormal, ValidName, NameOf;
    var r := grammar(s).value;
    var m :| Normalize(m) == Some(r.name);
    NormalizedAgain(r.name, m);
    NameOfString(r);
    var name := Normalize(r.name);
    if name.Some? && r.(name := name.value).String() == s {
      PrintsNameFirst(r, name.value);
    }
  }

  lemma PrintsNameFirst(r: Named, name: string)
    requires r.(name := name).String() == r.String()
    ensures name == r.name
  {
    var r' := r.(name := name);
    assert |r'.String()| - |name| == |r.String()| - |r.name|;
    assert r'.String()[..|name|] == name && r.String()[..|r.name|] == r.name;
  }

  // ---- Repositories and the cache as values ----

  type Repository = map<string, ImageID>

  // Every string is stored under its own repository, and no repository is empty.
  ghost predicate WellKeyed(repos: map<string, Repository>) {
    forall n | n in repos :: repos[n] != map[] && forall s | s in repos[n] :: NameOf(s) == n
  }

  predicate Has(repos: map<string, Repository>, n: string, s: string) {
    n in repos && s in repos[n]
  }

  // What the store is for: which image each reference stands for.
  ghost function Bindings(repos: map<string, Repository>): (b: map<string, ImageID>)
    ensures forall s :: s in b <==> Has(repos, NameOf(s), s)
    ensures forall s | s in b :: Has(repos, NameOf(s), s) && b[s] == repos[NameOf(s)][s]
  {
    var keys := set n, s | n in repos && s in repos[n] && NameOf(s) == n :: s;
    map s | s in keys :: repos[NameOf(s)][s]
  }

  function PutRef(repos: map<string, Repository>, n: string, s: string, id: ImageID): map<string, Repository> {
    repos[n := (if n in repos then repos[n] else map[])[s := id]]
  }

  function DropRef(repos: map<string, Repository>, n: string, s: string): map<string, Repository>
    requires n in repos
  {
    var left := repos[n] - {s};
    if left == map[] then repos - {n} else repos[n := left]
  }

  lemma PutAt(repos: map<string, Repository>, n: string, s: string, id: ImageID, m: string, t: string)
    ensures var repos' := PutRef(repos, n, s, id);
            && (Has(repos', m, t) <==> (m == n && t == s) || Has(repos, m, t))
            && (Has(repos', m, t) ==> repos'[m][t] == if m == n && t == s then id else repos[m][t])
  {
  }

  lemma PutBinds(repos: map<string, Repository>, s: string, id: ImageID)
    requires WellKeyed(repos)
    ensures WellKeyed(PutRef(repos, NameOf(s), s, id)) && Bindings(PutRef(repos, NameOf(s), s, id)) == Bindings(repos)[s := id]
  {
    hide NameOf, Has;
    var repos', n := PutRef(repos, NameOf(s), s, id), NameOf(s);
    assert WellKeyed(repos') by {
      assert s in repos'[n];
    }
    hide PutRef, Bindings;
    forall t ensures t in Bindings(repos') <==> t == s || t in Bindings(repos) {
      PutAt(repos, n, s, id, NameOf(t), t);
    }
    forall t | t in Bindings(repos') ensures Bindings(repos')[t] == Bindings(repos)[s := id][t] {
      PutAt(repos, n, s, id, NameOf(t), t);
    }
  }

  lemma DropAt(repos: map<string, Repository>, n: string, s: string, m: string, t: string)
    requires Has(repos, n, s)
    ensures var repos' := DropRef(repos, n, s);
            && (Has(repos', m, t) <==> !(m == n && t == s) && Has(repos, m, t))
            && (Has(repos', m, t) ==> repos'[m][t] == repos[m][t])
  {
    var left := repos[n] - {s};
    assert t != s && t in repos[n] ==> t in left;
  }

  lemma DropKeepsKeyed(repos: map<string, Repository>, s: string)
    requires WellKeyed(repos) && Has(repos, NameOf(s), s)
    ensures WellKeyed(DropRef(repos, NameOf(s), s))
  {
    hide NameOf;
  }

  lemma DropUnbinds(repos: map<string, Repository>, s: string)
    requires WellKeyed(repos) && Has(repos, NameOf(s), s)
    ensures WellKeyed(DropRef(repos, NameOf(s), s)) && Bindings(DropRef(repos, NameOf(s), s)) == Bindings(repos) - {s}
  {
    DropKeepsKeyed(repos, s);
    DropLeaves(repos, s);
  }

  lemma DropLeaves(repos: map<string, Repository>, s: string)
    requires Has(repos, NameOf(s), s)
    ensures Bindings(DropRef(repos, NameOf(s), s)) == Bindings(repos) - {s}
  {
    var n := NameOf(s);
    var repos', b := DropRef(repos, n, s), Bindings(repos);
    var b' := Bindings(repos');
    hide Bindings, Has, DropRef, NameOf;
    forall t ensures t in b' <==> t != s && t in b {
      DropAt(repos, n, s, NameOf(t), t);
    }
    assert b'.Keys == (b - {s}).Keys;
    forall t | t in b' ensures b'[t] == b[t] {
      DropAt(repos, n, s, NameOf(t), t);
    }
  }

  type Cache = map<ImageID, map<string, Named>>

  predicate Cached(cache: Cache, id: ImageID, s: string) {
    id in cache && s in cache[id]
  }

  // The cache is the exact inverse of the bindings, under the references' own strings.
  ghost predicate IsInverse(b: map<string, ImageID>, cache: Cache) {
    && (forall id | id in cache :: cache[id] != map[])
    && (forall id, s {:trigger Cached(cache, id, s)} :: Cached(cache, id, s) <==> s in b && b[s] == id)
    && (forall id, s {:trigger cache[id][s]} | id in cache && s in cache[id] :: cache[id][s].String() == s)
  }

  function PutCached(cache: Cache, id: ImageID, r: Named): Cache {
    cache[id := (if id in cache then cache[id] else map[])[r.String() := r]]
  }

  function DropCached(cache: Cache, id: ImageID, s: string): Cache {
    if id !in cache then cache
    else
      var left := cache[id] - {s};
      if left == map[] then cache - {id} else cache[id := left]
  }

  lemma PutKeepsInverse(b: map<string, ImageID>, cache: Cache, r: Named, id: ImageID)
    requires IsInverse(b, cache) && r.String() !in b
    ensures IsInverse(b[r.String() := id], PutCached(cache, id, r))
  {
    var s, cache' := r.String(), PutCached(cache, id, r);
    assert !Cached(cache, id, s);
    forall i, t ensures Cached(cache', i, t) <==> (if t == s then i == id else Cached(cache, i, t)) {
      assert t == s ==> !Cached(cache, i, t);
    }
  }

  lemma DropKeepsInverse(b: map<string, ImageID>, cache: Cache, s: string)
    requires IsInverse(b, cache) && s in b
    ensures IsInverse(b - {s}, DropCached(cache, b[s], s))
  {
    var cache' := DropCached(cache, b[s], s);
    assert Cached(cache, b[s], s);
    var left := cache[b[s]] - {s};
    assert left == map[] ==> left.Keys == {};
    forall i, t ensures Cached(cache', i, t) <==> t != s && Cached(cache, i, t) {
      assert Cached(cache, i, t) && t == s ==> i == b[s];
      assert i == b[s] && t != s && Cached(cache, i, t) ==> t in left;
    }
  }

  // ---- Listing and reloading ----

  // The place sort.Sort gives a reference among sorted ones.
  function InsertSorted(refs: seq<Named>, r: Named): seq<Named> {
    if refs == [] then [r]
    else if Less(r.String(), refs[0].String()) then [r] + refs
    else [refs[0]] + InsertSorted(refs[1..], r)
  }

  ghost predicate Ascending(refs: seq<Named>) {
    forall i, j | 0 <= i < j < |refs| :: Less(refs[i].String(), refs[j].String())
  }

  ghost function StringsOf(refs: seq<Named>): set<string> {
    set r | r in refs :: r.String()
  }

  lemma InsertedStrings(refs: seq<Named>, r: Named)
    requires forall q :: q in InsertSorted(refs, r) <==> q == r || q in refs
    ensures StringsOf(InsertSorted(refs, r)) == StringsOf(refs) + {r.String()}
  {
    assert r in InsertSorted(refs, r);
    forall q | q in refs ensures q.String() in StringsOf(InsertSorted(refs, r)) {
      assert q in InsertSorted(refs, r);
    }
  }

  lemma {:induction false} InsertedIsAscending(refs: seq<Named>, r: Named)
    requires Ascending(refs) && forall q | q in refs :: q.String() != r.String()
    ensures Ascending(InsertSorted(refs, r))
    ensures forall q :: q in InsertSorted(refs, r) <==> q == r || q in refs
  {
    if refs != [] {
      if Less(r.String(), refs[0].String()) {
        forall j | 0 < j < |refs| ensures Less(r.String(), refs[j].String()) {
          LessTransitive(r.String(), refs[0].String(), refs[j].String());
        }
      } else {
        var rest := InsertSorted(refs[1..], r);
        InsertedIsAscending(refs[1..], r);
        LessTotal(r.String(), refs[0].String());
        assert refs[0] in refs;
        forall j | 0 <= j < |rest| ensures Less(refs[0].String(), rest[j].String()) {
          assert rest[j] in rest;
        }
        assert refs == [refs[0]] + refs[1..];
      }
    }
  }

  // The cache as reload fills it, once it has seen some of the bindings.
  ghost predicate FilledFrom(seen: map<string, ImageID>, parse: string -> Option<Named>, cache: Cache) {
    && (forall id | id in cache :: cache[id] != map[])
    && (forall id, s {:trigger Cached(cache, id, s)} :: Cached(cache, id, s) <==> s in seen && seen[s] == id && parse(s).Some?)
    && (forall id, s {:trigger cache[id][s]} | id in cache && s in cache[id] :: parse(s) == Some(cache[id][s]))
  }

  lemma FilledOneMore(seen: map<string, ImageID>, parse: string -> Option<Named>, cache: Cache, s: string, id: ImageID)
    requires FilledFrom(seen, parse, cache) && s !in seen
    ensures FilledFrom(seen[s := id], parse,
                       if parse(s).None? then cache
                       else cache[id := (if id in cache then cache[id] else map[])[s := parse(s).value]])
  {
    if parse(s).Some? {
      var cache' := cache[id := (if id in cache then cache[id] else map[])[s := parse(s).value]];
      assert !Cached(cache, id, s);
      forall i, t ensures Cached(cache', i, t) <==> (if t == s then i == id else Cached(cache, i, t)) {
        assert t == s ==> !Cached(cache, i, t);
      }
    }
  }

  // The filled cache is the inverse of the bindings exactly if every stored string
  // parses, and to a reference that prints as it.
  lemma FilledIsInverse(b: map<string, ImageID>, parse: string -> Option<Named>, cache: Cache)
    requires FilledFrom(b, parse, cache)
    ensures IsInverse(b, cache) <==> forall s | s in b :: Reparses(s, parse)
  {
    if IsInverse(b, cache) {
      forall s | s in b ensures Reparses(s, parse) {
        assert Cached(cache, b[s], s);
        assert cache[b[s]][s].String() == s;
      }
    }
    if forall s | s in b :: Reparses(s, parse) {
      forall id, s | id in cache && s in cache[id] ensures cache[id][s].String() == s {
        assert Cached(cache, id, s) && Reparses(s, parse);
      }
    }
  }

  // ---- The store ----

  datatype AddResult = Added | Unsaved | RefusedDigestAsTag | AmbiguousName | DigestExists | TagExists

  const CANONICAL := "sha256"

  // What adding a reference does to the bindings.
  function AddSpec(b: map<string, ImageID>, ref: Named, id: ImageID, force: bool, unsaved: bool): (map<string, ImageID>, AddResult) {
    var s := ref.String();
    if ref.name == CANONICAL then (b, AmbiguousName)
    else if s in b && ref.Canonical? then (b, DigestExists)
    else if s in b && !force then (b, TagExists)
    else (b[s := id], if unsaved then Unsaved else Added)
  }

  // One call of a store's user; `unsaved` says that writing the file fails.
  datatype Op =
    | AddTag(ref: Named, id: ImageID, force: bool, unsaved: bool)
    | AddDigest(ref: Named, id: ImageID, force: bool, unsaved: bool)
    | Delete(ref: Named, unsaved: bool)
  {
    predicate Legal() {
      ref.WellFormed() && (AddDigest? ==> ref.Canonical?)
    }

    // The stored reference it is about.
    function Key(): string {
      ref.WithDefaultTag().String()
    }
  }

  function After(b: map<string, ImageID>, op: Op): map<string, ImageID> {
    match op
    case AddTag(ref, id, force, unsaved) => if ref.Canonical? then b else AddSpec(b, ref.WithDefaultTag(), id, force, unsaved).0
    case AddDigest(ref, id, force, unsaved) => AddSpec(b, ref, id, force, unsaved).0
    case Delete(_, _) => b - {op.Key()}
  }

  function AfterAll(b: map<string, ImageID>, ops: seq<Op>): map<string, ImageID> {
    if ops == [] then b else After(AfterAll(b, ops[..|ops| - 1]), ops[|ops| - 1])
  }

  // Without force no binding changes, whatever is added; a tag that is bound is refused.
  lemma UnforcedKeeps(b: map<string, ImageID>, op: Op)
    requires op.Legal() && !op.Delete? && !op.force
    ensures forall s | s in b :: s in After(b, op) && After(b, op)[s] == b[s]
    ensures After(b, op).Keys <= b.Keys + {op.Key()}
    ensures op.AddTag? && op.ref.Tagged? && op.Key() in b && op.ref.name != "sha256" ==>
              AddSpec(b, op.ref, op.id, false, op.unsaved) == (b, TagExists)
  {
  }

  // A bare name stands for its tag "latest".
  lemma BareNameIsLatest(b: map<string, ImageID>, name: string, id: ImageID, force: bool, unsaved: bool)
    ensures After(b, AddTag(NameOnly(name), id, force, unsaved)) == After(b, AddTag(Tagged(name, "latest"), id, force, unsaved))
    ensures After(b, Delete(NameOnly(name), unsaved)) == b - {name + ":latest"}
  {
    assert name + ":" + "latest" == name + ":latest";
  }

  // With force a tag has the new image, bound before or not, and nothing else changes.
  lemma ForcedBinds(b: map<string, ImageID>, op: Op)
    requires op.Legal() && op.AddTag? && op.force && !op.ref.Canonical? && op.ref.name != "sha256"
    ensures After(b, op) == b[op.Key() := op.id]
  {
  }

  // So a tag keeps its image through any calls but deleting it and forcing another on it.
  lemma {:induction false} TagStays(b: map<string, ImageID>, ops: seq<Op>, tag: Named)
    requires tag.IsKey() && tag.Tagged? && tag.String() in b
    requires forall op | op in ops :: op.Legal() && (op.Key() == tag.String() ==> !op.Delete? && !op.force)
    ensures tag.String() in AfterAll(b, ops) && AfterAll(b, ops)[tag.String()] == b[tag.String()]
  {
    hide Op.Legal, Op.Key, After;
    if ops != [] {
      var op := ops[|ops| - 1];
      TagStays(b, ops[..|ops| - 1], tag);
      assert op in ops;
      OtherKeyStays(AfterAll(b, ops[..|ops| - 1]), op, tag.String());
      if op.Key() == tag.String() {
        UnforcedKeeps(AfterAll(b, ops[..|ops| - 1]), op);
      }
    }
  }

  lemma OtherKeyStays(b: map<string, ImageID>, op: Op, s: string)
    requires op.Legal() && s in b
    ensures op.Key() != s ==> s in After(b, op) && After(b, op)[s] == b[s]
  {
  }

  // However tags are forced, a digest reference keeps its image until it is deleted.
  lemma {:induction false} DigestStays(b: map<string, ImageID>, ops: seq<Op>, d: Named)
    requires d.IsKey() && d.Canonical? && d.String() in b
    requires forall op | op in ops :: op.Legal() && !(op.Delete? && op.Key() == d.String())
    ensures d.String() in AfterAll(b, ops) && AfterAll(b, ops)[d.String()] == b[d.String()]
  {
    hide Op.Legal, Op.Key, After;
    if ops != [] {
      DigestStays(b, ops[..|ops| - 1], d);
      assert ops[|ops| - 1] in ops;
      DigestStaysOnce(AfterAll(b, ops[..|ops| - 1]), ops[|ops| - 1], d);
    }
  }

  lemma DigestStaysOnce(b: map<string, ImageID>, op: Op, d: Named)
    requires d.IsKey() && d.Canonical? && d.String() in b && op.Legal() && !(op.Delete? && op.Key() == d.String())
    ensures d.String() in After(b, op) && After(b, op)[d.String()] == b[d.String()]
  {
    if !op.Delete? && op.Key() == d.String() {
      StringIsInjective(op.ref.WithDefaultTag(), d);
    }
  }

  class ReferenceStore {
    var Repositories: map<string, Repository>
    var referencesByIDCache: Cache
    // What the file holds.
    var file: map<string, Repository>

    ghost predicate Valid()
      reads this
    {
      WellKeyed(Repositories) && WellKeyed(file) && IsInverse(Bindings(Repositories), referencesByIDCache)
    }

    constructor ()
      ensures Valid() && Bindings(Repositories) == map[]
    {
      Repositories, referencesByIDCache, file := map[], map[], map[];
    }

    method Save(unsaved: bool) returns (ok: bool)
      modifies this`file
      ensures ok == !unsaved && file == if ok then Repositories else old(file)
    {
      if !unsaved {
        file := Repositories;
      }
      return !unsaved;
    }

    method AddTag(ref: Named, id: ImageID, force: bool, unsaved: bool) returns (r: AddResult)
      requires Valid() && ref.WellFormed()
      modifies this
      ensures Valid()
      ensures ref.Canonical? ==> r == RefusedDigestAsTag && Bindings(Repositories) == old(Bindings(Repositories))
      ensures !ref.Canonical? ==>
                (Bindings(Repositories), r) == AddSpec(old(Bindings(Repositories)), ref.WithDefaultTag(), id, force, unsaved)
      // A tag that is bound needs force, and then gets the new image.
      ensures !ref.Canonical? && ref.name == "sha256" ==> r == AmbiguousName && Bindings(Repositories) == old(Bindings(Repositories))
      ensures !ref.Canonical? && ref.name != "sha256" ==>
                var s := ref.WithDefaultTag().String();
                if s in old(Bindings(Repositories)) && !force then
                  r == TagExists && Bindings(Repositories) == old(Bindings(Repositories))
                else
                  r == (if unsaved then Unsaved else Added) && Bindings(Repositories) == old(Bindings(Repositories))[s := id]
      ensures file == if r == Added then Repositories else old(file)
    {
      if ref.Canonical? {
        return RefusedDigestAsTag;
      }
      r := AddReference(ref.WithDefaultTag(), id, force, unsaved);
    }

    method AddDigest(ref: Named, id: ImageID, force: bool, unsaved: bool) returns (r: AddResult)
      requires Valid() && ref.WellFormed() && ref.Canonical?
      modifies this
      ensures Valid()
      ensures (Bindings(Repositories), r) == AddSpec(old(Bindings(Repositories)), ref, id, force, unsaved)
      ensures file == if r == Added then Repositories else old(file)
    {
      r := AddReference(ref, id, force, unsaved);
    }

    method AddReference(ref: Named, id: ImageID, force: bool, unsaved: bool) returns (r: AddResult)
      requires Valid() && ref.IsKey()
      modifies this
      ensures Valid()
      ensures (Bindings(Repositories), r) == AddSpec(old(Bindings(Repositories)), ref, id, force, unsaved)
      // The name of a digest algorithm is refused, and so is a digest that is bound; a
      // tag that is bound needs force, and then gets the new image.
      ensures ref.name == "sha256" ==> r == AmbiguousName && Bindings(Repositories) == old(Bindings(Repositories))
      ensures ref.name != "sha256" && ref.String() in old(Bindings(Repositories)) && (ref.Canonical? || !force) ==>
                r == (if ref.Canonical? then DigestExists else TagExists) && Bindings(Repositories) == old(Bindings(Repositories))
      ensures ref.name != "sha256" && !(ref.String() in old(Bindings(Repositories)) && (ref.Canonical? || !force)) ==>
                && r == (if unsaved then Unsaved else Added)
                && Bindings(Repositories) == old(Bindings(Repositories))[ref.String() := id]
      ensures file == if r == Added then Repositories else old(file)
    {
      hide IsInverse, WellKeyed, NameOf, Bindings, PutCached, DropCached;
      if ref.name == CANONICAL {
        return AmbiguousName;
      }
      NameOfString(ref);
      var repository: Repository := if ref.name in Repositories then Repositories[ref.name] else map[];
      var refStr := ref.String();
      ghost var b := Bindings(Repositories);
      if refStr in repository {
        var oldID := repository[refStr];
        if ref.Canonical? {
          return DigestExists;
        }
        if !force {
          return TagExists;
        }
        DropKeepsInverse(b, referencesByIDCache, refStr);
        referencesByIDCache := DropCached(referencesByIDCache, oldID, refStr);
      } else {
        assert b - {refStr} == b;
      }
      PutKeepsInverse(b - {refStr}, referencesByIDCache, ref, id);
      PutBinds(Repositories, refStr, id);
      assert (b - {refStr})[refStr := id] == b[refStr := id];
      Repositories := Repositories[ref.name := repository[refStr := id]];
      referencesByIDCache := PutCached(referencesByIDCache, id, ref);
      var ok := Save(unsaved);
      return if ok then Added else Unsaved;
    }

    method Delete(ref: Named, unsaved: bool) returns (deleted: bool, ok: bool)
      requires Valid() && ref.WellFormed()
      modifies this
      ensures Valid() && deleted == (ref.WithDefaultTag().String() in old(Bindings(Repositories)))
      ensures Bindings(Repositories) == old(Bindings(Repositories)) - {ref.WithDefaultTag().String()}
      ensures ok == (deleted && !unsaved) && file == if ok then Repositories else old(file)
    {
      hide IsInverse, WellKeyed, NameOf, Bindings, DropRef, DropCached;
      var r := ref.WithDefaultTag();
      var refStr := r.String();
      NameOfString(r);
      ghost var b := Bindings(Repositories);
      if r.name !in Repositories || refStr !in Repositories[r.name] {
        assert b - {refStr} == b;
        return false, false;
      }
      var id := Repositories[r.name][refStr];
      DropUnbinds(Repositories, refStr);
      DropKeepsInverse(b, referencesByIDCache, refStr);
      Repositories := DropRef(Repositories, r.name, refStr);
      referencesByIDCache := DropCached(referencesByIDCache, id, refStr);
      ok := Save(unsaved);
      return true, ok;
    }

    method Get(ref: Named) returns (id: Option<ImageID>)
      requires Valid() && ref.WellFormed()
      ensures var s := ref.WithDefaultTag().String();
              id == if s in Bindings(Repositories) then Some(Bindings(Repositories)[s]) else None
    {
      var r := ref.WithDefaultTag();
      NameOfString(r);
      if r.name !in Repositories || r.String() !in Repositories[r.name] {
        return None;
      }
      return Some(Repositories[r.name][r.String()]);
    }

    // Any sequence of calls does to the bindings what it should, and keeps the cache
    // their inverse.
    method Run(ops: seq<Op>)
      requires Valid() && forall op | op in ops :: op.Legal()
      modifies this
      ensures Valid() && Bindings(Repositories) == AfterAll(old(Bindings(Repositories)), ops)
    {
      hide IsInverse, WellKeyed, Bindings, NameOf;
      for i := 0 to |ops|
        invariant Valid() && Bindings(Repositories) == AfterAll(old(Bindings(Repositories)), ops[..i])
      {
        assert ops[..i + 1][..i] == ops[..i];
        assert ops[i] in ops;
        match ops[i] {
          case AddTag(ref, id, force, unsaved) =>
            var r := AddTag(ref, id, force, unsaved);
          case AddDigest(ref, id, force, unsaved) =>
            var r := AddDigest(ref, id, force, unsaved);
          case Delete(ref, unsaved) =>
            var deleted, ok := Delete(ref, unsaved);
        }
      }
      assert ops[..|ops|] == ops;
    }

    // The references to an image, in the order of their strings.
    method References(id: ImageID) returns (refs: seq<Named>)
      requires Valid()
      ensures Ascending(refs)
      ensures StringsOf(refs) == set s | s in Bindings(Repositories) && Bindings(Repositories)[s] == id
    {
      hide WellKeyed, Bindings, NameOf, Less;
      refs := [];
      if id in referencesByIDCache {
        refs := Sorted(referencesByIDCache[id]);
      }
      forall s ensures Cached(referencesByIDCache, id, s) <==> s in Bindings(Repositories) && Bindings(Repositories)[s] == id {
      }
    }

    static method Sorted(references: map<string, Named>) returns (refs: seq<Named>)
      requires forall s | s in references :: references[s].String() == s
      ensures Ascending(refs) && StringsOf(refs) == references.Keys
    {
      refs := [];
      var todo := references.Keys;
      while todo != {}
        invariant todo <= references.Keys && Ascending(refs)
        invariant StringsOf(refs) == references.Keys - todo
      {
        var s :| s in todo;
        forall q | q in refs ensures q.String() != s {
          assert q.String() in StringsOf(refs);
        }
        InsertedIsAscending(refs, references[s]);
        InsertedStrings(refs, references[s]);
        refs := InsertSorted(refs, references[s]);
        todo := todo - {s};
      }
    }

    // reload in a new store: the cache is filled from the file. Of references that were
    // parsed or named when they were stored, it is right exactly if no name has a prefix
    // left that normalising strips.
    method Reload(grammar: string -> Option<Named>, accepts: string -> bool)
      requires WellKeyed(file)
      modifies this`Repositories, this`referencesByIDCache
      ensures Repositories == file && FilledFrom(Bindings(file), s => ParseNamed(s, grammar, accepts), referencesByIDCache)
      ensures Valid() <==> forall s | s in Bindings(file) :: Reparses(s, t => ParseNamed(t, grammar, accepts))
      ensures (forall s | s in Bindings(file) :: IsStored(s, grammar, accepts)) ==>
                (Valid() <==> forall s | s in Bindings(file) :: IsNormal(NameOf(s)))
    {
      var parse := s => ParseNamed(s, grammar, accepts);
      hide NameOf, FilledFrom, IsInverse, WellKeyed, Bindings, IsStored, Reparses, IsNormal, ParseNamed;
      Repositories, referencesByIDCache := file, map[];
      ghost var seen: map<string, ImageID> := map[];
      NothingFilled(parse);
      var names := Repositories.Keys;
      while names != {}
        invariant Repositories == file && names <= Repositories.Keys && FilledFrom(seen, parse, referencesByIDCache)
        invariant forall s :: s in seen <==> s in Bindings(file) && NameOf(s) !in names
        invariant forall s | s in seen :: seen[s] == Bindings(file)[s]
        decreases |names|
      {
        var n :| n in names;
        seen := ReloadRepository(n, parse, seen);
        names := names - {n};
      }
      assert seen == Bindings(file);
      FilledIsInverse(seen, parse, referencesByIDCache);
      if forall s | s in Bindings(file) :: IsStored(s, grammar, accepts) {
        forall s | s in Bindings(file) ensures Reparses(s, parse) <==> IsNormal(NameOf(s)) {
          ReparsesExactly(s, grammar, accepts);
        }
      }
    }

    method ReloadRepository(n: string, parse: string -> Option<Named>, ghost seen: map<string, ImageID>) returns (ghost seen': map<string, ImageID>)
      requires WellKeyed(Repositories) && n in Repositories && FilledFrom(seen, parse, referencesByIDCache)
      requires forall s | s in seen :: NameOf(s) != n
      modifies this`referencesByIDCache
      ensures FilledFrom(seen', parse, referencesByIDCache)
      ensures forall s :: s in seen' <==> s in seen || (s in Bindings(Repositories) && NameOf(s) == n)
      ensures forall s | s in seen' :: seen'[s] == if s in seen then seen[s] else Bindings(Repositories)[s]
    {
      hide NameOf, FilledFrom, Bindings;
      var repository := Repositories[n];
      seen' := seen;
      var todo := repository.Keys;
      while todo != {}
        invariant todo <= repository.Keys && FilledFrom(seen', parse, referencesByIDCache)
        invariant forall s :: s in seen' <==> s in seen || (s in repository && s !in todo)
        invariant forall s | s in seen' :: seen'[s] == if s in seen then seen[s] else repository[s]
      {
        var refStr :| refStr in todo;
        var refID, ref := repository[refStr], parse(refStr);
        FilledOneMore(seen', parse, referencesByIDCache, refStr, refID);
        seen' := seen'[refStr := refID];
        todo := todo - {refStr};
        if ref.Some? {
          var refs := if refID in referencesByIDCache then referencesByIDCache[refID] else map[];
          referencesByIDCache := referencesByIDCache[refID := refs[refStr := ref.value]];
        }
      }
      forall s ensures s in repository <==> s in Bindings(Repositories) && NameOf(s) == n {
      }
    }
  }

  lemma NothingFilled(parse: string -> Option<Named>)
    ensures FilledFrom(map[], parse, map[])
  {
  }
}
