/** The layout of the storage backend: every object has a path, and every path stands for one object. */
module Paths {
  import opened Text
  import opened Numerals
  import opened Digests
  import opened PathOrder

  // ---- path.Join and path.Clean ----

  /** The components joined by separators. */
  function JoinWith(cs: seq<string>): string {
    if cs == [] then [] else if |cs| == 1 then cs[0] else cs[0] + (['/'] + JoinWith(cs[1..]))
  }

  /** Drops empty and `.` components and lets `..` take the component before it away. */
  function CleanStack(cs: seq<string>, rooted: bool, stack: seq<string>): seq<string> {
    if cs == [] then stack
    else if cs[0] == "" || cs[0] == "." then CleanStack(cs[1..], rooted, stack)
    else if cs[0] == ".." && stack != [] &&
        stack[|stack| - 1] != ".." then CleanStack(cs[1..], rooted, stack[..|stack| - 1])
    else if cs[0] == ".." && rooted then CleanStack(cs[1..], rooted, stack)
    else CleanStack(cs[1..], rooted, stack + [cs[0]])
  }

  function Clean(p: string): string {
    if p != [] && p[0] == '/' then ['/'] + JoinWith(CleanStack(Components(p), true, []))
    else
      var out := CleanStack(Components(p), false, []);
      if out == [] then "." else JoinWith(out)
  }

  function NonEmpty(elems: seq<string>): seq<string> {
    if elems == [] then [] else (if elems[0] == "" then [] else [elems[0]]) + NonEmpty(elems[1..])
  }

  function Join(elems: seq<string>): string {
    if NonEmpty(elems) == [] then "" else Clean(JoinWith(NonEmpty(elems)))
  }

  /** A component that cleaning leaves alone. */
  predicate Plain(c: string) {
    c != "" && c != "." && c != ".." && '/' !in c
  }

  predicate AllPlain(cs: seq<string>) {
    forall i :: 0 <= i < |cs| ==> Plain(cs[i])
  }

  lemma {:induction false} ComponentsOfPlain(c: string)
    requires '/' !in c
    ensures Components(c) == [c]
  {
    if c != [] {
      assert forall i :: 0 <= i < |c[1..]| ==> c[1..][i] == c[i + 1];
      ComponentsOfPlain(c[1..]);
      assert c == [c[0]] + c[1..];
    }
  }

  lemma {:induction false} ComponentsCons(c: char, rest: string, ca: seq<string>, cb: seq<string>)
    requires Components(rest) == ca + cb && ca != []
    ensures Components([c] + rest) == (if c == '/' then [[]] + ca else [[c] + ca[0]] + ca[1..]) + cb
  { }

  /** A separator splits a text into the components of its two sides. */
  lemma {:induction false} ComponentsSplit(a: string, b: string)
    ensures Components(a + (['/'] + b)) == Components(a) + Components(b)
  {
    if a == [] {
      assert a + (['/'] + b) == ['/'] + b && (['/'] + b)[1..] == b;
      assert Components(a) == [[]];
    } else {
      var rest := a[1..] + (['/'] + b);
      ComponentsSplit(a[1..], b);
      ComponentsCons(a[0], rest, Components(a[1..]), Components(b));
      assert [a[0]] + rest == a + (['/'] + b);
    }
  }

  /** Splitting undoes joining. */
  lemma {:induction false} ComponentsOfJoin(cs: seq<string>)
    requires cs != [] && forall i :: 0 <= i < |cs| ==> '/' !in cs[i]
    ensures Components(JoinWith(cs)) == cs
    decreases |cs|
  {
    ComponentsOfPlain(cs[0]);
    if |cs| == 1 { assert cs == [cs[0]]; }
    else {
      ComponentsSplit(cs[0], JoinWith(cs[1..]));
      ComponentsOfJoin(cs[1..]);
      assert cs == [cs[0]] + cs[1..];
    }
  }

  /** Joining undoes splitting, and components hold no separator. */
  lemma {:induction false} JoinOfComponents(s: string)
    ensures JoinWith(Components(s)) == s
    ensures forall i :: 0 <= i < |Components(s)| ==> '/' !in Components(s)[i]
  {
    if s != [] {
      JoinOfComponents(s[1..]);
      var cs, rest := Components(s), Components(s[1..]);
      if s[0] == '/' {
        assert cs[1..] == rest;
      } else {
        assert cs[1..] == rest[1..];
        if |rest| > 1 { assert [s[0]] + rest[0] + (['/'] + JoinWith(rest[1..])) ==
            [s[0]] + (rest[0] + (['/'] + JoinWith(rest[1..]))); }
      }
      assert s == [s[0]] + s[1..];
    }
  }

  lemma {:induction false} JoinConcat(a: seq<string>, b: seq<string>)
    requires a != [] && b != []
    ensures JoinWith(a + b) == JoinWith(a) + (['/'] + JoinWith(b))
    decreases |a|
  {
    assert (a + b)[1..] == a[1..] + b;
    if |a| > 1 {
      JoinConcat(a[1..], b);
      assert a[0] + (['/'] + (JoinWith(a[1..]) + (['/'] + JoinWith(b)))) ==
          a[0] + (['/'] + JoinWith(a[1..])) + (['/'] + JoinWith(b));
    } else {
      assert a[1..] + b == b;
    }
  }

  lemma {:induction false} CleanOfPlain(cs: seq<string>, rooted: bool, stack: seq<string>)
    requires forall i :: 0 <= i < |cs| ==> cs[i] == "" || Plain(cs[i])
    ensures CleanStack(cs, rooted, stack) == stack + NonEmpty(cs)
    decreases |cs|
  {
    if cs == [] { assert stack + [] == stack; }
    else {
      var next := if cs[0] == "" then stack else stack + [cs[0]];
      CleanOfPlain(cs[1..], rooted, next);
      if cs[0] != "" { assert stack + [cs[0]] + NonEmpty(cs[1..]) == stack + ([cs[0]] + NonEmpty(cs[1..])); }
      else { assert [] + NonEmpty(cs[1..]) == NonEmpty(cs[1..]); }
    }
  }

  /** All the components of a list of elements that may themselves hold separators. */
  function Flatten(elems: seq<string>): seq<string> {
    if elems == [] then [] else Components(elems[0]) + Flatten(elems[1..])
  }

  lemma {:induction false} ComponentsOfElements(elems: seq<string>)
    requires elems != []
    ensures Components(JoinWith(elems)) == Flatten(elems)
    decreases |elems|
  {
    if |elems| == 1 { assert Flatten(elems[1..]) == []; }
    else {
      ComponentsSplit(elems[0], JoinWith(elems[1..]));
      ComponentsOfElements(elems[1..]);
    }
  }

  lemma {:induction false} NonEmptyConcat(a: seq<string>, b: seq<string>)
    ensures NonEmpty(a + b) == NonEmpty(a) + NonEmpty(b)
  {
    if a == [] { assert a + b == b && NonEmpty(a) == []; }
    else {
      assert (a + b)[1..] == a[1..] + b;
      NonEmptyConcat(a[1..], b);
      var h: seq<string> := if a[0] == "" then [] else [a[0]];
      assert h + (NonEmpty(a[1..]) + NonEmpty(b)) == h + NonEmpty(a[1..]) + NonEmpty(b);
    }
  }

  lemma {:induction false} NonEmptyOfPlain(cs: seq<string>)
    requires AllPlain(cs)
    ensures NonEmpty(cs) == cs
  {
    if cs != [] { NonEmptyOfPlain(cs[1..]); }
  }

  // ---- the objects and their paths ----

  datatype Spec =
    | ManifestRevisions(name: string)
    | ManifestRevision(name: string, revision: string)
    | ManifestRevisionLink(name: string, revision: string)
    | ManifestTags(name: string)
    | ManifestTag(name: string, tag: string)
    | ManifestTagCurrent(name: string, tag: string)
    | ManifestTagIndex(name: string, tag: string)
    | ManifestTagIndexEntry(name: string, tag: string, revision: string)
    | ManifestTagIndexEntryLink(name: string, tag: string, revision: string)
    | LayerLink(name: string, digest: string)
    | Blobs
    | BlobDir(digest: string)
    | BlobData(digest: string)
    | UploadData(name: string, id: string)
    | UploadStartedAt(name: string, id: string)
    | UploadHashState(name: string, id: string, alg: string, offset: nat)
    | UploadHashStates(name: string, id: string, alg: string)
    | RepositoriesRoot
    | RepositoryRoot(name: string)

  datatype PathResult = Path(path: string) | Refused(error: ParseError)

  function RootAt(a: string, b: string): string {
    ['/'] + (a + (['/'] + (b + ['/'])))
  }

  /** The root of all paths, `/docker/registry/`, and the prefixes built on it. */
  function StorageRoot(): string {
    RootAt("docker", "registry")
  }

  function RootPrefix(): seq<string> {
    [StorageRoot(), "v2"]
  }

  function RepoPrefix(): seq<string> {
    [StorageRoot(), "v2", "repositories"]
  }

  /** Characters of an algorithm name that separate directories. */
  function AlgorithmDir(alg: string): string {
    if alg == [] then []
    else [if alg[0] == '+' || alg[0] == '.' || alg[0] == ';' then '/' else alg[0]] + AlgorithmDir(alg[1..])
  }

  function DigestParts(d: string, multilevel: bool): seq<string>
    requires IsValid(d)
  {
    [AlgorithmDir(Algorithm(d))] + (if multilevel then [Hex(d)[..2]] else []) + [Hex(d)]
  }

  function ErrorOf(d: string): ParseError
    requires !IsValid(d)
  {
    Validate(d).error
  }

  function Extend(root: PathResult, more: seq<string>): PathResult {
    if root.Path? then Path(Join([root.path] + more)) else root
  }

  /**
   How the path of an object is made: refused for its digest, by joining elements below the
   repositories or below the root, by joining in two steps, or below the path of another object.
   */
  datatype Recipe =
    | Refuse(error: ParseError)
    | InRepos(elems: seq<string>)
    | InRoot(elems: seq<string>)
    | Twice(elems: seq<string>, more: seq<string>)
    | Below(base: Spec, more: seq<string>)

  function RecipeOf(spec: Spec): Recipe {
    match spec
    case ManifestRevisions(name) => InRepos([name, "_manifests", "revisions"])
    case ManifestRevision(name, revision) =>
      if !IsValid(revision) then Refuse(ErrorOf(revision))
      else InRepos([name, "_manifests", "revisions"] + DigestParts(revision, false))
    case ManifestRevisionLink(name, revision) => Below(ManifestRevision(name, revision), ["link"])
    case ManifestTags(name) => InRepos([name, "_manifests", "tags"])
    case ManifestTag(name, tag) => Below(ManifestTags(name), [tag])
    case ManifestTagCurrent(name, tag) => Below(ManifestTag(name, tag), ["current", "link"])
    case ManifestTagIndex(name, tag) => Below(ManifestTag(name, tag), ["index"])
    case ManifestTagIndexEntry(name, tag, revision) =>
      if !IsValid(revision) then Refuse(ErrorOf(revision))
      else Below(ManifestTagIndex(name, tag), [Join(DigestParts(revision, false))])
    case ManifestTagIndexEntryLink(name, tag, revision) => Below(ManifestTagIndexEntry(name, tag, revision), ["link"])
    case LayerLink(name, digest) =>
      if !IsValid(digest) then Refuse(ErrorOf(digest))
      else Twice([name, "_layers"] + DigestParts(digest, false), ["link"])
    case Blobs => InRoot(["blobs"])
    case BlobDir(digest) =>
      if !IsValid(digest) then Refuse(ErrorOf(digest)) else InRoot(["blobs"] + DigestParts(digest, true))
    case BlobData(digest) =>
      if !IsValid(digest) then Refuse(ErrorOf(digest)) else InRoot(["blobs"] + (DigestParts(digest, true) + ["data"]))
    case UploadData(name, id) => InRepos([name, "_uploads", id, "data"])
    case UploadStartedAt(name, id) => InRepos([name, "_uploads", id, "startedat"])
    case UploadHashState(name, id, alg, offset) => InRepos([name, "_uploads", id, "hashstates", alg, Decimal(offset)])
    case UploadHashStates(name, id, alg) => InRepos([name, "_uploads", id, "hashstates", alg, ""])
    case RepositoriesRoot => InRoot(["repositories"])
    case RepositoryRoot(name) => InRepos([name])
  }

  function Nesting(spec: Spec): nat {
    match spec
    case ManifestRevisionLink(_, _) => 1
    case ManifestTag(_, _) => 1
    case ManifestTagCurrent(_, _) => 2
    case ManifestTagIndex(_, _) => 2
    case ManifestTagIndexEntry(_, _, _) => 3
    case ManifestTagIndexEntryLink(_, _, _) => 4
    case _ => 0
  }

  /** The path of an object, or the error of its digest. */
  function PathFor(spec: Spec): PathResult
    decreases Nesting(spec)
  {
    match RecipeOf(spec)
    case Refuse(error) => Refused(error)
    case InRepos(elems) => Path(Join(RepoPrefix() + elems))
    case InRoot(elems) => Path(Join(RootPrefix() + elems))
    case Twice(elems, more) => Path(Join([Join(RepoPrefix() + elems)] + more))
    case Below(base, more) => Extend(PathFor(base), more)
  }

  predicate IsAlnum(c: char) {
    'a' <= c <= 'z' || 'A' <= c <= 'Z' || '0' <= c <= '9'
  }

  /** Repository names are components that start with a letter or digit. */
  predicate ValidName(name: string) {
    forall i :: 0 <= i < |Components(name)| ==> Components(name)[i] != [] && IsAlnum(Components(name)[i][0])
  }

  /** Tags, upload ids and algorithm names are single components that start with a letter, digit or underscore. */
  predicate ValidLabel(t: string) {
    t != [] && '/' !in t && (IsAlnum(t[0]) || t[0] == '_')
  }

  predicate ValidSpec(spec: Spec) {
    match spec
    case ManifestRevisions(name) => ValidName(name)
    case ManifestRevision(name, revision) => ValidName(name) && IsValid(revision)
    case ManifestRevisionLink(name, revision) => ValidName(name) && IsValid(revision)
    case ManifestTags(name) => ValidName(name)
    case ManifestTag(name, tag) => ValidName(name) && ValidLabel(tag)
    case ManifestTagCurrent(name, tag) => ValidName(name) && ValidLabel(tag)
    case ManifestTagIndex(name, tag) => ValidName(name) && ValidLabel(tag)
    case ManifestTagIndexEntry(name, tag, revision) => ValidName(name) && ValidLabel(tag) && IsValid(revision)
    case ManifestTagIndexEntryLink(name, tag, revision) => ValidName(name) && ValidLabel(tag) && IsValid(revision)
    case LayerLink(name, digest) => ValidName(name) && IsValid(digest)
    case Blobs => true
    case BlobDir(digest) => IsValid(digest)
    case BlobData(digest) => IsValid(digest)
    case UploadData(name, id) => ValidName(name) && ValidLabel(id)
    case UploadStartedAt(name, id) => ValidName(name) && ValidLabel(id)
    case UploadHashState(name, id, alg, offset) => ValidName(name) && ValidLabel(id) && ValidLabel(alg)
    case UploadHashStates(name, id, alg) => ValidName(name) && ValidLabel(id) && ValidLabel(alg)
    case RepositoriesRoot => true
    case RepositoryRoot(name) => ValidName(name)
  }

  const ROOT := ["docker", "registry", "v2"]
  const REPOS := ["docker", "registry", "v2", "repositories"]

  /** The components that follow the repository name, or the fixed top directory for objects outside repositories. */
  function Tail(spec: Spec): seq<string> {
    match spec
    case ManifestRevisions(_) => ["_manifests", "revisions"]
    case ManifestRevision(_, r) => ["_manifests", "revisions", Algorithm(r), Hex(r)]
    case ManifestRevisionLink(_, r) => ["_manifests", "revisions", Algorithm(r), Hex(r), "link"]
    case ManifestTags(_) => ["_manifests", "tags"]
    case ManifestTag(_, t) => ["_manifests", "tags", t]
    case ManifestTagCurrent(_, t) => ["_manifests", "tags", t, "current", "link"]
    case ManifestTagIndex(_, t) => ["_manifests", "tags", t, "index"]
    case ManifestTagIndexEntry(_, t, r) => ["_manifests", "tags", t, "index", Algorithm(r), Hex(r)]
    case ManifestTagIndexEntryLink(_, t, r) => ["_manifests", "tags", t, "index", Algorithm(r), Hex(r), "link"]
    case LayerLink(_, d) => ["_layers", Algorithm(d), Hex(d), "link"]
    case Blobs => ["blobs"]
    case BlobDir(d) => ["blobs", Algorithm(d), Hex(d)[..if |Hex(d)| < 2 then |Hex(d)| else 2], Hex(d)]
    case BlobData(d) => ["blobs", Algorithm(d), Hex(d)[..if |Hex(d)| < 2 then |Hex(d)| else 2], Hex(d), "data"]
    case UploadData(_, id) => ["_uploads", id, "data"]
    case UploadStartedAt(_, id) => ["_uploads", id, "startedat"]
    case UploadHashState(_, id, alg, offset) => ["_uploads", id, "hashstates", alg, Decimal(offset)]
    case UploadHashStates(_, id, alg) => ["_uploads", id, "hashstates", alg]
    case RepositoriesRoot => ["repositories"]
    case RepositoryRoot(_) => []
  }

  predicate InRepository(spec: Spec) {
    !spec.Blobs? && !spec.BlobDir? && !spec.BlobData? && !spec.RepositoriesRoot?
  }

  /** All components of the path of an object. */
  function Parts(spec: Spec): seq<string> {
    if InRepository(spec) then REPOS + Components(spec.name) + Tail(spec)
    else ROOT + Tail(spec)
  }

  function Absolute(cs: seq<string>): string {
    ['/'] + JoinWith(cs)
  }

  // ---- the path is the components ----

  lemma {:induction false} FlattenConcat(a: seq<string>, b: seq<string>)
    ensures Flatten(a + b) == Flatten(a) + Flatten(b)
  {
    if a == [] { assert a + b == b && Flatten(a) == []; }
    else {
      assert (a + b)[1..] == a[1..] + b;
      FlattenConcat(a[1..], b);
      assert Components(a[0]) + (Flatten(a[1..]) + Flatten(b)) == Components(a[0]) + Flatten(a[1..]) + Flatten(b);
    }
  }

  lemma {:induction false} FlattenOfPlain(cs: seq<string>)
    requires AllPlain(cs)
    ensures Flatten(cs) == cs
  {
    if cs != [] {
      ComponentsOfPlain(cs[0]);
      FlattenOfPlain(cs[1..]);
      assert cs == [cs[0]] + cs[1..];
    }
  }

  /** Empty, or left alone by cleaning. */
  predicate AllTidy(cs: seq<string>) {
    forall i :: 0 <= i < |cs| ==> cs[i] == "" || Plain(cs[i])
  }

  lemma {:induction false} NonEmptyAll(elems: seq<string>)
    requires forall i :: 0 <= i < |elems| ==> elems[i] != ""
    ensures NonEmpty(elems) == elems
  {
    if elems != [] { NonEmptyAll(elems[1..]); }
  }

  /** Joining elements onto an absolute root lists all their components. */
  lemma {:induction false} JoinRooted(elems: seq<string>)
    requires elems != [] && (forall i :: 0 <= i < |elems| ==> elems[i] != "") && elems[0][0] == '/'
    requires AllTidy(Flatten(elems))
    ensures Join(elems) == Absolute(NonEmpty(Flatten(elems)))
  {
    NonEmptyAll(elems);
    var p := JoinWith(elems);
    assert p[0] == elems[0][0];
    ComponentsOfElements(elems);
    CleanOfPlain(Flatten(elems), true, []);
    assert [] + NonEmpty(Flatten(elems)) == NonEmpty(Flatten(elems));
  }

  lemma {:induction false} RootShape(a: string, b: string)
    requires '/' !in a && '/' !in b
    ensures Components(RootAt(a, b)) == [[], a, b, []]
  {
    var e: string := [];
    ComponentsOfPlain(e);
    ComponentsOfPlain(a);
    ComponentsOfPlain(b);
    ComponentsSplit(b, e);
    assert ['/'] + e == ['/'];
    ComponentsSplit(a, b + ['/']);
    ComponentsSplit(e, a + (['/'] + (b + ['/'])));
    assert e + (['/'] + (a + (['/'] + (b + ['/'])))) == RootAt(a, b);
  }

  lemma {:induction false} RootNonEmpty(a: string, b: string)
    requires a != [] && b != []
    ensures NonEmpty([[], a, b, []]) == [a, b]
  {
    var cs: seq<string> := [[], a, b, []];
    assert cs[1..] == [a, b, []] && cs[1..][1..] == [b, []] && cs[1..][1..][1..] == [[]] &&
        cs[1..][1..][1..][1..] == [];
    assert NonEmpty(cs[1..][1..][1..]) == [];
    assert NonEmpty(cs[1..][1..]) == [b];
    assert NonEmpty(cs[1..]) == [a, b];
  }

  lemma {:induction false} FlattenCons(x: string, more: seq<string>)
    ensures Flatten([x] + more) == Components(x) + Flatten(more)
  { }

  /** Elements on a root of two directories. */
  lemma {:induction false} JoinOnRoot(a: string, b: string, elems: seq<string>)
    requires Plain(a) && Plain(b)
    requires (forall i :: 0 <= i < |elems| ==> elems[i] != "") && AllPlain(Flatten(elems))
    ensures Join([RootAt(a, b)] + elems) == Absolute([a, b] + Flatten(elems))
  {
    var root: seq<string> := [[], a, b, []];
    RootShape(a, b);
    FlattenCons(RootAt(a, b), elems);
    JoinRooted([RootAt(a, b)] + elems);
    NonEmptyConcat(root, Flatten(elems));
    NonEmptyOfPlain(Flatten(elems));
    RootNonEmpty(a, b);
  }

  lemma {:induction false} AbsoluteComponents(cs: seq<string>)
    requires cs != [] && AllPlain(cs)
    ensures Components(Absolute(cs)) == [[]] + cs
  {
    var e: string := [];
    assert e + (['/'] + JoinWith(cs)) == Absolute(cs);
    ComponentsSplit(e, JoinWith(cs));
    ComponentsOfPlain(e);
    ComponentsOfJoin(cs);
  }

  lemma {:induction false} NonEmptyAfterRoot(cs: seq<string>)
    requires AllPlain(cs)
    ensures NonEmpty([[]] + cs) == cs
  {
    NonEmptyOfPlain(cs);
    var all: seq<string> := [[]] + cs;
    assert all[1..] == cs;
    assert [] + NonEmpty(cs) == cs;
  }

  /** Elements on an absolute path. */
  lemma {:induction false} JoinOnPath(cs: seq<string>, more: seq<string>)
    requires cs != [] && AllPlain(cs) && (forall i :: 0 <= i < |more| ==> more[i] != "") && AllPlain(Flatten(more))
    ensures Join([Absolute(cs)] + more) == Absolute(cs + Flatten(more))
  {
    AbsoluteComponents(cs);
    FlattenCons(Absolute(cs), more);
    assert [[]] + cs + Flatten(more) == [[]] + (cs + Flatten(more));
    JoinRooted([Absolute(cs)] + more);
    NonEmptyAfterRoot(cs + Flatten(more));
  }

  /** Plain elements on an absolute path. */
  lemma {:induction false} ExtendPlain(cs: seq<string>, more: seq<string>)
    requires cs != [] && AllPlain(cs) && AllPlain(more)
    ensures Extend(Path(Absolute(cs)), more) == Path(Absolute(cs + more))
  {
    FlattenOfPlain(more);
    JoinOnPath(cs, more);
  }

  lemma {:induction false} NameIsPlain(name: string)
    requires ValidName(name)
    ensures AllPlain(Components(name)) && name != []
  {
    JoinOfComponents(name);
  }

  lemma {:induction false} FlattenNamed(top: seq<string>, name: string, more: seq<string>)
    requires AllPlain(top) && ValidName(name) && AllPlain(more)
    ensures Flatten(top + ([name] + more)) == top + (Components(name) + more)
  {
    FlattenOfPlain(more);
    FlattenOfPlain(top);
    FlattenCons(name, more);
    FlattenConcat(top, [name] + more);
  }

  /** Elements below a repository of a two-level root. */
  lemma {:induction false} NamedPath(a: string, b: string, top: seq<string>, name: string, more: seq<string>)
    requires Plain(a) && Plain(b) && AllPlain(top) && ValidName(name) && AllPlain(more)
    ensures Join([RootAt(a, b)] + (top + ([name] + more))) == Absolute([a, b] + (top + (Components(name) + more)))
  {
    NameIsPlain(name);
    FlattenNamed(top, name, more);
    JoinOnRoot(a, b, top + ([name] + more));
  }

  lemma {:induction false} TopNamedPath(a: string, b: string, elems: seq<string>)
    requires Plain(a) && Plain(b) && AllPlain(elems)
    ensures Join([RootAt(a, b)] + elems) == Absolute([a, b] + elems)
  {
    FlattenOfPlain(elems);
    JoinOnRoot(a, b, elems);
  }

  lemma {:induction false} PlainAround(root: seq<string>, cs: seq<string>, more: seq<string>)
    requires AllPlain(root) && AllPlain(cs) && AllPlain(more)
    ensures AllPlain(root + cs + more)
  { }

  lemma {:induction false} RepoRegroup(root: string, a: string, b: string, v: string, r: string, name: string,
                                       cs: seq<string>, more: seq<string>)
    ensures [root, v, r] + ([name] + more) == [root] + ([v, r] + ([name] + more))
    ensures [a, b] + ([v, r] + (cs + more)) == [a, b, v, r] + cs + more
    ensures [root, v] + more == [root] + ([v] + more)
    ensures [a, b] + ([v] + more) == [a, b, v] + more
  { }

  lemma {:induction false} RootsArePlain()
    ensures AllPlain(ROOT) && AllPlain(REPOS)
  { }

  /** Elements below a repository. */
  lemma {:induction false} RepoPath(name: string, more: seq<string>)
    requires ValidName(name) && AllPlain(more)
    ensures Join(RepoPrefix() + ([name] + more)) == Absolute(REPOS + Components(name) + more)
    ensures AllPlain(REPOS + Components(name) + more)
  {
    RootsArePlain();
    NameIsPlain(name);
    PlainAround(REPOS, Components(name), more);
    NamedPath(REPOS[0], REPOS[1], [REPOS[2], REPOS[3]], name, more);
    RepoRegroup(StorageRoot(), REPOS[0], REPOS[1], REPOS[2], REPOS[3], name, Components(name), more);
  }

  /** Elements below the root itself. */
  lemma {:induction false} TopPath(more: seq<string>)
    requires AllPlain(more)
    ensures Join(RootPrefix() + more) == Absolute(ROOT + more) && AllPlain(ROOT + more)
  {
    RootsArePlain();
    TopNamedPath(ROOT[0], ROOT[1], [ROOT[2]] + more);
    RepoRegroup(StorageRoot(), ROOT[0], ROOT[1], ROOT[2], "", "", [], more);
  }

  lemma {:induction false} AlgorithmDirOfAvailable(alg: string)
    requires Available(alg)
    ensures AlgorithmDir(alg) == alg && Plain(alg)
  {
    AlgorithmDirSame(alg);
  }

  lemma {:induction false} AlgorithmDirSame(alg: string)
    requires forall i :: 0 <= i < |alg| ==> alg[i] != '+' && alg[i] != '.' && alg[i] != ';'
    ensures AlgorithmDir(alg) == alg
  {
    if alg != [] {
      AlgorithmDirSame(alg[1..]);
      assert alg == [alg[0]] + alg[1..];
    }
  }

  lemma {:induction false} LongIsPlain(c: string)
    requires |c| > 2 && '/' !in c
    ensures Plain(c)
  { }

  lemma {:induction false} PrefixIsPlain(c: string)
    requires |c| > 2 && (forall k :: 0 <= k < |c| ==> IsHex(c[k]))
    ensures Plain(c[..2])
  {
    assert IsHex(c[0]) && IsHex(c[1]);
    assert c[..2][0] == c[0] && c[..2][1] == c[1];
  }

  lemma {:induction false} DigestPartsPlain(d: string)
    requires IsValid(d)
    ensures DigestParts(d, false) == [Algorithm(d), Hex(d)] &&
      DigestParts(d, true) == [Algorithm(d), Hex(d)[..2], Hex(d)]
    ensures AllPlain([Algorithm(d), Hex(d)]) && AllPlain([Algorithm(d), Hex(d)[..2], Hex(d)])
  {
    ValidShape(d);
    LongIsPlain(Hex(d));
    PrefixIsPlain(Hex(d));
    AlgorithmDirOfAvailable(Algorithm(d));
  }

  // ---- every object lies at its components ----

  lemma {:induction false} LabelIsPlain(t: string)
    requires ValidLabel(t)
    ensures Plain(t)
  { }

  lemma {:induction false} DecimalIsPlain(n: nat)
    ensures Plain(Decimal(n))
  {
    assert '0' <= Decimal(n)[0] <= '9';
  }

  lemma {:induction false} WordsArePlain()
    ensures Plain("_manifests") && Plain("revisions") && Plain("tags") && Plain("current") && Plain("index") &&
      Plain("link")
    ensures Plain("_layers") && Plain("blobs") && Plain("data") && Plain("repositories")
    ensures Plain("_uploads") && Plain("startedat") && Plain("hashstates")
  { }

  predicate OfRevision(spec: Spec) {
    spec.ManifestRevisions? || spec.ManifestRevision? || spec.ManifestRevisionLink? || spec.LayerLink?
  }

  predicate OfTag(spec: Spec) {
    || spec.ManifestTags? || spec.ManifestTag? || spec.ManifestTagCurrent? || spec.ManifestTagIndex?
    || spec.ManifestTagIndexEntry? || spec.ManifestTagIndexEntryLink?
  }

  predicate OfUpload(spec: Spec) {
    spec.UploadData? || spec.UploadStartedAt? || spec.UploadHashState? || spec.UploadHashStates?
  }

  lemma {:induction false} DigestWords(d: string)
    requires IsValid(d)
    ensures Plain(Algorithm(d)) && Plain(Hex(d)) && |Hex(d)| >= 2 && Plain(Hex(d)[..2])
  { }

  lemma {:induction false} RevisionTail(spec: Spec)
    requires ValidSpec(spec) && OfRevision(spec)
    ensures AllPlain(Tail(spec))
  {
    WordsArePlain();
    if spec.LayerLink? { DigestWords(spec.digest); }
    else if !spec.ManifestRevisions? { DigestWords(spec.revision); }
  }

  lemma {:induction false} TagTail(spec: Spec)
    requires ValidSpec(spec) && OfTag(spec)
    ensures AllPlain(Tail(spec))
  {
    WordsArePlain();
    if !spec.ManifestTags? { LabelIsPlain(spec.tag); }
    if spec.ManifestTagIndexEntry? || spec.ManifestTagIndexEntryLink? { DigestWords(spec.revision); }
  }

  lemma {:induction false} UploadTail(spec: Spec)
    requires ValidSpec(spec) && OfUpload(spec)
    ensures AllPlain(Tail(spec))
  {
    WordsArePlain();
    LabelIsPlain(spec.id);
    if spec.UploadHashState? || spec.UploadHashStates? { LabelIsPlain(spec.alg); }
    if spec.UploadHashState? { DecimalIsPlain(spec.offset); }
  }

  lemma {:induction false} BlobTail(spec: Spec)
    requires ValidSpec(spec) && !InRepository(spec)
    ensures AllPlain(Tail(spec))
  {
    WordsArePlain();
    if spec.BlobDir? || spec.BlobData? { DigestWords(spec.digest); }
  }

  /** The components after the name are plain. */
  lemma {:induction false} TailIsPlain(spec: Spec)
    requires ValidSpec(spec)
    ensures AllPlain(Tail(spec))
  {
    if OfRevision(spec) { RevisionTail(spec); }
    else if OfTag(spec) { TagTail(spec); }
    else if OfUpload(spec) { UploadTail(spec); }
    else if !InRepository(spec) { BlobTail(spec); }
  }

  /** A recipe names the object's components: in one list, in two, or after those of the object it builds on. */
  ghost predicate Names(spec: Spec, recipe: Recipe) {
    match recipe
    case Refuse(_) => false
    case InRepos(elems) =>
      InRepository(spec) && (elems == [spec.name] + Tail(spec) || elems == [spec.name] + Tail(spec) + [""])
    case InRoot(elems) => !InRepository(spec) && elems == Tail(spec)
    case Twice(elems, more) =>
      InRepository(spec) && elems != [] && elems[0] == spec.name && more != [] &&
          elems + more == [spec.name] + Tail(spec)
    case Below(base, more) =>
      && InRepository(spec) && InRepository(base) && ValidSpec(base) && base.name == spec.name &&
          Nesting(base) < Nesting(spec)
      && exists ds :: Adds(more, ds) && Tail(spec) == Tail(base) + ds
  }

  lemma {:induction false} RevisionNames(spec: Spec)
    requires ValidSpec(spec) && OfRevision(spec)
    ensures Names(spec, RecipeOf(spec))
  {
    if spec.LayerLink? {
      DigestPartsPlain(spec.digest);
      Regroup(spec.name, "_layers", "", Algorithm(spec.digest), Hex(spec.digest), "link");
    } else if spec.ManifestRevision? {
      DigestPartsPlain(spec.revision);
      Regroup(spec.name, "_manifests", "revisions", Algorithm(spec.revision), Hex(spec.revision), "");
    } else if spec.ManifestRevisionLink? {
      WordsArePlain();
      assert Adds(["link"], ["link"]);
    }
  }

  lemma {:induction false} Regroup(name: string, a: string, b: string, alg: string, hex: string, link: string)
    ensures [name, a, b] + [alg, hex] == [name] + [a, b, alg, hex]
    ensures [name, a] + [alg, hex] + [link] == [name] + [a, alg, hex, link]
  { }

  lemma {:induction false} TagNames(spec: Spec)
    requires ValidSpec(spec) && OfTag(spec) && !spec.ManifestTagIndexEntry?
    ensures Names(spec, RecipeOf(spec))
  {
    WordsArePlain();
    if !spec.ManifestTags? {
      LabelIsPlain(spec.tag);
      var more := RecipeOf(spec).more;
      assert Adds(more, more) && Tail(spec) == Tail(RecipeOf(spec).base) + more;
    }
  }

  lemma {:induction false} BlobNames(spec: Spec)
    requires ValidSpec(spec) && !InRepository(spec)
    ensures Names(spec, RecipeOf(spec))
  {
    if spec.BlobDir? || spec.BlobData? { ValidShape(spec.digest); DigestPartsPlain(spec.digest); }
  }

  lemma {:induction false} RecipeNames(spec: Spec)
    requires ValidSpec(spec)
    ensures Names(spec, RecipeOf(spec))
  {
    if OfRevision(spec) { RevisionNames(spec); }
    else if spec.ManifestTagIndexEntry? { EntryNames(spec); }
    else if OfTag(spec) { TagNames(spec); }
    else if !InRepository(spec) { BlobNames(spec); }
  }

  lemma {:induction false} EntryNames(spec: Spec)
    requires ValidSpec(spec) && spec.ManifestTagIndexEntry?
    ensures Names(spec, RecipeOf(spec))
  {
    DigestPartsPlain(spec.revision);
    var ds := DigestParts(spec.revision, false);
    assert Tail(spec) == Tail(ManifestTagIndex(spec.name, spec.tag)) + ds;
  }

  /** A trailing empty element changes nothing. */
  lemma {:induction false} JoinIgnoresEmpty(elems: seq<string>)
    ensures Join(elems + [""]) == Join(elems)
  {
    var e: seq<string> := [""];
    NonEmptyConcat(elems, e);
    assert e[1..] == [];
    assert NonEmpty(e) == [];
    assert NonEmpty(elems) + [] == NonEmpty(elems);
  }

  /** Elements joined below a repository, a trailing empty one or not. */
  lemma {:induction false} InReposPath(name: string, tail: seq<string>, elems: seq<string>)
    requires ValidName(name) && AllPlain(tail) && (elems == [name] + tail || elems == [name] + tail + [""])
    ensures Join(RepoPrefix() + elems) == Absolute(REPOS + Components(name) + tail)
    ensures AllPlain(REPOS + Components(name) + tail)
  {
    RepoPath(name, tail);
    if elems != [name] + tail { SnocEmpty(RepoPrefix(), [name] + tail); }
  }

  lemma {:induction false} SnocEmpty(prefix: seq<string>, elems: seq<string>)
    ensures Join(prefix + (elems + [""])) == Join(prefix + elems)
  {
    JoinIgnoresEmpty(prefix + elems);
    assert prefix + elems + [""] == prefix + (elems + [""]);
  }

  /** Elements joined below a repository and then extended. */
  lemma {:induction false} TwicePath(name: string, tail: seq<string>, elems: seq<string>, more: seq<string>)
    requires ValidName(name) && AllPlain(tail) && elems != [] && elems[0] == name && elems + more == [name] + tail
    ensures Join([Join(RepoPrefix() + elems)] + more) == Absolute(REPOS + Components(name) + tail)
    ensures AllPlain(REPOS + Components(name) + tail)
  {
    var first, cs := elems[1..], REPOS + Components(name);
    TwoParts(name, tail, elems, more);
    RepoPath(name, first);
    RepoPath(name, tail);
    ExtendPlain(cs + first, more);
    assert cs + first + more == cs + (first + more);
  }

  lemma {:induction false} TwoParts(name: string, tail: seq<string>, elems: seq<string>, more: seq<string>)
    requires AllPlain(tail) && elems != [] && elems[0] == name && elems + more == [name] + tail
    ensures elems == [name] + elems[1..] && tail == elems[1..] + more && AllPlain(elems[1..]) && AllPlain(more)
  {
    var first := elems[1..];
    assert tail == (elems + more)[1..] == first + more;
    assert forall i :: 0 <= i < |first| ==> first[i] == tail[i];
    assert forall i :: 0 <= i < |more| ==> more[i] == tail[|first| + i];
  }

  /** Joining plain elements gives a relative path with those components. */
  lemma {:induction false} JoinRelative(cs: seq<string>)
    requires cs != [] && AllPlain(cs)
    ensures Join(cs) == JoinWith(cs) && Components(Join(cs)) == cs && Join(cs) != ""
  {
    NonEmptyOfPlain(cs);
    ComponentsOfJoin(cs);
    CleanOfPlain(cs, false, []);
    assert [] + NonEmpty(cs) == cs;
    assert JoinWith(cs)[0] == cs[0][0];
  }

  lemma {:induction false} EntryExtend(cs: seq<string>, ds: seq<string>)
    requires cs != [] && AllPlain(cs) && ds != [] && AllPlain(ds)
    ensures Extend(Path(Absolute(cs)), [Join(ds)]) == Path(Absolute(cs + ds))
  {
    JoinRelative(ds);
    var d := Join(ds);
    FlattenCons(d, []);
    assert [d] + [] == [d];
    assert Flatten([]) == [];
    assert Flatten([d]) == ds;
    JoinOnPath(cs, [d]);
  }

  /** The components of `more`, an element or several, given plainly or joined before. */
  ghost predicate Adds(more: seq<string>, ds: seq<string>) {
    AllPlain(ds) && (more == ds || (ds != [] && more == [Join(ds)]))
  }

  /** One step below an object that lies at its components. */
  lemma {:induction false} BelowPath(top: seq<string>, tail: seq<string>, more: seq<string>, ds: seq<string>)
    requires top != [] && AllPlain(top) && AllPlain(tail) && Adds(more, ds)
    ensures Extend(Path(Absolute(top + tail)), more) == Path(Absolute(top + (tail + ds))) && AllPlain(top + (tail + ds))
  {
    var cs := top + tail;
    assert cs + ds == top + (tail + ds);
    PlainAround(top, tail, ds);
    if more == ds { ExtendPlain(cs, ds); } else { EntryExtend(cs, ds); }
  }

  /** Every object lies at the absolute path of its components, each a plain directory or file name. */
  lemma {:induction false} PathIsParts(spec: Spec)
    requires ValidSpec(spec)
    ensures PathFor(spec) == Path(Absolute(Parts(spec))) && AllPlain(Parts(spec))
    decreases Nesting(spec)
  {
    TailIsPlain(spec);
    RecipeNames(spec);
    match RecipeOf(spec)
    case InRepos(elems) => InReposPath(spec.name, Tail(spec), elems);
    case InRoot(elems) => TopPath(elems);
    case Twice(elems, more) => TwicePath(spec.name, Tail(spec), elems, more);
    case Below(base, more) =>
      PathIsParts(base);
      TailIsPlain(base);
      RootsArePlain();
      NameIsPlain(spec.name);
      var ds :| Adds(more, ds) && Tail(spec) == Tail(base) + ds;
      BelowPath(REPOS + Components(spec.name), Tail(base), more, ds);
  }

  // ---- reading a path back ----

  /** The number of leading components that do not start with an underscore. */
  function NameEnd(cs: seq<string>): (k: nat)
    ensures k <= |cs|
  {
    if cs == [] || (cs[0] != [] && cs[0][0] == '_') then 0 else 1 + NameEnd(cs[1..])
  }

  /** The object below a repository that the components after its name stand for. */
  function LocateTail(name: string, t: seq<string>): Option<Spec> {
    if t == [] then Some(RepositoryRoot(name))
    else if t[0] == "_layers" then
      if |t| == 4 then Some(LayerLink(name, FromHex(t[1], t[2]))) else None
    else if t[0] == "_uploads" then LocateUpload(name, t[1..])
    else if t[0] == "_manifests" && |t| >= 2 then
      if t[1] == "revisions" then LocateRevision(name, t[2..]) else LocateTag(name, t[2..])
    else None
  }

  function LocateUpload(name: string, t: seq<string>): Option<Spec> {
    if |t| == 2 then Some(if t[1] == "data" then UploadData(name, t[0]) else UploadStartedAt(name, t[0]))
    else if |t| == 3 then Some(UploadHashStates(name, t[0], t[2]))
    else if |t| == 4 && Number(t[3]) >= 0 then Some(UploadHashState(name, t[0], t[2], Number(t[3])))
    else None
  }

  function LocateRevision(name: string, t: seq<string>): Option<Spec> {
    if t == [] then Some(ManifestRevisions(name))
    else if |t| == 2 then Some(ManifestRevision(name, FromHex(t[0], t[1])))
    else if |t| == 3 then Some(ManifestRevisionLink(name, FromHex(t[0], t[1])))
    else None
  }

  function LocateTag(name: string, t: seq<string>): Option<Spec> {
    if t == [] then Some(ManifestTags(name))
    else if |t| == 1 then Some(ManifestTag(name, t[0]))
    else if |t| == 2 then Some(ManifestTagIndex(name, t[0]))
    else if |t| == 3 then Some(ManifestTagCurrent(name, t[0]))
    else if |t| == 4 then Some(ManifestTagIndexEntry(name, t[0], FromHex(t[2], t[3])))
    else if |t| == 5 then Some(ManifestTagIndexEntryLink(name, t[0], FromHex(t[2], t[3])))
    else None
  }

  /** The object that a list of components stands for. */
  function Locate(cs: seq<string>): Option<Spec> {
    if |cs| < 4 then None
    else if cs[3] == "repositories" then
      if |cs| == 4 then Some(RepositoriesRoot) else
      var rest := cs[4..];
      LocateTail(JoinWith(rest[..NameEnd(rest)]), rest[NameEnd(rest)..])
    else if |cs| == 4 then Some(Blobs)
    else if |cs| == 7 then Some(BlobDir(FromHex(cs[4], cs[6])))
    else if |cs| == 8 then Some(BlobData(FromHex(cs[4], cs[6])))
    else None
  }

  lemma {:induction false} NameEndAt(cs: seq<string>, t: seq<string>)
    requires forall i :: 0 <= i < |cs| ==> cs[i] != [] && IsAlnum(cs[i][0])
    requires t == [] || (t[0] != [] && t[0][0] == '_')
    ensures NameEnd(cs + t) == |cs|
  {
    if cs == [] { assert cs + t == t; }
    else {
      NameEndAt(cs[1..], t);
      assert (cs + t)[1..] == cs[1..] + t;
    }
  }

  lemma {:induction false} TailStart(spec: Spec)
    requires InRepository(spec)
    ensures Tail(spec) == [] || (Tail(spec)[0] != [] && Tail(spec)[0][0] == '_')
  { }

  lemma {:induction false} LocateRevisionTail(spec: Spec)
    requires ValidSpec(spec) && (spec.ManifestRevisions? || spec.ManifestRevision? || spec.ManifestRevisionLink?)
    ensures LocateTail(spec.name, Tail(spec)) == Some(spec)
  {
    var t := Tail(spec)[2..];
    if !spec.ManifestRevisions? {
      ValidShape(spec.revision);
      assert t[0] == Algorithm(spec.revision) && t[1] == Hex(spec.revision);
    }
  }

  lemma {:induction false} LocateTagTail(spec: Spec)
    requires ValidSpec(spec)
    requires spec.ManifestTags? || spec.ManifestTag? || spec.ManifestTagCurrent? || spec.ManifestTagIndex?
    ensures LocateTail(spec.name, Tail(spec)) == Some(spec)
  { }

  lemma {:induction false} LocateEntryTail(spec: Spec)
    requires ValidSpec(spec) && (spec.ManifestTagIndexEntry? || spec.ManifestTagIndexEntryLink?)
    ensures LocateTail(spec.name, Tail(spec)) == Some(spec)
  {
    ValidShape(spec.revision);
    var t := Tail(spec)[2..];
    assert t[0] == spec.tag && t[2] == Algorithm(spec.revision) && t[3] == Hex(spec.revision);
  }

  lemma {:induction false} LocateUploadTail(spec: Spec)
    requires ValidSpec(spec)
    requires spec.UploadData? || spec.UploadStartedAt? || spec.UploadHashState? || spec.UploadHashStates?
    ensures LocateTail(spec.name, Tail(spec)) == Some(spec)
  {
    var t := Tail(spec)[1..];
    assert t[0] == spec.id;
    if spec.UploadHashState? { NumberOfDecimal(spec.offset); assert t[2] == spec.alg && t[3] == Decimal(spec.offset); }
    if spec.UploadHashStates? { assert t[2] == spec.alg; }
  }

  lemma {:induction false} LocateBlob(spec: Spec)
    requires ValidSpec(spec) && !InRepository(spec)
    ensures Locate(Parts(spec)) == Some(spec)
  {
    var cs := Parts(spec);
    if spec.BlobDir? || spec.BlobData? {
      ValidShape(spec.digest);
      assert cs[3] == "blobs" && cs[4] == Algorithm(spec.digest) && cs[6] == Hex(spec.digest);
    } else {
      assert cs[3] == Tail(spec)[0];
    }
  }

  lemma {:induction false} LocateTailOf(spec: Spec)
    requires ValidSpec(spec) && InRepository(spec)
    ensures LocateTail(spec.name, Tail(spec)) == Some(spec)
  {
    match spec
    case ManifestRevisions(_) => LocateRevisionTail(spec);
    case ManifestRevision(_, _) => LocateRevisionTail(spec);
    case ManifestRevisionLink(_, _) => LocateRevisionTail(spec);
    case ManifestTagIndexEntry(_, _, _) => LocateEntryTail(spec);
    case ManifestTagIndexEntryLink(_, _, _) => LocateEntryTail(spec);
    case UploadData(_, _) => LocateUploadTail(spec);
    case UploadStartedAt(_, _) => LocateUploadTail(spec);
    case UploadHashState(_, _, _, _) => LocateUploadTail(spec);
    case UploadHashStates(_, _, _) => LocateUploadTail(spec);
    case LayerLink(_, d) => ValidShape(d);
    case RepositoryRoot(_) =>
    case _ => LocateTagTail(spec);
  }

  lemma {:induction false} LocateNamed(name: string, t: seq<string>)
    requires ValidName(name) && (t == [] || (t[0] != [] && t[0][0] == '_'))
    ensures Locate(REPOS + Components(name) + t) == LocateTail(name, t)
  {
    var cs := Components(name);
    var all := REPOS + cs + t;
    var rest := all[4..];
    assert rest == cs + t;
    NameEndAt(cs, t);
    JoinOfComponents(name);
    assert rest[..|cs|] == cs && rest[|cs|..] == t;
    assert all[3] == "repositories";
  }

  lemma {:induction false} LocateParts(spec: Spec)
    requires ValidSpec(spec)
    ensures Locate(Parts(spec)) == Some(spec)
  {
    if !InRepository(spec) { LocateBlob(spec); }
    else {
      TailStart(spec);
      LocateTailOf(spec);
      LocateNamed(spec.name, Tail(spec));
    }
  }

  /** Every path stands for one object: reading back the path of any valid object gives that object. */
  lemma {:induction false} LocateInvertsPathFor(spec: Spec)
    requires ValidSpec(spec)
    ensures PathFor(spec).Path? && Locate(Components(PathFor(spec).path)[1..]) == Some(spec)
  {
    PathIsParts(spec);
    AbsoluteComponents(Parts(spec));
    LocateParts(spec);
    assert ([[]] + Parts(spec))[1..] == Parts(spec);
  }

  lemma {:induction false} PathsAreDistinct(a: Spec, b: Spec)
    requires ValidSpec(a) && ValidSpec(b)
    ensures PathFor(a) == PathFor(b) <==> a == b
  {
    LocateInvertsPathFor(a);
    LocateInvertsPathFor(b);
  }
}
