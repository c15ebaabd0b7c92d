/** The paths under which manifest links and blobs are deleted in bulk. */
module Vacuum {
  import opened Text
  import opened Digests
  import opened Batches
  import opened PathOrder
  import opened Paths

  const REPOSITORIES := "/docker/registry/v2/repositories/"

  /** The link paths are concatenated by hand instead of going through `PathFor`. */
  function RevisionLink(name: string, d: string): string {
    REPOSITORIES + name + "/_manifests/revisions/" + Algorithm(d) + "/" + Hex(d) + "/link"
  }

  function TagLink(name: string, t: string, d: string): string {
    REPOSITORIES + name + "/_manifests/tags/" + t + "/index/" + Algorithm(d) + "/" + Hex(d) + "/link"
  }

  function HandMade(): Layout<string> {
    Layout((name, d) => RevisionLink(name, d), (name, t, d) => TagLink(name, t, d))
  }

  // ---- the hand-made paths are the real ones ----

  lemma {:induction false} AbsoluteConcat(a: seq<string>, b: seq<string>)
    requires a != [] && b != []
    ensures Absolute(a + b) == Absolute(a) + ['/'] + JoinWith(b)
  {
    JoinConcat(a, b);
  }

  lemma {:induction false} Join2(a: string, b: string)
    ensures JoinWith([a, b]) == a + ['/'] + b
  { }

  lemma {:induction false} Join4(a: string, b: string, c: string, d: string)
    ensures JoinWith([a, b, c, d]) == a + ['/'] + b + ['/'] + c + ['/'] + d
  {
    JoinConcat([a, b], [c, d]);
    Join2(a, b);
    Join2(c, d);
    assert [a, b] + [c, d] == [a, b, c, d];
  }

  lemma {:induction false} RootText()
    ensures REPOSITORIES == ['/'] + ("docker" + ['/'] + "registry" + ['/'] + "v2" + ['/'] + "repositories") + ['/']
  { }

  lemma {:induction false} NameText(name: string)
    requires ValidName(name)
    ensures Absolute(REPOS + Components(name)) == REPOSITORIES + name
  {
    RootText();
    Join4(REPOS[0], REPOS[1], REPOS[2], REPOS[3]);
    JoinOfComponents(name);
    AbsoluteConcat(REPOS, Components(name));
  }

  lemma {:induction false} TailText(base: seq<string>, a: string, b: string, more: seq<string>)
    requires base != [] && more != []
    ensures Absolute(base + ([a, b] + more)) == Absolute(base) + (['/'] + a + ['/'] + b + ['/']) + JoinWith(more)
  {
    AbsoluteConcat(base, [a, b] + more);
    JoinConcat([a, b], more);
    Join2(a, b);
  }

  lemma {:induction false} DigestText(alg: string, hex: string, link: string)
    ensures JoinWith([alg, hex, link]) == alg + ['/'] + hex + (['/'] + link)
  {
    JoinConcat([alg, hex], [link]);
    Join2(alg, hex);
    assert [alg, hex] + [link] == [alg, hex, link];
    assert JoinWith([link]) == link;
  }

  lemma {:induction false} EntryText(t: string, index: string, more: seq<string>)
    requires more != []
    ensures JoinWith([t, index] + more) == t + (['/'] + index + ['/']) + JoinWith(more)
  { }

  lemma {:induction false} RevisionText(base: seq<string>, man: string, rev: string, alg: string, hex: string,
                                        link: string)
    requires base != []
    ensures Absolute(base + [man, rev, alg, hex, link])
         == Absolute(base) + (['/'] + man + ['/'] + rev + ['/']) + alg + ['/'] + hex + (['/'] + link)
  {
    TailText(base, man, rev, [alg, hex, link]);
    DigestText(alg, hex, link);
    assert [man, rev] + [alg, hex, link] == [man, rev, alg, hex, link];
  }

  lemma {:induction false} TagText(base: seq<string>, man: string, tags: string, t: string, index: string,
                                   alg: string, hex: string, link: string)
    requires base != []
    ensures Absolute(base + [man, tags, t, index, alg, hex, link])
         == Absolute(base) + (['/'] + man + ['/'] + tags + ['/']) + t + (['/'] + index + ['/'])
            + alg + ['/'] + hex + (['/'] + link)
  {
    var digest := [alg, hex, link];
    var entry := [t, index] + digest;
    TailText(base, man, tags, entry);
    EntryText(t, index, digest);
    DigestText(alg, hex, link);
    assert [man, tags] + entry == [man, tags, t, index, alg, hex, link];
  }

  lemma {:induction false} Separators()
    ensures ['/'] + "_manifests" + ['/'] + "revisions" + ['/'] == "/_manifests/revisions/"
    ensures ['/'] + "_manifests" + ['/'] + "tags" + ['/'] == "/_manifests/tags/"
    ensures ['/'] + "index" + ['/'] == "/index/" && ['/'] + "link" == "/link"
  { }

  /** For valid names, tags and digests the hand-made links are the paths of those links. */
  lemma {:induction false} RevisionLinkIsPath(name: string, d: string)
    requires ValidName(name) && IsValid(d)
    ensures PathFor(ManifestRevisionLink(name, d)) == Path(RevisionLink(name, d))
  {
    PathIsParts(ManifestRevisionLink(name, d));
    NameText(name);
    RevisionText(REPOS + Components(name), "_manifests", "revisions", Algorithm(d), Hex(d), "link");
    Separators();
  }

  lemma {:induction false} TagLinkIsPath(name: string, t: string, d: string)
    requires ValidName(name) && ValidLabel(t) && IsValid(d)
    ensures PathFor(ManifestTagIndexEntryLink(name, t, d)) == Path(TagLink(name, t, d))
  {
    PathIsParts(ManifestTagIndexEntryLink(name, t, d));
    NameText(name);
    TagText(REPOS + Components(name), "_manifests", "tags", t, "index", Algorithm(d), Hex(d), "link");
    Separators();
  }

  predicate Deletable(m: ManifestDel) {
    ValidName(m.name) && IsValid(m.digest) && forall k :: 0 <= k < |m.tags| ==> ValidLabel(m.tags[k])
  }

  predicate IsLinkOf(spec: Spec, m: ManifestDel) {
    || spec == ManifestRevisionLink(m.name, m.digest)
    || (spec.ManifestTagIndexEntryLink? && spec.name == m.name && spec.revision == m.digest && spec.tag in m.tags)
  }

  lemma {:induction false} TagLinkOf(spec: Spec, m: ManifestDel)
    requires ValidSpec(spec) && Deletable(m)
    ensures PathFor(spec).Path?
    ensures PathFor(spec).path in TagLinks(HandMade(), m, |m.tags|)
       <==> exists k :: 0 <= k < |m.tags| && spec == ManifestTagIndexEntryLink(m.name, m.tags[k], m.digest)
  {
    PathIsParts(spec);
    var p := PathFor(spec).path;
    forall k | 0 <= k < |m.tags|
      ensures p == HandMade().tag(m.name, m.tags[k], m.digest) <==>
        spec == ManifestTagIndexEntryLink(m.name, m.tags[k], m.digest)
    {
      TagLinkIsPath(m.name, m.tags[k], m.digest);
      PathsAreDistinct(spec, ManifestTagIndexEntryLink(m.name, m.tags[k], m.digest));
    }
  }

  lemma {:induction false} LinkOf(spec: Spec, m: ManifestDel)
    requires ValidSpec(spec) && Deletable(m)
    ensures PathFor(spec).Path? && (PathFor(spec).path in Links(HandMade(), m) <==> IsLinkOf(spec, m))
  {
    TagLinkOf(spec, m);
    RevisionLinkIsPath(m.name, m.digest);
    PathsAreDistinct(spec, ManifestRevisionLink(m.name, m.digest));
  }

  /** Deleting manifests touches no object but their revision links and the index links of their tags. */
  lemma {:induction false} OnlyLinksGo(mm: seq<ManifestDel>, spec: Spec)
    requires ValidSpec(spec) && forall i :: 0 <= i < |mm| ==> Deletable(mm[i])
    ensures PathFor(spec).Path?
    ensures PathFor(spec).path in AllLinks(HandMade(), mm) <==> exists i :: 0 <= i < |mm| && IsLinkOf(spec, mm[i])
  {
    PathIsParts(spec);
    forall i | 0 <= i < |mm| ensures PathFor(spec).path in Links(HandMade(), mm[i]) <==> IsLinkOf(spec, mm[i]) {
      LinkOf(spec, mm[i]);
    }
  }

  // ---- the vacuum ----

  /** Manifests are processed in batches of a hundred. */
  method RemoveManifests(driver: Driver<string>, mm: seq<ManifestDel>, failing: set<string>) returns (ok: bool)
    modifies driver
    ensures (driver.files, ok) == Left(HandMade(), old(driver.files), mm, BATCH, failing)
  {
    ok := RemoveInBatches(HandMade(), driver, mm, BATCH, failing);
    assert mm[0..] == mm;
  }

  /** The paths of a list of objects, or nothing when one of them has no path. */
  method CollectPaths(pathOf: string -> PathResult, ds: seq<string>) returns (paths: Option<seq<string>>)
    ensures paths.None? <==> exists i :: 0 <= i < |ds| && pathOf(ds[i]).Refused?
    ensures paths.Some? ==> |paths.value| == |ds| && forall i :: 0 <= i < |ds| ==> pathOf(ds[i]) == Path(paths.value[i])
  {
    var found: seq<string> := [];
    var i := 0;
    while i < |ds|
      invariant 0 <= i <= |ds| && |found| == i
      invariant forall k :: 0 <= k < i ==> pathOf(ds[k]) == Path(found[k])
    {
      var p := pathOf(ds[i]);
      if p.Refused? { return None; }
      found := found + [p.path];
      i := i + 1;
    }
    return Some(found);
  }

  lemma {:induction false} RefusedIffInvalid(d: string)
    ensures PathFor(BlobData(d)).Refused? <==> !IsValid(d)
  { }

  /** All blobs in one call; one bad digest refuses the whole call before anything is deleted. */
  method RemoveBlobs(driver: Driver<string>, ds: seq<string>, failing: set<string>) returns (ok: bool)
    modifies driver
    ensures (exists i :: 0 <= i < |ds| && !IsValid(ds[i])) ==> !ok && driver.files == old(driver.files)
    ensures (forall i :: 0 <= i < |ds| ==> IsValid(ds[i])) ==>
              driver.files == old(driver.files) - (DataPaths(ds) - failing) && (ok <==> DataPaths(ds) !! failing)
  {
    var paths := CollectPaths(d => PathFor(BlobData(d)), ds);
    forall i | 0 <= i < |ds| ensures PathFor(BlobData(ds[i])).Refused? <==>
        !IsValid(ds[i]) { RefusedIffInvalid(ds[i]); }
    if paths.None? { return false; }
    var count;
    count, ok := driver.DeleteFiles(paths.value, failing);
    assert Elements(paths.value) == DataPaths(ds);
  }

  ghost function DataPaths(ds: seq<string>): set<string> {
    set i | 0 <= i < |ds| && PathFor(BlobData(ds[i])).Path? :: PathFor(BlobData(ds[i])).path
  }
}
