/** Offline mark and sweep over the repositories and blobs of a storage backend. */
module GarbageCollect {
  import opened Tagging

  /** What the content of a blob reads as: an image manifest, a list of manifests, or no manifest at all. */
  datatype Manifest = Image(refs: set<Digest>) | List(refs: set<Digest>) | NoManifest

  datatype Blob = Blob(size: nat, manifest: Manifest)

  datatype IndexLink = IndexLink(tag: string, digest: Digest)

  /**
   One repository: whether it has a layers directory (which is how the walk
   recognises repositories), its manifest revision links and layer links, its
   tags and tag index links, and whether some revision link names a digest of
   the wrong length or of an unknown algorithm, at which the walk gives up.
   Revision links that are no digest at all are skipped and not represented.
   */
  datatype Repo = Repo(
    layersDir: bool, revisions: set<Digest>, layers: set<Digest>, tags: map<string, Link>, index: set<IndexLink>,
        unreadable: bool)

  datatype Storage = Storage(repos: map<string, Repo>, blobs: map<Digest, Blob>)

  // ---- reading ----

  /** The manifest service: the manifest must be linked in the repository, present and readable. */
  predicate Gets(st: Storage, r: Repo, d: Digest) {
    (d in r.revisions || d in r.layers) && d in st.blobs && !st.blobs[d].manifest.NoManifest?
  }

  function References(st: Storage, d: Digest): set<Digest> {
    if d in st.blobs && !st.blobs[d].manifest.NoManifest? then st.blobs[d].manifest.refs else {}
  }

  predicate IsList(st: Storage, d: Digest) {
    d in st.blobs && st.blobs[d].manifest.List?
  }

  /** Revisions whose blob exists; the others are passed over. */
  function Enumerated(st: Storage, r: Repo): set<Digest> {
    set d | d in r.revisions && d in st.blobs
  }

  predicate IsTagged(r: Repo, d: Digest) {
    exists t :: t in r.tags && r.tags[t] == To(d)
  }

  /** Tags can be read unless a current link is not a digest. */
  predicate TagsReadable(r: Repo) {
    forall t :: t in r.tags ==> r.tags[t] != Broken
  }

  // ---- marking one repository ----

  datatype Marking = Failed | Marked(marks: set<Digest>, dels: set<Digest>)

  function Tagged(st: Storage, r: Repo): set<Digest> {
    set d | d in Enumerated(st, r) && IsTagged(r, d)
  }

  /** Everything referenced by the lists, or by the others, among `ds`. */
  function ListRefs(st: Storage, ds: set<Digest>): set<Digest> {
    set d, x | d in ds && IsList(st, d) && x in References(st, d) :: x
  }

  function ImageRefs(st: Storage, ds: set<Digest>): set<Digest> {
    set d, x | d in ds && !IsList(st, d) && x in References(st, d) :: x
  }

  function AllRefs(st: Storage, ds: set<Digest>): set<Digest> {
    set d, x | d in ds && x in References(st, d) :: x
  }

  /** The manifests marked in the second phase: children of tagged lists, or simply all revisions. */
  function Referenced(st: Storage, r: Repo, removeUntagged: bool): set<Digest> {
    if removeUntagged then ListRefs(st, Tagged(st, r)) else Enumerated(st, r)
  }

  predicate AllGet(st: Storage, r: Repo, ds: set<Digest>) {
    forall d :: d in ds ==> Gets(st, r, d)
  }

  function MarkRepo(st: Storage, r: Repo, removeUntagged: bool): Marking {
    var referenced := Referenced(st, r, removeUntagged);
    if
      || r.unreadable || !AllGet(st, r, referenced)
      || (removeUntagged && (!TagsReadable(r) || !AllGet(st, r, Tagged(st, r))))
    then Failed
    else
      Marked((if removeUntagged then Tagged(st, r) + ImageRefs(st, Tagged(st, r)) else {})
               + referenced + AllRefs(st, referenced),
             if removeUntagged then Enumerated(st, r) - Tagged(st, r) - referenced else {})
  }

  // ---- marking everything ----

  predicate MarksOk(st: Storage, removeUntagged: bool) {
    forall n :: n in st.repos && st.repos[n].layersDir ==> MarkRepo(st, st.repos[n], removeUntagged).Marked?
  }

  /** The digests marked by any repository that the walk finds. */
  function Marks(st: Storage, removeUntagged: bool): set<Digest>
    requires MarksOk(st, removeUntagged)
  {
    set n, d | n in st.repos && st.repos[n].layersDir && d in MarkRepo(st, st.repos[n], removeUntagged).marks :: d
  }

  /** The revisions to unlink from one repository. */
  function Dels(st: Storage, n: string, removeUntagged: bool): set<Digest>
    requires n in st.repos
  {
    var m := MarkRepo(st, st.repos[n], removeUntagged);
    if st.repos[n].layersDir && m.Marked? then m.dels else {}
  }

  /** The blobs to delete. */
  function Unmarked(st: Storage, removeUntagged: bool): set<Digest>
    requires MarksOk(st, removeUntagged)
  {
    st.blobs.Keys - Marks(st, removeUntagged)
  }

  // ---- sweeping ----

  /** Unlinking a revision removes its link and the index links of the tags that could be read. */
  function Unlink(r: Repo, ds: set<Digest>): Repo {
    r.(revisions := r.revisions - ds,
       index := set i | i in r.index && !(i.digest in ds && i.tag in r.tags && r.tags[i.tag].To?))
  }

  /** The storage after every deletion went through. */
  function Swept(st: Storage, removeUntagged: bool): Storage
    requires MarksOk(st, removeUntagged)
  {
    Storage(map n | n in st.repos :: Unlink(st.repos[n], Dels(st, n, removeUntagged)),
        st.blobs - Unmarked(st, removeUntagged))
  }

  /** What a sweep may leave when deletions fail part of the way: blobs go only after all links did. */
  ghost predicate SweepLeaves(st: Storage, removeUntagged: bool, out: Storage)
    requires MarksOk(st, removeUntagged)
  {
    && out.repos.Keys == st.repos.Keys
    && (forall n :: n in st.repos ==>
          && out.repos[n].(revisions := {}, index := {}) == st.repos[n].(revisions := {}, index := {})
          && st.repos[n].revisions - Dels(st, n, removeUntagged) <= out.repos[n].revisions <= st.repos[n].revisions)
    && (out.blobs == st.blobs
        || (&& (forall n :: n in st.repos ==> out.repos[n] == Unlink(st.repos[n], Dels(st, n, removeUntagged)))
            && exists gone :: gone <= Unmarked(st, removeUntagged) && out.blobs == st.blobs - gone))
  }

  // ---- what survives ----

  /** A marked digest keeps its blob, however far the sweep got. */
  lemma MarkedSurvives(st: Storage, removeUntagged: bool, out: Storage, n: string, d: Digest)
    requires MarksOk(st, removeUntagged) && SweepLeaves(st, removeUntagged, out)
    requires n in st.repos && st.repos[n].layersDir && d in MarkRepo(st, st.repos[n], removeUntagged).marks &&
      d in st.blobs
    ensures d in out.blobs && out.blobs[d] == st.blobs[d]
  { }

  /** A revision that is not unlinked is marked, and so is everything it directly references. */
  lemma KeptIsMarked(st: Storage, r: Repo, removeUntagged: bool, d: Digest)
    requires MarkRepo(st, r, removeUntagged).Marked? && d in Enumerated(st, r) &&
      d !in MarkRepo(st, r, removeUntagged).dels
    ensures d in MarkRepo(st, r, removeUntagged).marks
    ensures References(st, d) <= MarkRepo(st, r, removeUntagged).marks
  { }

  /**
   After any sweep, complete or broken off, every revision left in a repository
   that the walk finds still has its own blob and every blob it references.
   */
  lemma RevisionsKeepTheirBlobs(st: Storage, removeUntagged: bool, out: Storage, n: string, d: Digest)
    requires MarksOk(st, removeUntagged) && SweepLeaves(st, removeUntagged, out)
    requires n in st.repos && st.repos[n].layersDir && d in out.repos[n].revisions && d in st.blobs
    ensures d in out.blobs && out.blobs[d] == st.blobs[d]
    ensures forall x :: x in References(st, d) && x in st.blobs ==> x in out.blobs && out.blobs[x] == st.blobs[x]
  {
    var r := st.repos[n];
    assert d in r.revisions;
    if out.blobs != st.blobs {
      assert d !in Dels(st, n, removeUntagged);
      KeptIsMarked(st, r, removeUntagged, d);
      MarkedSurvives(st, removeUntagged, out, n, d);
      forall x | x in References(st, d) && x in st.blobs ensures x in out.blobs && out.blobs[x] == st.blobs[x] {
        MarkedSurvives(st, removeUntagged, out, n, x);
      }
    }
  }

  /** A tag of a repository whose manifest is linked and present. */
  predicate TagLeadsTo(st: Storage, n: string, t: string, d: Digest) {
    n in st.repos && t in st.repos[n].tags && st.repos[n].tags[t] == To(d) && d in Enumerated(st, st.repos[n])
  }

  /**
   What can be pulled through a tag pointing at `d`: the manifest, its references and, for a list, their references.
   */
  function Reach(st: Storage, d: Digest): set<Digest> {
    {d} + References(st, d) + if IsList(st, d) then AllRefs(st, References(st, d)) else {}
  }

  lemma ReachIsMarked(st: Storage, r: Repo, removeUntagged: bool, d: Digest)
    requires MarkRepo(st, r, removeUntagged).Marked? && d in Tagged(st, r)
    requires removeUntagged || (IsList(st, d) ==> References(st, d) <= r.revisions)
    ensures Reach(st, d) <= MarkRepo(st, r, removeUntagged).marks
    ensures d !in MarkRepo(st, r, removeUntagged).dels
    ensures IsList(st, d) ==> References(st, d) !! MarkRepo(st, r, removeUntagged).dels
  { }

  /** A tag of a walked repository whose manifest is linked and present. */
  predicate WalkedTag(st: Storage, n: string, t: string, d: Digest) {
    TagLeadsTo(st, n, t, d) && st.repos[n].layersDir
  }

  /**
   Everything reachable from a tag survives, links included, also when the same
   blobs are untagged in other repositories. When untagged manifests are kept,
   the entries of a list survive as revisions of their own.
   */
  lemma TagsKeepEverything(st: Storage, removeUntagged: bool, out: Storage, n: string, t: string, d: Digest)
    requires MarksOk(st, removeUntagged) && SweepLeaves(st, removeUntagged, out) && WalkedTag(st, n, t, d)
    requires removeUntagged || (IsList(st, d) ==> References(st, d) <= st.repos[n].revisions)
    ensures out.repos[n].tags == st.repos[n].tags && d in out.repos[n].revisions
    ensures IsList(st, d) ==> References(st, d) * st.repos[n].revisions <= out.repos[n].revisions
    ensures out.repos[n].layers == st.repos[n].layers
    ensures forall x :: x in Reach(st, d) && x in st.blobs ==> x in out.blobs && out.blobs[x] == st.blobs[x]
  {
    var r := st.repos[n];
    assert IsTagged(r, d);
    ReachIsMarked(st, r, removeUntagged, d);
    SameBut(out.repos[n], r);
    forall x | x in Reach(st, d) && x in st.blobs ensures x in out.blobs && out.blobs[x] == st.blobs[x] {
      MarkedSurvives(st, removeUntagged, out, n, x);
    }
  }

  lemma SameBut(a: Repo, b: Repo)
    requires a.(revisions := {}, index := {}) == b.(revisions := {}, index := {})
    ensures a.layersDir == b.layersDir && a.layers == b.layers && a.tags == b.tags && a.unreadable == b.unreadable
  { }

  /** `x` is fetched when the manifest `d` is pulled, following lists within lists up to some depth. */
  ghost predicate Pulls(st: Storage, d: Digest, x: Digest, depth: nat)
    decreases depth
  {
    || x == d || x in References(st, d)
    || (IsList(st, d) && depth > 0 && exists c :: c in References(st, d) && Pulls(st, c, x, depth - 1))
  }

  /** A list that refers only to image manifests. */
  ghost predicate Flat(st: Storage, d: Digest) {
    IsList(st, d) ==> forall c :: c in References(st, d) ==> !IsList(st, c)
  }

  lemma {:induction false} FlatPulls(st: Storage, d: Digest, x: Digest, depth: nat)
    requires Flat(st, d) && Pulls(st, d, x, depth)
    ensures x in Reach(st, d)
  { }

  /** Every list among the revisions has its entries among them, as far as they are stored. */
  ghost predicate EntriesLinked(st: Storage, r: Repo) {
    forall d, c :: d in Enumerated(st, r) && IsList(st, d) && c in References(st, d) && c in st.blobs ==>
        c in r.revisions
  }

  /** When untagged manifests are kept, everything that pulling a revision fetches is marked, however deeply nested. */
  lemma {:induction false} PulledIsMarked(st: Storage, r: Repo, d: Digest, x: Digest, depth: nat)
    requires MarkRepo(st, r, false).Marked? && EntriesLinked(st, r)
    requires d in Enumerated(st, r) && Pulls(st, d, x, depth)
    ensures x in MarkRepo(st, r, false).marks
    decreases depth
  {
    KeptIsMarked(st, r, false, d);
    if x != d && x !in References(st, d) {
      var c :| c in References(st, d) && Pulls(st, c, x, depth - 1);
      if c in st.blobs { PulledIsMarked(st, r, c, x, depth - 1); }
    }
  }

  /**
   Everything that pulling a tag fetches survives any sweep: when untagged
   manifests are removed, if the tagged list refers only to image manifests;
   when they are kept, at any depth, if lists have their entries linked.
   */
  lemma PullsSurvive(st: Storage, removeUntagged: bool, out: Storage, n: string, t: string, d: Digest, x: Digest,
                     depth: nat)
    requires MarksOk(st, removeUntagged) && SweepLeaves(st, removeUntagged, out) && WalkedTag(st, n, t, d)
    requires if removeUntagged then Flat(st, d) else EntriesLinked(st, st.repos[n])
    requires Pulls(st, d, x, depth) && x in st.blobs
    ensures x in out.blobs && out.blobs[x] == st.blobs[x]
  {
    if removeUntagged {
      TagsKeepEverything(st, true, out, n, t, d);
      FlatPulls(st, d, x, depth);
    } else {
      PulledIsMarked(st, st.repos[n], d, x, depth);
      MarkedSurvives(st, false, out, n, x);
    }
  }

  // ---- exactness ----

  /**
   Why a blob is kept, apart from marking: some walked repository has a manifest
   that leads to it. When untagged manifests are removed this must be a tagged
   one, and it leads as far as the references of a list's entries; otherwise
   any revision will do, and it leads as far as its own references.
   */
  ghost predicate Rooted(st: Storage, removeUntagged: bool, x: Digest) {
    exists n, d :: n in st.repos && st.repos[n].layersDir && Roots(st, st.repos[n], removeUntagged, d, x)
  }

  ghost predicate Roots(st: Storage, r: Repo, removeUntagged: bool, d: Digest, x: Digest) {
    if removeUntagged then d in Tagged(st, r) && x in Reach(st, d)
    else d in Enumerated(st, r) && (x == d || x in References(st, d))
  }

  /** The two phases mark exactly what the manifests of a repository lead to. */
  lemma MarkedIffRooted(st: Storage, r: Repo, removeUntagged: bool, x: Digest)
    requires MarkRepo(st, r, removeUntagged).Marked?
    ensures x in MarkRepo(st, r, removeUntagged).marks <==> exists d :: Roots(st, r, removeUntagged, d, x)
  {
    if x in MarkRepo(st, r, removeUntagged).marks { var d := RootOfMark(st, r, removeUntagged, x); }
    forall d | Roots(st, r, removeUntagged, d, x) ensures x in MarkRepo(st, r, removeUntagged).marks {
      if removeUntagged { ReachIsMarked(st, r, true, d); } else { KeptIsMarked(st, r, false, d); }
    }
  }

  lemma RootOfMark(st: Storage, r: Repo, removeUntagged: bool, x: Digest) returns (d: Digest)
    requires MarkRepo(st, r, removeUntagged).Marked? && x in MarkRepo(st, r, removeUntagged).marks
    ensures Roots(st, r, removeUntagged, d, x)
  {
    var referenced := Referenced(st, r, removeUntagged);
    if removeUntagged {
      if x in Tagged(st, r) { d := x; }
      else if x in ImageRefs(st, Tagged(st, r)) { d :| d in Tagged(st, r) && !IsList(st, d) && x in References(st, d); }
      else if x in referenced { d :| d in Tagged(st, r) && IsList(st, d) && x in References(st, d); }
      else {
        var c :| c in referenced && x in References(st, c);
        d :| d in Tagged(st, r) && IsList(st, d) && c in References(st, d);
      }
    } else {
      if x in referenced { d := x; } else { d :| d in referenced && x in References(st, d); }
    }
  }

  /**
   A complete sweep leaves exactly the blobs that a manifest of a walked repository leads to, unchanged:
   hence what a tag leads to survives if and only if it is within such reach.
   */
  lemma SurvivesIffRooted(st: Storage, removeUntagged: bool, x: Digest)
    requires MarksOk(st, removeUntagged)
    ensures x in Swept(st, removeUntagged).blobs <==> x in st.blobs && Rooted(st, removeUntagged, x)
    ensures x in Swept(st, removeUntagged).blobs ==> Swept(st, removeUntagged).blobs[x] == st.blobs[x]
  {
    if x in Marks(st, removeUntagged) {
      var n :| n in st.repos && st.repos[n].layersDir && x in MarkRepo(st, st.repos[n], removeUntagged).marks;
      MarkedIffRooted(st, st.repos[n], removeUntagged, x);
    }
    forall n, d | n in st.repos && st.repos[n].layersDir && Roots(st, st.repos[n], removeUntagged, d, x)
      ensures x in Marks(st, removeUntagged)
    {
      MarkedIffRooted(st, st.repos[n], removeUntagged, x);
    }
  }

  // ---- what a tag leads to and still does not survive ----

  const NestedRepo := Repo(true, {"outer", "inner", "image"}, {"layer"}, map["latest" := To("outer")], {}, false)

  /** A tagged list of a list of one image with one layer. */
  const Nested := Storage(map["app" := NestedRepo], map[
    "outer" := Blob(1, List({"inner"})), "inner" := Blob(1, List({"image"})),
    "image" := Blob(1, Image({"layer"})), "layer" := Blob(1, NoManifest)])

  lemma NestedReach()
    ensures MarksOk(Nested, true) && Tagged(Nested, NestedRepo) == {"outer"} && "layer" !in Reach(Nested, "outer")
  {
    var st, repo := Nested, NestedRepo;
    assert IsTagged(repo, "outer") by { assert repo.tags["latest"] == To("outer"); }
    assert Tagged(st, repo) == {"outer"};
    assert References(st, "outer") == {"inner"} && References(st, "inner") == {"image"};
    assert AllRefs(st, {"inner"}) == {"image"};
    assert ListRefs(st, {"outer"}) == {"inner"};
  }

  lemma NestedPulls()
    ensures Pulls(Nested, "outer", "layer", 2)
  {
    assert "image" in References(Nested, "inner") && Pulls(Nested, "image", "layer", 0);
    assert "inner" in References(Nested, "outer") && Pulls(Nested, "inner", "layer", 1);
  }

  /** A list within a list is marked, but not what its images need: the layer of the nested image is swept away. */
  lemma NestedListLosesLayers()
    ensures MarksOk(Nested, true) && WalkedTag(Nested, "app", "latest", "outer")
    ensures Pulls(Nested, "outer", "layer", 2) && "layer" in Nested.blobs && "layer" !in Swept(Nested, true).blobs
  {
    NestedReach();
    NestedPulls();
    SurvivesIffRooted(Nested, true, "layer");
  }

  const UnwalkedRepo := Repo(false, {"image"}, {}, map["latest" := To("image")], {}, false)

  const Unwalked := Storage(map["app" := UnwalkedRepo], map["image" := Blob(1, Image({}))])

  /** A repository without a layers directory is not walked, so its tagged manifest is swept away. */
  lemma UnwalkedRepositoryLosesManifest(removeUntagged: bool)
    ensures MarksOk(Unwalked, removeUntagged) && TagLeadsTo(Unwalked, "app", "latest", "image")
    ensures "image" !in Swept(Unwalked, removeUntagged).blobs
  {
    SurvivesIffRooted(Unwalked, removeUntagged, "image");
  }

  // ---- a second run ----

  /** What one repository can read is not changed by the sweep as far as its kept revisions go. */
  lemma SweptReads(st: Storage, removeUntagged: bool, n: string, d: Digest)
    requires MarksOk(st, removeUntagged) && n in st.repos && st.repos[n].layersDir
    requires d in st.blobs && d in MarkRepo(st, st.repos[n], removeUntagged).marks
    ensures var out := Swept(st, removeUntagged);
      d in out.blobs && References(out, d) == References(st, d) && IsList(out, d) == IsList(st, d)
  { }

  lemma SweptEnumerates(st: Storage, removeUntagged: bool, n: string)
    requires MarksOk(st, removeUntagged) && n in st.repos && st.repos[n].layersDir
    ensures var out := Swept(st, removeUntagged);
      Enumerated(out, out.repos[n]) == Enumerated(st, st.repos[n]) - Dels(st, n, removeUntagged)
  { }

  lemma SweptTagged(st: Storage, removeUntagged: bool, n: string)
    requires MarksOk(st, removeUntagged) && n in st.repos && st.repos[n].layersDir
    ensures var out := Swept(st, removeUntagged); Tagged(out, out.repos[n]) == Tagged(st, st.repos[n])
  { }

  /** References gathered over marked manifests are the same before and after. */
  lemma SweptRefs(st: Storage, removeUntagged: bool, n: string, ds: set<Digest>)
    requires MarksOk(st, removeUntagged) && n in st.repos && st.repos[n].layersDir
    requires forall d :: d in ds ==> d in st.blobs && d in MarkRepo(st, st.repos[n], removeUntagged).marks
    ensures var out := Swept(st, removeUntagged);
      ListRefs(out, ds) == ListRefs(st, ds) && ImageRefs(out, ds) == ImageRefs(st, ds) &&
          AllRefs(out, ds) == AllRefs(st, ds)
  {
    var out := Swept(st, removeUntagged);
    forall d | d in ds ensures References(out, d) == References(st, d) && IsList(out, d) == IsList(st, d) {
      SweptReads(st, removeUntagged, n, d);
    }
  }

  lemma SweptGets(st: Storage, removeUntagged: bool, n: string, ds: set<Digest>)
    requires MarksOk(st, removeUntagged) && n in st.repos && st.repos[n].layersDir && AllGet(st, st.repos[n], ds)
    requires forall d :: d in ds ==>
      d in MarkRepo(st, st.repos[n], removeUntagged).marks && d !in Dels(st, n, removeUntagged)
    ensures var out := Swept(st, removeUntagged); AllGet(out, out.repos[n], ds)
  { }

  /** Marking again marks the same and finds nothing to unlink. */
  lemma SweptMarksSame(st: Storage, removeUntagged: bool, n: string)
    requires MarksOk(st, removeUntagged) && n in st.repos && st.repos[n].layersDir
    ensures var out := Swept(st, removeUntagged);
      MarkRepo(out, out.repos[n], removeUntagged) == Marked(MarkRepo(st, st.repos[n], removeUntagged).marks, {})
  {
    var out, r := Swept(st, removeUntagged), st.repos[n];
    var tagged, referenced := Tagged(st, r), Referenced(st, r, removeUntagged);
    SweptTagged(st, removeUntagged, n);
    SweptEnumerates(st, removeUntagged, n);
    if removeUntagged {
      SweptRefs(st, removeUntagged, n, tagged);
      SweptGets(st, removeUntagged, n, tagged);
    }
    assert Referenced(out, out.repos[n], removeUntagged) == referenced;
    SweptRefs(st, removeUntagged, n, referenced);
    SweptGets(st, removeUntagged, n, referenced);
    assert Enumerated(out, out.repos[n]) - tagged - referenced ==
        (Enumerated(st, r) - tagged - referenced) - Dels(st, n, removeUntagged);
  }

  /** A second run removes nothing. */
  lemma SecondRunRemovesNothing(st: Storage, removeUntagged: bool)
    requires MarksOk(st, removeUntagged)
    ensures var out := Swept(st, removeUntagged);
      && MarksOk(out, removeUntagged) && Unmarked(out, removeUntagged) == {}
      && (forall n :: n in out.repos ==> Dels(out, n, removeUntagged) == {})
      && Swept(out, removeUntagged) == out
  {
    var out := Swept(st, removeUntagged);
    forall n | n in out.repos && out.repos[n].layersDir
      ensures MarkRepo(out, out.repos[n], removeUntagged) == Marked(MarkRepo(st, st.repos[n], removeUntagged).marks, {})
    {
      SweptMarksSame(st, removeUntagged, n);
    }
    assert Marks(out, removeUntagged) == Marks(st, removeUntagged);
    UnlinkNothing(out, removeUntagged);
  }

  lemma UnlinkNothing(st: Storage, removeUntagged: bool)
    requires MarksOk(st, removeUntagged) && Unmarked(st, removeUntagged) == {}
    requires forall n :: n in st.repos ==> Dels(st, n, removeUntagged) == {}
    ensures Swept(st, removeUntagged) == st
  {
    forall n | n in st.repos ensures Unlink(st.repos[n], {}) == st.repos[n] { }
    assert Swept(st, removeUntagged).repos == st.repos;
    assert Swept(st, removeUntagged).blobs == st.blobs;
  }
}
