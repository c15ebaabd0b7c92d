/** The garbage collector as it runs: nested loops over sets, in no particular order, then deletion in batches. */
module MarkAndSweep {
  import opened Tagging
  import opened GarbageCollect
  import opened Batches
  import opened Digests
  import CachedTags

  // ---- sizes ----

  ghost function SumSizes(blobs: map<Digest, Blob>, ds: set<Digest>): nat
    requires ds <= blobs.Keys
  {
    if ds == {} then 0 else
      var d :| d in ds;
      blobs[d].size + SumSizes(blobs, ds - {d})
  }

  lemma {:induction false} SumWithout(blobs: map<Digest, Blob>, ds: set<Digest>, d: Digest)
    requires ds <= blobs.Keys && d in ds
    ensures SumSizes(blobs, ds) == blobs[d].size + SumSizes(blobs, ds - {d})
    decreases |ds|
  {
    var e :| e in ds && SumSizes(blobs, ds) == blobs[e].size + SumSizes(blobs, ds - {e});
    if e != d {
      SumWithout(blobs, ds - {e}, d);
      SumWithout(blobs, ds - {d}, e);
      assert ds - {e} - {d} == ds - {d} - {e};
    }
  }

  /** Sizes add up over a split of the blobs. */
  lemma {:induction false} SumSplit(blobs: map<Digest, Blob>, ds: set<Digest>, gone: set<Digest>)
    requires ds <= blobs.Keys && gone <= ds
    ensures SumSizes(blobs, ds) == SumSizes(blobs, gone) + SumSizes(blobs, ds - gone)
    decreases |gone|
  {
    if gone == {} { assert ds - gone == ds; }
    else {
      var d :| d in gone;
      SumWithout(blobs, ds, d);
      SumWithout(blobs, gone, d);
      SumSplit(blobs, ds - {d}, gone - {d});
      assert (ds - {d}) - (gone - {d}) == ds - gone;
    }
  }

  lemma {:induction false} SumSame(a: map<Digest, Blob>, b: map<Digest, Blob>, ds: set<Digest>)
    requires ds <= a.Keys && ds <= b.Keys && forall d :: d in ds ==> a[d] == b[d]
    ensures SumSizes(a, ds) == SumSizes(b, ds)
    decreases |ds|
  {
    if ds != {} {
      var d :| d in ds;
      SumWithout(a, ds, d);
      SumWithout(b, ds, d);
      SumSame(a, b, ds - {d});
    }
  }

  ghost function TotalSize(st: Storage): nat {
    SumSizes(st.blobs, st.blobs.Keys)
  }

  /** The estimate printed after the mark stage is exactly the storage that a complete sweep frees. */
  lemma EstimateIsFreed(st: Storage, removeUntagged: bool)
    requires MarksOk(st, removeUntagged)
    ensures TotalSize(st) == TotalSize(Swept(st, removeUntagged)) + SumSizes(st.blobs, Unmarked(st, removeUntagged))
  {
    var gone, out := Unmarked(st, removeUntagged), Swept(st, removeUntagged);
    SumSplit(st.blobs, st.blobs.Keys, gone);
    assert out.blobs.Keys == st.blobs.Keys - gone;
    SumSame(st.blobs, out.blobs, out.blobs.Keys);
  }

  // ---- marking, one repository ----

  /** First phase: tagged manifests are marked with their references; references of lists are kept for the second. */
  method MarkTagged(st: Storage, r: Repo, tagged: set<Digest>)
    returns (ok: bool, marks: set<Digest>, referenced: set<Digest>)
    ensures ok <==> AllGet(st, r, tagged)
    ensures ok ==> marks == tagged + ImageRefs(st, tagged) && referenced == ListRefs(st, tagged)
  {
    marks, referenced := {}, {};
    var todo := tagged;
    ghost var done: set<Digest> := {};
    while todo != {}
      invariant todo !! done && todo + done == tagged
      invariant AllGet(st, r, done)
      invariant marks == done + ImageRefs(st, done) && referenced == ListRefs(st, done)
      decreases todo
    {
      var d :| d in todo;
      if !Gets(st, r, d) { return false, {}, {}; }
      marks := marks + {d};
      if IsList(st, d) { referenced := referenced + References(st, d); }
      else { marks := marks + References(st, d); }
      RefsOfOneMore(st, done, d);
      todo, done := todo - {d}, done + {d};
    }
    ok := true;
  }

  lemma RefsOfOneMore(st: Storage, ds: set<Digest>, d: Digest)
    ensures ImageRefs(st, ds + {d}) == ImageRefs(st, ds) + if IsList(st, d) then {} else References(st, d)
    ensures ListRefs(st, ds + {d}) == ListRefs(st, ds) + if IsList(st, d) then References(st, d) else {}
    ensures AllRefs(st, ds + {d}) == AllRefs(st, ds) + References(st, d)
  { }

  /** Second phase: referenced manifests are marked with all their references. */
  method MarkReferenced(st: Storage, r: Repo, referenced: set<Digest>) returns (ok: bool, marks: set<Digest>)
    ensures ok <==> AllGet(st, r, referenced)
    ensures ok ==> marks == referenced + AllRefs(st, referenced)
  {
    marks := {};
    var todo := referenced;
    ghost var done: set<Digest> := {};
    while todo != {}
      invariant todo !! done && todo + done == referenced
      invariant AllGet(st, r, done) && marks == done + AllRefs(st, done)
      decreases todo
    {
      var d :| d in todo;
      if !Gets(st, r, d) { return false, {}; }
      marks := marks + {d} + References(st, d);
      RefsOfOneMore(st, done, d);
      todo, done := todo - {d}, done + {d};
    }
    ok := true;
  }

  /** The tag directory of a repository, which is missing when it never had a tag. */
  ghost predicate DirectoryOf(tree: CachedTags.Tree, r: Repo) {
    match tree.listing
    case Unknown => r.tags == map[]
    case Unreadable => false
    case Entries(names) => tree.links == r.tags && forall t :: t in names <==> t in r.tags
  }

  /**
   Once the cache is primed, looking a digest up among the tags finds some exactly when it is tagged; priming fails
   for good exactly when a link is broken.
   */
  lemma LookupIsTagged(r: Repo, tree: CachedTags.Tree, d: Digest)
    requires DirectoryOf(tree, r)
    ensures CachedTags.Sound(tree) <==> TagsReadable(r)
    ensures TagsReadable(r) ==>
      var found := CachedTags.Through(tree, d, true); found.Tags? && (found.tags != {} <==> IsTagged(r, d))
  {
    if TagsReadable(r) && tree.listing.Entries? {
      var names := tree.listing.names;
      assert names[..CachedTags.Readable(tree, names)] == names;
      forall t | t in names && r.tags[t] == To(d) ensures t in CachedTags.Pointing(tree, names, d) {
        var i :| 0 <= i < |names| && names[i] == t;
      }
    }
  }

  /** Sorts the enumerated revisions into tagged and untagged ones. */
  method Classify(st: Storage, r: Repo) returns (tagged: set<Digest>, untagged: set<Digest>)
    ensures tagged == Tagged(st, r) && untagged == Enumerated(st, r) - tagged
  {
    tagged, untagged := {}, {};
    var todo := Enumerated(st, r);
    while todo != {}
      invariant todo !! tagged !! untagged && todo + tagged + untagged == Enumerated(st, r)
      invariant forall d :: d in tagged ==> IsTagged(r, d)
      invariant forall d :: d in untagged ==> !IsTagged(r, d)
      decreases todo
    {
      var d :| d in todo;
      if IsTagged(r, d) { tagged := tagged + {d}; } else { untagged := untagged + {d}; }
      todo := todo - {d};
    }
  }

  method MarkRepository(st: Storage, r: Repo, removeUntagged: bool) returns (m: Marking)
    ensures m == MarkRepo(st, r, removeUntagged)
  {
    if removeUntagged && !TagsReadable(r) { return Failed; }
    if r.unreadable { return Failed; }
    var marks, referenced, dels := {}, {}, {};
    if removeUntagged {
      var tagged, untagged := Classify(st, r);
      var ok;
      ok, marks, referenced := MarkTagged(st, r, tagged);
      if !ok { return Failed; }
      dels := untagged - referenced;
    } else {
      referenced := Enumerated(st, r);
    }
    var ok, more := MarkReferenced(st, r, referenced);
    if !ok { return Failed; }
    m := Marked(marks + more, dels);
    assert removeUntagged ==> marks + more == marks + referenced + AllRefs(st, referenced);
  }

  // ---- the whole collection ----

  class Backend {
    var repos: map<string, Repo>
    var blobs: map<Digest, Blob>

    ghost function View(): Storage
      reads this
    {
      Storage(repos, blobs)
    }
  }

  datatype Options = Options(dryRun: bool, removeUntagged: bool)

  /** How a run ends: marking failed, a dry run or a sweep that went through with its estimate, or deletions failed. */
  datatype Report = MarkFailed | DryRun(estimate: nat) | Collected(estimate: nat) | SweepFailed

  /** The names of the tags whose link could be read. */
  ghost predicate ReadableTags(r: Repo, tags: seq<string>) {
    forall t :: t in tags <==> t in r.tags && r.tags[t].To?
  }

  method AllTags(r: Repo) returns (tags: seq<string>)
    ensures ReadableTags(r, tags)
  {
    tags := [];
    var todo := r.tags.Keys;
    while todo != {}
      invariant todo <= r.tags.Keys && forall t :: t in tags <==> t in r.tags && t !in todo && r.tags[t].To?
      decreases todo
    {
      var t :| t in todo;
      if r.tags[t].To? { tags := tags + [t]; }
      todo := todo - {t};
    }
  }

  /** The list names the revisions to unlink in these repositories, each with all tags, and nothing else. */
  ghost predicate Deletions(st: Storage, removeUntagged: bool, names: set<string>, mm: seq<ManifestDel>) {
    && names <= st.repos.Keys
    && (forall i :: 0 <= i < |mm| ==> Deletion(st, removeUntagged, names, mm[i]))
    && (forall n, d :: n in names && d in Dels(st, n, removeUntagged) ==> Listed(mm, n, d))
  }

  ghost predicate Deletion(st: Storage, removeUntagged: bool, names: set<string>, m: ManifestDel)
    requires names <= st.repos.Keys
  {
    m.name in names && m.digest in Dels(st, m.name, removeUntagged) && ReadableTags(st.repos[m.name], m.tags)
  }

  ghost predicate Listed(mm: seq<ManifestDel>, n: string, d: Digest) {
    exists i :: 0 <= i < |mm| && mm[i].name == n && mm[i].digest == d
  }

  /** Appends the revisions to unlink in one repository to the list. */
  method AppendDeletions(mm: seq<ManifestDel>, n: string, r: Repo, dels: set<Digest>) returns (more: seq<ManifestDel>)
    ensures mm <= more
    ensures forall i :: |mm| <= i < |more| ==>
      more[i].name == n && more[i].digest in dels && ReadableTags(r, more[i].tags)
    ensures forall d :: d in dels ==> Listed(more, n, d)
  {
    more := mm;
    var todo := dels;
    while todo != {}
      invariant todo <= dels && mm <= more
      invariant forall i :: |mm| <= i < |more| ==>
        more[i].name == n && more[i].digest in dels && ReadableTags(r, more[i].tags)
      invariant forall d :: d in dels && d !in todo ==> Listed(more, n, d)
      decreases todo
    {
      var d :| d in todo;
      var tags := AllTags(r);
      ListedGrows(more, ManifestDel(n, d, tags));
      more := more + [ManifestDel(n, d, tags)];
      todo := todo - {d};
    }
  }

  lemma ListedGrows(mm: seq<ManifestDel>, m: ManifestDel)
    ensures forall n, d :: Listed(mm, n, d) ==> Listed(mm + [m], n, d)
    ensures Listed(mm + [m], m.name, m.digest)
  {
    var more := mm + [m];
    assert more[|mm|] == m;
    forall n, d | Listed(mm, n, d) ensures Listed(more, n, d) {
      var i :| 0 <= i < |mm| && mm[i].name == n && mm[i].digest == d;
      assert more[i] == mm[i];
    }
  }

  lemma DeletionsGrow(st: Storage, removeUntagged: bool, names: set<string>, mm: seq<ManifestDel>, n: string,
                      more: seq<ManifestDel>)
    requires Deletions(st, removeUntagged, names, mm) && n in st.repos && mm <= more
    requires forall i :: |mm| <= i < |more| ==>
      more[i].name == n && more[i].digest in Dels(st, n, removeUntagged) && ReadableTags(st.repos[n], more[i].tags)
    requires forall d :: d in Dels(st, n, removeUntagged) ==> Listed(more, n, d)
    ensures Deletions(st, removeUntagged, names + {n}, more)
  {
    forall k, d | k in names && d in Dels(st, k, removeUntagged) ensures Listed(more, k, d) {
      var i :| 0 <= i < |mm| && mm[i].name == k && mm[i].digest == d;
      assert more[i] == mm[i];
    }
    forall i | 0 <= i < |more| ensures Deletion(st, removeUntagged, names + {n}, more[i]) {
      if i < |mm| { assert more[i] == mm[i] && Deletion(st, removeUntagged, names, mm[i]); }
    }
  }

  /** The digests marked by these repositories. */
  ghost function MarksOf(st: Storage, removeUntagged: bool, names: set<string>): set<Digest>
    requires names <= st.repos.Keys
  {
    set n, d | n in names && st.repos[n].layersDir && MarkRepo(st, st.repos[n], removeUntagged).Marked?
               && d in MarkRepo(st, st.repos[n], removeUntagged).marks :: d
  }

  /** The walk over the repositories: all marks together, and the list of revisions to unlink. */
  method MarkAll(st: Storage, removeUntagged: bool) returns (ok: bool, marks: set<Digest>, mm: seq<ManifestDel>)
    ensures ok <==> MarksOk(st, removeUntagged)
    ensures ok ==> marks == Marks(st, removeUntagged) && Deletions(st, removeUntagged, st.repos.Keys, mm)
  {
    marks, mm := {}, [];
    var todo := st.repos.Keys;
    ghost var done: set<string> := {};
    while todo != {}
      invariant todo !! done && todo + done == st.repos.Keys
      invariant forall n :: n in done && st.repos[n].layersDir ==> MarkRepo(st, st.repos[n], removeUntagged).Marked?
      invariant marks == MarksOf(st, removeUntagged, done)
      invariant Deletions(st, removeUntagged, done, mm)
      decreases todo
    {
      var n :| n in todo;
      var before := mm;
      if st.repos[n].layersDir {
        var m := MarkRepository(st, st.repos[n], removeUntagged);
        if m.Failed? { return false, {}, []; }
        marks := marks + m.marks;
        mm := AppendDeletions(mm, n, st.repos[n], m.dels);
      }
      DeletionsGrow(st, removeUntagged, done, before, n, mm);
      todo, done := todo - {n}, done + {n};
    }
    ok := true;
    assert done == st.repos.Keys;
    assert Marks(st, removeUntagged) == MarksOf(st, removeUntagged, done);
  }

  /** The walk over the blobs: what is not marked is due for deletion, and its size is added up. */
  method FindUnmarked(blobs: map<Digest, Blob>, marks: set<Digest>) returns (unmarked: set<Digest>, estimate: nat)
    ensures unmarked == blobs.Keys - marks && estimate == SumSizes(blobs, unmarked)
  {
    unmarked, estimate := {}, 0;
    var todo := blobs.Keys;
    while todo != {}
      invariant todo <= blobs.Keys && unmarked == blobs.Keys - todo - marks && estimate == SumSizes(blobs, unmarked)
      decreases todo
    {
      var d :| d in todo;
      if d !in marks {
        SumWithout(blobs, unmarked + {d}, d);
        assert unmarked + {d} - {d} == unmarked;
        unmarked, estimate := unmarked + {d}, estimate + blobs[d].size;
      }
      todo := todo - {d};
    }
  }

  // ---- the link files ----

  /** A link file: that of a revision, or that of a revision in the index of a tag. */
  datatype LinkName = Revision(repo: string, digest: Digest) | Index(repo: string, tag: string, digest: Digest)

  function ByName(): Layout<LinkName> {
    Layout((n, d) => Revision(n, d), (n, t, d) => Index(n, t, d))
  }

  predicate HasLink(repos: map<string, Repo>, l: LinkName) {
    && l.repo in repos
    && match l
       case Revision(n, d) => d in repos[n].revisions
       case Index(n, t, d) => IndexLink(t, d) in repos[n].index
  }

  function LinkNames(repos: map<string, Repo>): (links: set<LinkName>)
    ensures forall l :: l in links <==> HasLink(repos, l)
  {
    (set n, d | n in repos && d in repos[n].revisions :: Revision(n, d))
    + (set n, i | n in repos && i in repos[n].index :: Index(n, i.tag, i.digest))
  }

  /** The repositories with only these links left. */
  function Keep(repos: map<string, Repo>, links: set<LinkName>): map<string, Repo> {
    map n | n in repos :: repos[n].(
      revisions := (set d | d in repos[n].revisions && Revision(n, d) in links),
      index := (set i | i in repos[n].index && Index(n, i.tag, i.digest) in links))
  }

  /** The links of the listed manifests: those of the revisions to unlink, and their index links under readable tags. */
  lemma DueLinks(st: Storage, removeUntagged: bool, mm: seq<ManifestDel>, l: LinkName)
    requires Deletions(st, removeUntagged, st.repos.Keys, mm)
    ensures l in AllLinks(ByName(), mm) <==>
      && l.repo in st.repos && l.digest in Dels(st, l.repo, removeUntagged)
      && (l.Index? ==> l.tag in st.repos[l.repo].tags && st.repos[l.repo].tags[l.tag].To?)
  {
    var at := ByName();
    if l in AllLinks(at, mm) {
      var i :| 0 <= i < |mm| && l in Links(at, mm[i]);
      assert Deletion(st, removeUntagged, st.repos.Keys, mm[i]);
    }
    if l.repo in st.repos && l.digest in Dels(st, l.repo, removeUntagged) {
      assert Listed(mm, l.repo, l.digest);
      var i :| 0 <= i < |mm| && mm[i].name == l.repo && mm[i].digest == l.digest;
      assert Deletion(st, removeUntagged, st.repos.Keys, mm[i]);
      if l.Revision? || l.tag in mm[i].tags { LinkListed(mm[i], l); }
      assert l in Links(at, mm[i]) ==> l in AllLinks(at, mm);
    }
  }

  lemma LinkListed(m: ManifestDel, l: LinkName)
    requires l.repo == m.name && l.digest == m.digest && (l.Index? ==> l.tag in m.tags)
    ensures l in Links(ByName(), m)
  {
    if l.Index? {
      var k :| 0 <= k < |m.tags| && m.tags[k] == l.tag;
      assert ByName().tag(m.name, m.tags[k], m.digest) in TagLinks(ByName(), m, |m.tags|);
    }
  }

  /** Removing all links of the list is the unlinking that the sweep asks for. */
  lemma KeepIsUnlink(st: Storage, removeUntagged: bool, mm: seq<ManifestDel>)
    requires MarksOk(st, removeUntagged) && Deletions(st, removeUntagged, st.repos.Keys, mm)
    ensures Keep(st.repos, LinkNames(st.repos) - AllLinks(ByName(), mm)) == Swept(st, removeUntagged).repos
  {
    var kept := Keep(st.repos, LinkNames(st.repos) - AllLinks(ByName(), mm));
    forall n | n in st.repos ensures kept[n] == Unlink(st.repos[n], Dels(st, n, removeUntagged)) {
      var r, dels := st.repos[n], Dels(st, n, removeUntagged);
      forall d | d in r.revisions ensures d in kept[n].revisions <==> d !in dels {
        DueLinks(st, removeUntagged, mm, Revision(n, d));
      }
      forall i | i in r.index
        ensures i in kept[n].index <==> !(i.digest in dels && i.tag in r.tags && r.tags[i.tag].To?)
      {
        DueLinks(st, removeUntagged, mm, Index(n, i.tag, i.digest));
      }
      assert kept[n].revisions == r.revisions - dels;
      assert kept[n].index == Unlink(r, dels).index;
    }
    assert kept == Swept(st, removeUntagged).repos;
  }

  /** Whichever of those links are removed, the blobs being all there, what is left is safe. */
  lemma KeepLeaves(st: Storage, removeUntagged: bool, mm: seq<ManifestDel>, links: set<LinkName>)
    requires MarksOk(st, removeUntagged) && Deletions(st, removeUntagged, st.repos.Keys, mm)
    requires LinkNames(st.repos) - AllLinks(ByName(), mm) <= links
    ensures SweepLeaves(st, removeUntagged, Storage(Keep(st.repos, links), st.blobs))
  {
    forall n, d | n in st.repos && d in st.repos[n].revisions && d !in Dels(st, n, removeUntagged)
      ensures d in Keep(st.repos, links)[n].revisions
    {
      DueLinks(st, removeUntagged, mm, Revision(n, d));
    }
  }

  /** Only what parses as a digest is ever taken for a revision. */
  predicate Parsed(st: Storage) {
    forall n, d :: n in st.repos && d in st.repos[n].revisions ==> Colon(d) < |d|
  }

  lemma DeletionsReadable(st: Storage, removeUntagged: bool, mm: seq<ManifestDel>)
    requires Parsed(st) && Deletions(st, removeUntagged, st.repos.Keys, mm)
    ensures AllReadable(mm)
  {
    forall i | 0 <= i < |mm| ensures Readable(mm[i]) { assert Deletion(st, removeUntagged, st.repos.Keys, mm[i]); }
  }

  /** Unlinks the listed revisions in batches of a hundred and stops at the first batch that the driver fails on. */
  method RemoveManifests(backend: Backend, mm: seq<ManifestDel>, failing: set<LinkName>) returns (ok: bool)
    modifies backend`repos
    ensures var left := Left(ByName(), LinkNames(old(backend.repos)), mm, BATCH, failing);
      backend.repos == Keep(old(backend.repos), left.0) && ok == left.1
  {
    var driver := new Driver(LinkNames(backend.repos));
    ok := RemoveInBatches(ByName(), driver, mm, BATCH, failing);
    assert mm[0..] == mm;
    backend.repos := Keep(backend.repos, driver.files);
  }

  /**
   Mark, then sweep. A failed mark phase and a dry run change nothing; when all
   deletions succeed exactly the unmarked blobs and the untagged revisions are
   gone and the estimate was right; otherwise whatever is left is safe.
   */
  method Collect(backend: Backend, opts: Options, failingLinks: set<LinkName>, failingBlobs: set<Digest>)
    returns (report: Report)
    requires Parsed(backend.View())
    modifies backend
    ensures report == MarkFailed <==> !MarksOk(old(backend.View()), opts.removeUntagged)
    ensures report == MarkFailed || opts.dryRun ==> backend.View() == old(backend.View())
    ensures report != MarkFailed ==> SweepLeaves(old(backend.View()), opts.removeUntagged, backend.View())
    ensures report.DryRun? ==>
      report.estimate == SumSizes(old(backend.blobs), Unmarked(old(backend.View()), opts.removeUntagged))
    ensures report.Collected? ==>
      && backend.View() == Swept(old(backend.View()), opts.removeUntagged)
      && old(TotalSize(backend.View())) == TotalSize(backend.View()) + report.estimate
    ensures failingLinks == {} && failingBlobs == {} && !opts.dryRun ==>
      report.Collected? || !MarksOk(old(backend.View()), opts.removeUntagged)
  {
    var st := Storage(backend.repos, backend.blobs);
    var ok, marks, mm := MarkAll(st, opts.removeUntagged);
    if !ok { return MarkFailed; }
    var unmarked, estimate := FindUnmarked(st.blobs, marks);
    if opts.dryRun {
      return DryRun(estimate);
    }
    DeletionsReadable(st, opts.removeUntagged, mm);
    BatchesAreOneCall(ByName(), LinkNames(st.repos), mm, BATCH, failingLinks);
    ghost var left := Left(ByName(), LinkNames(st.repos), mm, BATCH, failingLinks);
    KeepLeaves(st, opts.removeUntagged, mm, left.0);
    ok := RemoveManifests(backend, mm, failingLinks);
    if !ok { return SweepFailed; }
    KeepIsUnlink(st, opts.removeUntagged, mm);
    backend.blobs := backend.blobs - (unmarked - failingBlobs);
    assert unmarked - failingBlobs <= Unmarked(st, opts.removeUntagged);
    if !(unmarked !! failingBlobs) { return SweepFailed; }
    assert unmarked - failingBlobs == unmarked;
    EstimateIsFreed(st, opts.removeUntagged);
    return Collected(estimate);
  }
}
