/** The files behind the links: deleting by path does to them what unlinking does to the repositories. */
module SweepPaths {
  import opened Tagging
  import opened Digests
  import opened Paths
  import opened Batches
  import opened Vacuum
  import opened GarbageCollect
  import opened MarkAndSweep

  function PathOf(l: LinkName): string {
    match l
    case Revision(n, d) => RevisionLink(n, d)
    case Index(n, t, d) => TagLink(n, t, d)
  }

  function SpecOf(l: LinkName): Spec {
    match l
    case Revision(n, d) => ManifestRevisionLink(n, d)
    case Index(n, t, d) => ManifestTagIndexEntryLink(n, t, d)
  }

  predicate ValidLink(l: LinkName) {
    ValidName(l.repo) && IsValid(l.digest) && (l.Index? ==> ValidLabel(l.tag))
  }

  ghost predicate AllValid(links: set<LinkName>) {
    forall l :: l in links ==> ValidLink(l)
  }

  lemma {:induction false} LinkPath(l: LinkName)
    requires ValidLink(l)
    ensures ValidSpec(SpecOf(l)) && PathFor(SpecOf(l)) == Path(PathOf(l))
  {
    match l
    case Revision(n, d) => RevisionLinkIsPath(n, d);
    case Index(n, t, d) => TagLinkIsPath(n, t, d);
  }

  lemma {:induction false} LinkPathsDiffer(a: LinkName, b: LinkName)
    requires ValidLink(a) && ValidLink(b) && PathOf(a) == PathOf(b)
    ensures a == b
  {
    LinkPath(a);
    LinkPath(b);
    PathsAreDistinct(SpecOf(a), SpecOf(b));
  }

  lemma {:induction false} PathsRename()
    ensures Renames(PathOf, ByName(), HandMade())
  { }

  /**
   For every list of manifests, batch size and set of failing files, deleting by hand-made path
   leaves exactly the files of the links that deleting by name leaves, with the same result.
   */
  lemma {:induction false} FilesFollowLinks(links: set<LinkName>, mm: seq<ManifestDel>, size: nat,
                                            failing: set<LinkName>)
    requires size > 0 && AllValid(links) && AllValid(failing) && AllValid(AllLinks(ByName(), mm))
    ensures var left := Left(ByName(), links, mm, size, failing);
      Left(HandMade(), Renamed(PathOf, links), mm, size, Renamed(PathOf, failing)) == (Renamed(PathOf, left.0), left.1)
  {
    var all := links + failing + AllLinks(ByName(), mm);
    forall a, b | a in all && b in all && PathOf(a) == PathOf(b) ensures a == b { LinkPathsDiffer(a, b); }
    PathsRename();
    LeftImage(PathOf, ByName(), HandMade(), links, mm, size, failing, all);
  }

  lemma {:induction false} KeptNames(repos: map<string, Repo>, links: set<LinkName>)
    ensures LinkNames(Keep(repos, links)) == LinkNames(repos) * links
  {
    forall l: LinkName ensures HasLink(Keep(repos, links), l) <==> HasLink(repos, l) && l in links {
      if l.Index? { assert IndexLink(l.tag, l.digest).tag == l.tag; }
    }
  }

  /**
   The files that the vacuum leaves, given the collected list, are the link files
   of the swept storage: the two descriptions of unlinking agree.
   */
  lemma {:induction false} VacuumUnlinks(st: Storage, removeUntagged: bool, mm: seq<ManifestDel>)
    requires MarksOk(st, removeUntagged) && Deletions(st, removeUntagged, st.repos.Keys, mm)
    requires AllValid(LinkNames(st.repos)) && forall n, t :: n in st.repos && t in st.repos[n].tags ==> ValidLabel(t)
    ensures Left(HandMade(), Renamed(PathOf, LinkNames(st.repos)), mm, BATCH, {})
         == (Renamed(PathOf, LinkNames(Swept(st, removeUntagged).repos)), true)
  {
    var names, due := LinkNames(st.repos), AllLinks(ByName(), mm);
    forall l | l in due ensures ValidLink(l) {
      DueLinks(st, removeUntagged, mm, l);
      assert HasLink(st.repos, Revision(l.repo, l.digest));
    }
    forall i | 0 <= i < |mm| ensures Readable(mm[i]) {
      assert Deletion(st, removeUntagged, st.repos.Keys, mm[i]);
      assert HasLink(st.repos, Revision(mm[i].name, mm[i].digest));
    }
    FilesFollowLinks(names, mm, BATCH, {});
    BatchesAreOneCall(ByName(), names, mm, BATCH, {});
    KeepIsUnlink(st, removeUntagged, mm);
    KeptNames(st.repos, names - due);
    assert Renamed(PathOf, {}) == {} && names * (names - due) == names - due;
  }
}
