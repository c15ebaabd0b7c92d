/** Deleting the links of many manifests in batches, however links are named. */
module Batches {
  import opened Digests

  datatype ManifestDel = ManifestDel(name: string, digest: string, tags: seq<string>)

  const BATCH := 100

  /** How links are named: by repository and digest, or by repository, tag and digest. */
  datatype Layout<L> = Layout(revision: (string, string) -> L, tag: (string, string, string) -> L)

  // ---- which links a list of manifests names ----

  /** Asking a digest without a colon for its algorithm panics. */
  predicate Readable(m: ManifestDel) {
    Colon(m.digest) < |m.digest|
  }

  predicate AllReadable(mm: seq<ManifestDel>) {
    forall i :: 0 <= i < |mm| ==> Readable(mm[i])
  }

  ghost function TagLinks<L>(at: Layout<L>, m: ManifestDel, n: nat): set<L>
    requires n <= |m.tags|
  {
    set k | 0 <= k < n :: at.tag(m.name, m.tags[k], m.digest)
  }

  ghost function Links<L>(at: Layout<L>, m: ManifestDel): set<L> {
    {at.revision(m.name, m.digest)} + TagLinks(at, m, |m.tags|)
  }

  ghost function AllLinks<L>(at: Layout<L>, mm: seq<ManifestDel>): set<L> {
    set i, p | 0 <= i < |mm| && p in Links(at, mm[i]) :: p
  }

  function BatchEnd(size: nat, n: nat): nat {
    if n < size then n else size
  }

  /** The links of one batch that are due: none when building their paths panics. */
  ghost function Due<L>(at: Layout<L>, batch: seq<ManifestDel>): set<L> {
    if AllReadable(batch) then AllLinks(at, batch) else {}
  }

  /**
   The links that deleting in batches leaves and whether it succeeds. A batch whose paths cannot be
   built takes nothing away and counts as done; a batch that fails ends the run.
   */
  ghost function Left<L>(at: Layout<L>, files: set<L>, mm: seq<ManifestDel>, size: nat, failing: set<L>): (set<L>, bool)
    requires size > 0
    decreases |mm|
  {
    if mm == [] then (files, true)
    else
      var n := BatchEnd(size, |mm|);
      var due := Due(at, mm[..n]);
      var left := files - (due - failing);
      if due !! failing then Left(at, left, mm[n..], size, failing) else (left, false)
  }

  // ---- what batches delete ----

  /** The batch that an index belongs to. */
  function BatchNo(i: nat, size: nat): nat
    requires size > 0
  {
    if i < size then 0 else 1 + BatchNo(i - size, size)
  }

  /** Every digest in the batch of the manifest at `i` is readable. */
  ghost predicate BatchReadable(mm: seq<ManifestDel>, size: nat, i: nat)
    requires size > 0
  {
    forall j :: 0 <= j < |mm| && BatchNo(j, size) == BatchNo(i, size) ==> Readable(mm[j])
  }

  /** The links of the manifests whose batch is readable. */
  ghost function Deleted<L>(at: Layout<L>, mm: seq<ManifestDel>, size: nat): set<L>
    requires size > 0
  {
    set i, p | 0 <= i < |mm| && BatchReadable(mm, size, i) && p in Links(at, mm[i]) :: p
  }

  lemma {:induction false} FirstBatch(mm: seq<ManifestDel>, size: nat, i: nat)
    requires size > 0 && i < BatchEnd(size, |mm|)
    ensures BatchReadable(mm, size, i) <==> AllReadable(mm[..BatchEnd(size, |mm|)])
  {
    var n := BatchEnd(size, |mm|);
    assert forall j :: 0 <= j < |mm| ==> (BatchNo(j, size) == 0 <==> j < n);
    if BatchReadable(mm, size, i) {
      forall j | 0 <= j < n ensures Readable(mm[..n][j]) { assert Readable(mm[j]); }
    }
  }

  lemma {:induction false} LaterBatch(mm: seq<ManifestDel>, size: nat, i: nat)
    requires size > 0 && size <= i < |mm|
    ensures BatchReadable(mm, size, i) <==> BatchReadable(mm[size..], size, i - size)
  {
    var rest := mm[size..];
    forall j | 0 <= j < |rest| ensures rest[j] == mm[size + j] && BatchNo(size + j, size) == 1 + BatchNo(j, size) { }
    if BatchReadable(rest, size, i - size) {
      forall j | 0 <= j < |mm| && BatchNo(j, size) == BatchNo(i, size) ensures Readable(mm[j]) {
        assert Readable(rest[j - size]);
      }
    }
  }

  lemma {:induction false} DeletedSplit<L>(at: Layout<L>, mm: seq<ManifestDel>, size: nat)
    requires size > 0 && mm != []
    ensures var n := BatchEnd(size, |mm|); Deleted(at, mm, size) == Due(at, mm[..n]) + Deleted(at, mm[n..], size)
  {
    var n := BatchEnd(size, |mm|);
    var batch, rest := mm[..n], mm[n..];
    forall p | p in Deleted(at, mm, size) ensures p in Due(at, batch) + Deleted(at, rest, size) {
      var i :| 0 <= i < |mm| && BatchReadable(mm, size, i) && p in Links(at, mm[i]);
      if i < n { FirstBatch(mm, size, i); assert batch[i] == mm[i]; }
      else { LaterBatch(mm, size, i); assert rest[i - n] == mm[i]; }
    }
    forall p | p in Due(at, batch) ensures p in Deleted(at, mm, size) {
      var i :| 0 <= i < |batch| && p in Links(at, batch[i]);
      FirstBatch(mm, size, i);
    }
    forall p | p in Deleted(at, rest, size) ensures p in Deleted(at, mm, size) {
      var i :| 0 <= i < |rest| && BatchReadable(rest, size, i) && p in Links(at, rest[i]);
      LaterBatch(mm, size, n + i);
      assert mm[n + i] == rest[i];
    }
  }

  /**
   Batches of any size delete exactly the links of the manifests whose batch is readable and report
   success although the others stay; they fail exactly when the driver fails on one of those links,
   and then still delete nothing else.
   */
  lemma {:induction false} BatchesLeave<L>(at: Layout<L>, files: set<L>, mm: seq<ManifestDel>, size: nat,
                                           failing: set<L>)
    requires size > 0
    ensures Left(at, files, mm, size, failing).1 <==> Deleted(at, mm, size) !! failing
    ensures Left(at, files, mm, size, failing).1 ==>
      Left(at, files, mm, size, failing).0 == files - Deleted(at, mm, size)
    ensures files - (Deleted(at, mm, size) - failing) <= Left(at, files, mm, size, failing).0 <= files
    decreases |mm|
  {
    if mm != [] {
      var n := BatchEnd(size, |mm|);
      DeletedSplit(at, mm, size);
      BatchesLeave(at, files - (Due(at, mm[..n]) - failing), mm[n..], size, failing);
    }
  }

  /** With readable digests only, batches of any size do what one call on the whole list would. */
  lemma {:induction false} BatchesAreOneCall<L>(at: Layout<L>, files: set<L>, mm: seq<ManifestDel>, size: nat,
                                                failing: set<L>)
    requires size > 0 && AllReadable(mm)
    ensures Left(at, files, mm, size, failing).1 <==> AllLinks(at, mm) !! failing
    ensures Left(at, files, mm, size, failing).1 ==> Left(at, files, mm, size, failing).0 == files - AllLinks(at, mm)
    ensures files - (AllLinks(at, mm) - failing) <= Left(at, files, mm, size, failing).0 <= files
  {
    BatchesLeave(at, files, mm, size, failing);
    assert Deleted(at, mm, size) == AllLinks(at, mm);
  }

  /**
   Without driver failures success is reported, and a link file is left behind if and only if
   every manifest with that link is in a batch with an unreadable digest.
   */
  lemma {:induction false} LinkStaysIff<L>(at: Layout<L>, files: set<L>, mm: seq<ManifestDel>, size: nat, p: L)
    requires size > 0 && p in files
    ensures Left(at, files, mm, size, {}).1
    ensures p in Left(at, files, mm, size, {}).0 <==>
      forall i :: 0 <= i < |mm| && p in Links(at, mm[i]) ==> !BatchReadable(mm, size, i)
  {
    BatchesLeave(at, files, mm, size, {});
  }

  /** A list whose digests are all unreadable is reported deleted although no link is. */
  lemma {:induction false} UnreadableBatchesAreSkipped<L>(at: Layout<L>, files: set<L>, mm: seq<ManifestDel>, size: nat,
                                                          failing: set<L>)
    requires size > 0 && forall i :: 0 <= i < |mm| ==> !Readable(mm[i])
    ensures Left(at, files, mm, size, failing) == (files, true)
  {
    BatchesLeave(at, files, mm, size, failing);
    forall i | 0 <= i < |mm| ensures !BatchReadable(mm, size, i) { assert !Readable(mm[i]); }
    assert Deleted(at, mm, size) == {} && files - {} == files;
  }

  /** So is a manifest that merely shares its batch with an unreadable digest. */
  lemma {:induction false} MixedBatchIsSkipped<L>(at: Layout<L>, files: set<L>, good: ManifestDel, bad: ManifestDel)
    requires Readable(good) && !Readable(bad)
    ensures Left(at, files, [good, bad], BATCH, {}) == (files, true)
    ensures Left(at, files, [good], BATCH, {}) == (files - Links(at, good), true)
  {
    var both, one := [good, bad], [good];
    BatchesLeave(at, files, both, BATCH, {});
    assert BatchNo(0, BATCH) == BatchNo(1, BATCH) == 0;
    assert !Readable(both[1]);
    assert Deleted(at, both, BATCH) == {} && files - {} == files;
    assert AllReadable(one) && one[0] == good;
    BatchesAreOneCall(at, files, one, BATCH, {});
    assert AllLinks(at, one) == Links(at, good);
  }

  // ---- names do not matter ----

  ghost function Renamed<K, L>(f: K -> L, ks: set<K>): set<L> {
    set k | k in ks :: f(k)
  }

  /** Every link name of the second layout is the image of that of the first. */
  ghost predicate Renames<K, L>(f: K -> L, a: Layout<K>, b: Layout<L>) {
    && (forall n, d :: b.revision(n, d) == f(a.revision(n, d)))
    && (forall n, t, d :: b.tag(n, t, d) == f(a.tag(n, t, d)))
  }

  ghost predicate Injective<K, L>(f: K -> L, ks: set<K>) {
    forall x, y :: x in ks && y in ks && f(x) == f(y) ==> x == y
  }

  lemma {:induction false} LinksImage<K, L>(f: K -> L, a: Layout<K>, b: Layout<L>, m: ManifestDel)
    requires Renames(f, a, b)
    ensures Links(b, m) == Renamed(f, Links(a, m))
  {
    forall k | 0 <= k < |m.tags| ensures b.tag(m.name, m.tags[k], m.digest) in Renamed(f, Links(a, m)) {
      assert a.tag(m.name, m.tags[k], m.digest) in TagLinks(a, m, |m.tags|);
    }
  }

  lemma {:induction false} DueImage<K, L>(f: K -> L, a: Layout<K>, b: Layout<L>, mm: seq<ManifestDel>)
    requires Renames(f, a, b)
    ensures Due(b, mm) == Renamed(f, Due(a, mm))
  {
    forall i | 0 <= i < |mm| ensures Links(b, mm[i]) == Renamed(f, Links(a, mm[i])) { LinksImage(f, a, b, mm[i]); }
    forall p | p in AllLinks(b, mm) ensures p in Renamed(f, AllLinks(a, mm)) {
      var i :| 0 <= i < |mm| && p in Links(b, mm[i]);
      var k :| k in Links(a, mm[i]) && p == f(k);
      assert k in AllLinks(a, mm);
    }
    forall k | k in AllLinks(a, mm) ensures f(k) in AllLinks(b, mm) {
      var i :| 0 <= i < |mm| && k in Links(a, mm[i]);
      assert f(k) in Links(b, mm[i]);
    }
  }

  /** Deleting under other names leaves the same links under those names, as long as no two names coincide. */
  lemma {:induction false} LeftImage<K, L>(f: K -> L, a: Layout<K>, b: Layout<L>, files: set<K>,
                                           mm: seq<ManifestDel>, size: nat, failing: set<K>, all: set<K>)
    requires size > 0 && Renames(f, a, b) && Injective(f, all) && files <= all && failing <= all &&
      AllLinks(a, mm) <= all
    ensures var left := Left(a, files, mm, size, failing);
      Left(b, Renamed(f, files), mm, size, Renamed(f, failing)) == (Renamed(f, left.0), left.1)
    decreases |mm|
  {
    if mm != [] {
      var n := BatchEnd(size, |mm|);
      var due := Due(a, mm[..n]);
      DueImage(f, a, b, mm[..n]);
      SomeLinks(a, mm, n);
      ImageMinus(f, due, failing, all);
      ImageMinus(f, files, due - failing, all);
      LeftImage(f, a, b, files - (due - failing), mm[n..], size, failing, all);
    }
  }

  lemma {:induction false} SomeLinks<L>(at: Layout<L>, mm: seq<ManifestDel>, n: nat)
    requires n <= |mm|
    ensures AllLinks(at, mm[..n]) <= AllLinks(at, mm) && AllLinks(at, mm[n..]) <= AllLinks(at, mm)
  { }

  lemma {:induction false} ImageMinus<K, L>(f: K -> L, a: set<K>, b: set<K>, all: set<K>)
    requires Injective(f, all) && a <= all && b <= all
    ensures Renamed(f, a) - Renamed(f, b) == Renamed(f, a - b)
    ensures Renamed(f, a) !! Renamed(f, b) <==> a !! b
  {
    if !(a !! b) {
      var x :| x in a && x in b;
      assert f(x) in Renamed(f, a) && f(x) in Renamed(f, b);
    }
  }

  // ---- the storage driver and the batches ----

  ghost function Elements<L>(ps: seq<L>): set<L> {
    set i | 0 <= i < |ps| :: ps[i]
  }

  lemma {:induction false} ElementsSnoc<L>(ps: seq<L>, p: L)
    ensures Elements(ps + [p]) == Elements(ps) + {p}
  {
    var qs := ps + [p];
    assert qs[|ps|] == p;
    forall q | q in Elements(ps) ensures q in Elements(qs) {
      var i :| 0 <= i < |ps| && q == ps[i];
      assert qs[i] == q;
    }
  }

  class Driver<L(==)> {
    var files: set<L>

    constructor (files: set<L>)
      ensures this.files == files
    {
      this.files := files;
    }

    /** Bulk deletion is idempotent; the paths in `failing` cannot be deleted. */
    method DeleteFiles(paths: seq<L>, failing: set<L>) returns (count: nat, ok: bool)
      modifies this
      ensures files == old(files) - (Elements(paths) - failing)
      ensures ok <==> Elements(paths) !! failing
      ensures ok ==> count == |paths|
      ensures count <= |paths|
    {
      count, ok := 0, true;
      var i := 0;
      while i < |paths|
        invariant 0 <= i <= |paths| && count <= i
        invariant files == old(files) - (Elements(paths[..i]) - failing)
        invariant ok <==> Elements(paths[..i]) !! failing
        invariant ok ==> count == i
      {
        ElementsSnoc(paths[..i], paths[i]);
        assert paths[..i + 1] == paths[..i] + [paths[i]];
        if paths[i] in failing { ok := false; }
        else {
          files := files - {paths[i]};
          count := count + 1;
        }
        i := i + 1;
      }
      assert paths[..|paths|] == paths;
    }
  }

  method CollectTagLinks<L>(at: Layout<L>, m: ManifestDel) returns (links: seq<L>)
    ensures Elements(links) == TagLinks(at, m, |m.tags|)
  {
    links := [];
    var k := 0;
    while k < |m.tags|
      invariant 0 <= k <= |m.tags|
      invariant Elements(links) == TagLinks(at, m, k)
    {
      var link := at.tag(m.name, m.tags[k], m.digest);
      ElementsSnoc(links, link);
      links := links + [link];
      k := k + 1;
    }
  }

  lemma {:induction false} AllLinksSnoc<L>(at: Layout<L>, mm: seq<ManifestDel>, i: nat)
    requires i < |mm|
    ensures AllLinks(at, mm[..i + 1]) == AllLinks(at, mm[..i]) + Links(at, mm[i])
  { }

  /** The paths of all links of a batch: revisions first, then tags. */
  method CollectLinks<L>(at: Layout<L>, mm: seq<ManifestDel>) returns (links: seq<L>)
    ensures Elements(links) == AllLinks(at, mm)
    ensures |links| >= |mm|
  {
    var revisions: seq<L>, tagLinks: seq<L> := [], [];
    var i := 0;
    while i < |mm|
      invariant 0 <= i <= |mm| && |revisions| == i
      invariant Elements(revisions) + Elements(tagLinks) == AllLinks(at, mm[..i])
    {
      var link := at.revision(mm[i].name, mm[i].digest);
      var more := CollectTagLinks(at, mm[i]);
      ElementsSnoc(revisions, link);
      ElementsConcat(tagLinks, more);
      AllLinksSnoc(at, mm, i);
      revisions, tagLinks := revisions + [link], tagLinks + more;
      i := i + 1;
    }
    assert mm[..|mm|] == mm;
    links := revisions + tagLinks;
    ElementsConcat(revisions, tagLinks);
  }

  lemma {:induction false} ElementsConcat<L>(a: seq<L>, b: seq<L>)
    ensures Elements(a + b) == Elements(a) + Elements(b)
  {
    var ab := a + b;
    forall p | p in Elements(a) + Elements(b) ensures p in Elements(ab) {
      if p in Elements(a) {
        var i :| 0 <= i < |a| && p == a[i];
        assert ab[i] == p;
      } else {
        var i :| 0 <= i < |b| && p == b[i];
        assert ab[|a| + i] == p;
      }
    }
  }

  /** One batch; a panic while building the paths is recovered and reported as success. */
  method RemoveManifestsBatch<L(==)>(at: Layout<L>, driver: Driver<L>, mm: seq<ManifestDel>, failing: set<L>)
    returns (ok: bool)
    modifies driver
    ensures driver.files == old(driver.files) - (Due(at, mm) - failing)
    ensures ok <==> Due(at, mm) !! failing
  {
    if !AllReadable(mm) { return true; }
    var links := CollectLinks(at, mm);
    if |links| == 0 {
      assert AllLinks(at, mm) == {};
      return true;
    }
    var count;
    count, ok := driver.DeleteFiles(links, failing);
  }

  /** Going on from index `i` with these files ends as `all` does. */
  ghost predicate EndsAs<L>(at: Layout<L>, all: (set<L>, bool), files: set<L>, mm: seq<ManifestDel>, i: nat,
                            size: nat, failing: set<L>)
    requires size > 0 && i <= |mm|
  {
    all == Left(at, files, mm[i..], size, failing)
  }

  lemma {:induction false} EndsAsStep<L>(at: Layout<L>, all: (set<L>, bool), files: set<L>, left: set<L>,
                                         mm: seq<ManifestDel>,
                                            i: nat, n: nat, size: nat, failing: set<L>, ok: bool)
    requires i < |mm| && size > 0 && n == BatchEnd(size, |mm| - i) && left == files - (Due(at, mm[i..i + n]) - failing)
    requires EndsAs(at, all, files, mm, i, size, failing) && (ok <==> Due(at, mm[i..i + n]) !! failing)
    ensures ok ==> EndsAs(at, all, left, mm, i + n, size, failing)
    ensures !ok ==> all == (left, false)
  {
    assert mm[i..][..n] == mm[i..i + n] && mm[i..][n..] == mm[i + n..];
  }

  /** Batch after batch until one fails. */
  method RemoveInBatches<L(==)>(at: Layout<L>, driver: Driver<L>, mm: seq<ManifestDel>, size: nat, failing: set<L>)
    returns (ok: bool)
    requires size > 0
    modifies driver
    ensures EndsAs(at, (driver.files, ok), old(driver.files), mm, 0, size, failing)
  {
    var i := 0;
    ghost var all := Left(at, driver.files, mm[0..], size, failing);
    while i < |mm|
      invariant 0 <= i <= |mm|
      invariant EndsAs(at, all, driver.files, mm, i, size, failing)
    {
      var n := BatchEnd(size, |mm| - i);
      ghost var files := driver.files;
      ok := RemoveManifestsBatch(at, driver, mm[i..i + n], failing);
      EndsAsStep(at, all, files, driver.files, mm, i, n, size, failing, ok);
      if !ok { return; }
      i := i + n;
    }
    return true;
  }

}
