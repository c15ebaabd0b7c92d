/** Marker pagination of the catalog and of tag lists over the metadata database. */
module Pagination {
  import opened Text

  // ---- selecting and ordering one column ----

  /** The rows whose key sorts after the marker. */
  function After(keys: seq<string>, last: string): (r: seq<string>)
    ensures |r| <= |keys|
    ensures forall k :: k in r <==> k in keys && Less(last, k)
  {
    if keys == [] then []
    else if Less(last, keys[0]) then [keys[0]] + After(keys[1..], last)
    else After(keys[1..], last)
  }

  function Insert(k: string, sorted: seq<string>): seq<string> {
    if sorted == [] || AtMost(k, sorted[0]) then [k] + sorted else [sorted[0]] + Insert(k, sorted[1..])
  }

  /** `ORDER BY` the key. */
  function Sort(keys: seq<string>): seq<string> {
    if keys == [] then [] else Insert(keys[0], Sort(keys[1..]))
  }

  ghost predicate Increasing(s: seq<string>) {
    forall i, j :: 0 <= i < j < |s| ==> Less(s[i], s[j])
  }

  ghost predicate Distinct(s: seq<string>) {
    forall i, j :: 0 <= i < j < |s| ==> s[i] != s[j]
  }

  lemma {:induction false} IncreasingTail(s: seq<string>)
    requires s != []
    ensures Increasing(s) <==> (forall j :: 1 <= j < |s| ==> Less(s[0], s[j])) && Increasing(s[1..])
  { }

  lemma {:induction false} InsertSpec(k: string, s: seq<string>)
    requires Increasing(s) && k !in s
    ensures Increasing(Insert(k, s)) && multiset(Insert(k, s)) == multiset(s) + multiset{k}
  {
    var r := Insert(k, s);
    if s == [] { }
    else {
      LessTotal(k, s[0]);
      IncreasingTail(s);
      assert s == [s[0]] + s[1..];
      if AtMost(k, s[0]) {
        assert r[1..] == s;
        forall j | 1 <= j < |r| ensures Less(r[0], r[j]) { if j > 1 { LessTransitive(k, s[0], s[j - 1]); } }
        IncreasingTail(r);
      } else {
        InsertSpec(k, s[1..]);
        var t := Insert(k, s[1..]);
        assert r[1..] == t;
        forall j | 1 <= j < |r| ensures Less(r[0], r[j]) {
          assert r[j] in multiset(t);
          if r[j] != k { assert r[j] in s[1..]; }
        }
        IncreasingTail(r);
      }
    }
  }

  /** Ordering keeps the rows, and orders distinct keys strictly. */
  lemma {:induction false} SortSpec(keys: seq<string>)
    requires Distinct(keys)
    ensures Increasing(Sort(keys)) && multiset(Sort(keys)) == multiset(keys)
    ensures |Sort(keys)| == |keys| && forall k :: k in Sort(keys) <==> k in keys
  {
    if keys != [] {
      var rest := keys[1..];
      assert keys == [keys[0]] + rest;
      SortSpec(rest);
      assert keys[0] !in rest;
      assert keys[0] !in Sort(rest);
      InsertSpec(keys[0], Sort(rest));
    }
    assert |multiset(Sort(keys))| == |Sort(keys)| && |multiset(keys)| == |keys|;
    assert forall k :: k in Sort(keys) <==> k in multiset(Sort(keys));
  }

  lemma {:induction false} AfterDistinct(keys: seq<string>, last: string)
    requires Distinct(keys)
    ensures Distinct(After(keys, last))
  {
    if keys != [] {
      AfterDistinct(keys[1..], last);
      assert keys[0] !in keys[1..];
      assert keys[0] !in After(keys[1..], last);
    }
  }

  lemma {:induction false} AfterInsert(k: string, s: seq<string>, m: string)
    requires Increasing(s)
    ensures After(Insert(k, s), m) == if Less(m, k) then Insert(k, After(s, m)) else After(s, m)
  {
    if s != [] {
      IncreasingTail(s);
      if AtMost(k, s[0]) {
        assert Insert(k, s)[1..] == s;
        if Less(m, k) {
          if k != s[0] { LessTransitive(m, k, s[0]); }
          assert After(s, m)[0] == s[0];
        }
      } else {
        LessTotal(k, s[0]);
        AfterInsert(k, s[1..], m);
        assert Insert(k, s)[1..] == Insert(k, s[1..]);
        if Less(m, s[0]) {
          LessTransitive(m, s[0], k);
          assert After(s, m)[1..] == After(s[1..], m);
        } else if Less(m, k) { InsertBefore(k, s, m); }
      }
    }
  }

  /** Inserting below a marker that only drops the head. */
  lemma {:induction false} InsertBefore(k: string, s: seq<string>, m: string)
    requires s != [] && !Less(m, s[0])
    ensures After(s, m) == After(s[1..], m)
  { }

  /** Selecting and ordering commute. */
  lemma {:induction false} SortAfter(keys: seq<string>, m: string)
    requires Distinct(keys)
    ensures Sort(After(keys, m)) == After(Sort(keys), m)
  {
    if keys != [] {
      assert Distinct(keys[1..]);
      SortAfter(keys[1..], m);
      SortSpec(keys[1..]);
      AfterInsert(keys[0], Sort(keys[1..]), m);
    }
  }

  lemma {:induction false} AfterAfter(keys: seq<string>, last: string, m: string)
    requires Less(last, m)
    ensures After(After(keys, last), m) == After(keys, m)
  {
    if keys != [] {
      AfterAfter(keys[1..], last, m);
      if Less(m, keys[0]) { LessTransitive(last, m, keys[0]); }
    }
  }

  /** In an increasing list the entries after one of its own are the rest of it. */
  lemma {:induction false} AfterOwn(s: seq<string>, i: nat)
    requires Increasing(s) && i < |s|
    ensures After(s, s[i]) == s[i + 1..]
  {
    IncreasingTail(s);
    LessTotal(s[0], s[i]);
    if i == 0 { AllAfter(s[1..], s[0]); }
    else {
      AfterOwn(s[1..], i - 1);
      assert s[1..][i - 1] == s[i] && s[1..][i..] == s[i + 1..];
    }
  }

  lemma {:induction false} AllAfter(s: seq<string>, m: string)
    requires forall j :: 0 <= j < |s| ==> Less(m, s[j])
    ensures After(s, m) == s
  {
    if s != [] { AllAfter(s[1..], m); }
  }

  // ---- one page, and following the markers ----

  datatype Page = Page(entries: seq<string>, more: bool)

  /** `SELECT … WHERE key > last ORDER BY key LIMIT n`. */
  function Query(keys: seq<string>, n: nat, last: string): seq<string> {
    var all := Sort(After(keys, last));
    if |all| <= n then all else all[..n]
  }

  function PageOf(keys: seq<string>, n: nat, last: string): Page {
    var entries := Query(keys, n, last);
    Page(entries, entries != [] && |After(keys, entries[|entries| - 1])| > 0)
  }

  /** What is left after a full page is what its last entry selects. */
  lemma {:induction false} RestOfPage(keys: seq<string>, n: nat, last: string)
    requires Distinct(keys) && 0 < n <= |Sort(After(keys, last))|
    ensures var all := Sort(After(keys, last)); Sort(After(keys, all[n - 1])) == all[n..]
    ensures var all := Sort(After(keys, last)); |After(keys, all[n - 1])| == |all| - n
  {
    var all := Sort(After(keys, last));
    AfterDistinct(keys, last);
    SortSpec(After(keys, last));
    var m := all[n - 1];
    assert m in all;
    AfterAfter(keys, last, m);
    SortAfter(After(keys, last), m);
    AfterOwn(all, n - 1);
    AfterDistinct(keys, m);
    SortSpec(After(keys, m));
  }

  /** A page announces more entries exactly when the selection holds more than it returned. */
  lemma {:induction false} MoreIffRemain(keys: seq<string>, n: nat, last: string)
    requires Distinct(keys) && n > 0
    ensures PageOf(keys, n, last).more <==> |After(keys, last)| > n
    ensures PageOf(keys, n, last).more ==> |PageOf(keys, n, last).entries| == n
  {
    var all := Sort(After(keys, last));
    AfterDistinct(keys, last);
    SortSpec(After(keys, last));
    if |all| > 0 {
      RestOfPage(keys, if |all| <= n then |all| else n, last);
    }
  }

  lemma {:induction false} FewerAfter(keys: seq<string>, n: nat, last: string)
    requires Distinct(keys) && n > 0 && PageOf(keys, n, last).more
    ensures var p := PageOf(keys, n, last);
            p.entries != [] && |After(keys, p.entries[|p.entries| - 1])| < |After(keys, last)|
  {
    MoreIffRemain(keys, n, last);
    AfterDistinct(keys, last);
    SortSpec(After(keys, last));
    RestOfPage(keys, n, last);
  }

  /** All entries a client sees that follows each page's marker until none is offered. */
  ghost function Follow(keys: seq<string>, n: nat, last: string): seq<string>
    requires Distinct(keys) && n > 0
    decreases |After(keys, last)|
  {
    var p := PageOf(keys, n, last);
    if p.more then
      FewerAfter(keys, n, last);
      p.entries + Follow(keys, n, p.entries[|p.entries| - 1])
    else p.entries
  }

  ghost function Requests(keys: seq<string>, n: nat, last: string): nat
    requires Distinct(keys) && n > 0
    decreases |After(keys, last)|
  {
    var p := PageOf(keys, n, last);
    if p.more then
      FewerAfter(keys, n, last);
      1 + Requests(keys, n, p.entries[|p.entries| - 1])
    else 1
  }

  /** A page that announces more is full, and what its last entry selects is the rest. */
  lemma {:induction false} FullPage(keys: seq<string>, n: nat, last: string)
    requires Distinct(keys) && n > 0 && PageOf(keys, n, last).more
    ensures var all, p := Sort(After(keys, last)), PageOf(keys, n, last);
            && n < |all| == |After(keys, last)| && p.entries == all[..n] && |p.entries| == n
            && Sort(After(keys, p.entries[n - 1])) == all[n..] &&
                |After(keys, p.entries[n - 1])| == |After(keys, last)| - n
  {
    MoreIffRemain(keys, n, last);
    AfterDistinct(keys, last);
    SortSpec(After(keys, last));
    RestOfPage(keys, n, last);
  }

  lemma {:induction false} LastPage(keys: seq<string>, n: nat, last: string)
    requires Distinct(keys) && n > 0 && !PageOf(keys, n, last).more
    ensures |After(keys, last)| <= n && PageOf(keys, n, last).entries == Sort(After(keys, last))
  {
    MoreIffRemain(keys, n, last);
    AfterDistinct(keys, last);
    SortSpec(After(keys, last));
  }

  lemma {:induction false} FollowIsSort(keys: seq<string>, n: nat, last: string)
    requires Distinct(keys) && n > 0
    ensures Follow(keys, n, last) == Sort(After(keys, last))
    decreases |After(keys, last)|
  {
    var p := PageOf(keys, n, last);
    if p.more {
      FullPage(keys, n, last);
      FollowIsSort(keys, n, p.entries[n - 1]);
      var all := Sort(After(keys, last));
      assert all == all[..n] + all[n..];
    } else {
      LastPage(keys, n, last);
    }
  }

  /**
   For every page size, following the markers visits every entry after the start marker, each
   exactly once and in increasing order, and stops.
   */
  lemma {:induction false} FollowVisitsAll(keys: seq<string>, n: nat, last: string)
    requires Distinct(keys) && n > 0
    ensures Increasing(Follow(keys, n, last))
    ensures multiset(Follow(keys, n, last)) == multiset(After(keys, last))
    ensures forall k :: k in Follow(keys, n, last) <==> k in keys && Less(last, k)
  {
    FollowIsSort(keys, n, last);
    AfterDistinct(keys, last);
    SortSpec(After(keys, last));
  }

  /** The number of pages of `n` entries that `k` entries fill; no entries take one page. */
  function PageCount(k: nat, n: nat): nat
    requires n > 0
  {
    if k <= n then 1 else 1 + PageCount(k - n, n)
  }

  lemma {:induction false} PageCountFits(k: nat, n: nat)
    requires n > 0
    ensures k <= PageCount(k, n) * n && (k > 0 ==> (PageCount(k, n) - 1) * n < k)
    decreases k
  {
    if k > n {
      PageCountFits(k - n, n);
      var r := PageCount(k - n, n);
      assert (r + 1) * n == r * n + n && r * n == (r - 1) * n + n;
    }
  }

  /** It takes as many requests as there are pages: just enough for all entries, and one if there are none. */
  lemma {:induction false} RequestsNeeded(keys: seq<string>, n: nat, last: string)
    requires Distinct(keys) && n > 0
    ensures var k, requests := |After(keys, last)|, Requests(keys, n, last);
            if k == 0 then requests == 1 else (requests - 1) * n < k <= requests * n
  {
    RequestsArePages(keys, n, last);
    PageCountFits(|After(keys, last)|, n);
  }

  lemma {:induction false} RequestsArePages(keys: seq<string>, n: nat, last: string)
    requires Distinct(keys) && n > 0
    ensures Requests(keys, n, last) == PageCount(|After(keys, last)|, n)
    decreases |After(keys, last)|
  {
    var p := PageOf(keys, n, last);
    if p.more {
      FullPage(keys, n, last);
      RequestsArePages(keys, n, p.entries[n - 1]);
    } else {
      LastPage(keys, n, last);
    }
  }

  // ---- the tables and the handlers ----

  datatype Repository = Repository(id: nat, namespace: nat, path: string)
  datatype Tag = Tag(namespace: nat, repository: nat, name: string)
  datatype Database = Database(repositories: seq<Repository>, manifests: set<(nat, nat)>, tags: seq<Tag>)

  /** Paths are unique, and so are tag names within a repository. */
  ghost predicate UniqueKeys(db: Database) {
    && (forall i, j :: 0 <= i < j < |db.repositories| ==> db.repositories[i].path != db.repositories[j].path)
    && (forall i, j :: 0 <= i < j < |db.tags| ==> db.tags[i] != db.tags[j])
  }

  /** Repositories without a manifest are not listed. */
  function CatalogKeys(rows: seq<Repository>, manifests: set<(nat, nat)>): (keys: seq<string>)
    ensures forall k :: k in keys <==> exists r :: r in rows && (r.namespace, r.id) in manifests && r.path == k
  {
    if rows == [] then []
    else (if (rows[0].namespace, rows[0].id) in manifests then [rows[0].path] else []) + CatalogKeys(rows[1..],
        manifests)
  }

  function TagKeys(rows: seq<Tag>, namespace: nat, repository: nat): (keys: seq<string>)
    ensures forall k :: k in keys <==> Tag(namespace, repository, k) in rows
  {
    if rows == [] then []
    else (if rows[0].namespace == namespace && rows[0].repository == repository then [rows[0].name] else [])
         + TagKeys(rows[1..], namespace, repository)
  }

  lemma {:induction false} CatalogDistinct(rows: seq<Repository>, manifests: set<(nat, nat)>)
    requires forall i, j :: 0 <= i < j < |rows| ==> rows[i].path != rows[j].path
    ensures Distinct(CatalogKeys(rows, manifests))
  {
    if rows != [] {
      CatalogDistinct(rows[1..], manifests);
      assert rows[0].path !in CatalogKeys(rows[1..], manifests);
    }
  }

  lemma {:induction false} TagsDistinct(rows: seq<Tag>, namespace: nat, repository: nat)
    requires forall i, j :: 0 <= i < j < |rows| ==> rows[i] != rows[j]
    ensures Distinct(TagKeys(rows, namespace, repository))
  {
    if rows != [] {
      TagsDistinct(rows[1..], namespace, repository);
      assert rows[0] == Tag(namespace, repository, rows[0].name) ==>
          rows[0].name !in TagKeys(rows[1..], namespace, repository);
    }
  }

  method DbGetCatalog(db: Database, n: nat, last: string) returns (repos: seq<string>, more: bool)
    ensures Page(repos, more) == PageOf(CatalogKeys(db.repositories, db.manifests), n, last)
  {
    var keys := CatalogKeys(db.repositories, db.manifests);
    var rr := Query(keys, n, last);
    repos := [];
    var i := 0;
    while i < |rr|
      invariant 0 <= i <= |rr| && repos == rr[..i]
    {
      repos := repos + [rr[i]];
      i := i + 1;
    }
    more := false;
    if |rr| > 0 { more := |After(keys, rr[|rr| - 1])| > 0; }
  }

  const MAXIMUM_RETURNED_ENTRIES := 100

  function PageSize(n: Option<int>): (size: nat)
    ensures size > 0
  {
    if n.None? || n.value <= 0 then MAXIMUM_RETURNED_ENTRIES else n.value
  }

  /** The parameters of the next request, as the link header carries them. */
  datatype Next = Next(n: int, last: string)

  function Linked(p: Page, size: nat): Option<Next> {
    if p.more && p.entries != [] then Some(Next(size, p.entries[|p.entries| - 1])) else None
  }

  /** A missing, malformed or non-positive `n` means a hundred. */
  method GetCatalog(db: Database, n: Option<int>, last: string) returns (repos: seq<string>, next: Option<Next>)
    ensures var page := PageOf(CatalogKeys(db.repositories, db.manifests), PageSize(n), last);
            repos == page.entries && next == Linked(page, PageSize(n)) && (next.Some? <==> page.more)
  {
    var maxEntries := PageSize(n);
    var more;
    repos, more := DbGetCatalog(db, maxEntries, last);
    next := None;
    if more { next := Some(Next(maxEntries, repos[|repos| - 1])); }
  }

  /** A client holding `next`, the link of the page after `marker`, has seen all but what `next` leads to. */
  ghost predicate Crawling(keys: seq<string>, size: nat, last: string, marker: string, seen: seq<string>,
                           next: Option<Next>)
    requires Distinct(keys) && size > 0
  {
    && next == Linked(PageOf(keys, size, marker), size)
    && (next.Some? <==> PageOf(keys, size, marker).more)
    && Follow(keys, size, last) == (if next.Some? then seen + Follow(keys, size, next.value.last) else seen)
  }

  lemma {:induction false} CrawlStep(keys: seq<string>, size: nat, last: string, marker: string, seen: seq<string>,
                                     next: Option<Next>)
    requires Distinct(keys) && size > 0 && Crawling(keys, size, last, marker, seen, next) && next.Some?
    ensures |After(keys, next.value.last)| < |After(keys, marker)| && next.value.n == size
    ensures var p := PageOf(keys, size, next.value.last);
            p.more == Linked(p, size).Some? ==>
                Crawling(keys, size, last, next.value.last, seen + p.entries, Linked(p, size))
  {
    FewerAfter(keys, size, marker);
    var p := PageOf(keys, size, next.value.last);
    if p.more {
      var rest := Follow(keys, size, p.entries[|p.entries| - 1]);
      assert seen + (p.entries + rest) == seen + p.entries + rest;
    }
  }

  /** A client that follows every link sees the whole catalog after its start marker. */
  method ListCatalog(db: Database, n: Option<int>, last: string) returns (seen: seq<string>)
    requires UniqueKeys(db)
    ensures Increasing(seen)
    ensures forall k :: k in seen <==> k in CatalogKeys(db.repositories, db.manifests) && Less(last, k)
  {
    ghost var keys := CatalogKeys(db.repositories, db.manifests);
    CatalogDistinct(db.repositories, db.manifests);
    ghost var size := PageSize(n);
    var repos, next := GetCatalog(db, n, last);
    seen := repos;
    ghost var marker := last;
    while next.Some?
      invariant Crawling(keys, size, last, marker, seen, next)
      decreases next.Some?, |After(keys, marker)|
    {
      CrawlStep(keys, size, last, marker, seen, next);
      marker := next.value.last;
      repos, next := GetCatalog(db, Some(next.value.n), next.value.last);
      seen := seen + repos;
    }
    FollowVisitsAll(keys, size, last);
  }

  function FindByPath(rows: seq<Repository>, path: string): (r: Option<Repository>)
    ensures r.None? <==> forall i :: 0 <= i < |rows| ==> rows[i].path != path
    ensures r.Some? ==> r.value in rows && r.value.path == path
  {
    if rows == [] then None else if rows[0].path == path then Some(rows[0]) else FindByPath(rows[1..], path)
  }

  datatype Answer = NameUnknown | Tags(tags: seq<string>, next: Option<Next>)

  /** The tags of a repository, or the error for a repository that is not in the database. */
  method GetTags(db: Database, path: string, n: Option<int>, last: string) returns (a: Answer)
    ensures a.NameUnknown? <==> forall i :: 0 <= i < |db.repositories| ==> db.repositories[i].path != path
    ensures a.Tags? ==> var r := FindByPath(db.repositories, path).value;
                        var page := PageOf(TagKeys(db.tags, r.namespace, r.id), PageSize(n), last);
                        a.tags == page.entries && a.next == Linked(page, PageSize(n)) && (a.next.Some? <==> page.more)
  {
    var maxEntries := PageSize(n);
    var r := FindByPath(db.repositories, path);
    if r.None? { return NameUnknown; }
    var keys := TagKeys(db.tags, r.value.namespace, r.value.id);
    var tt := Query(keys, maxEntries, last);
    var tags: seq<string> := [];
    var i := 0;
    while i < |tt|
      invariant 0 <= i <= |tt| && tags == tt[..i]
    {
      tags := tags + [tt[i]];
      i := i + 1;
    }
    var next := None;
    if |tt| > 0 && |After(keys, tt[|tt| - 1])| > 0 { next := Some(Next(maxEntries, tags[|tags| - 1])); }
    return Tags(tags, next);
  }

  /**
   A client that follows every link of a tag list sees every tag of the repository after its start marker, once and
   in order.
   */
  method ListTags(db: Database, path: string, n: Option<int>, last: string) returns (seen: Option<seq<string>>)
    requires UniqueKeys(db)
    ensures seen.None? <==> forall i :: 0 <= i < |db.repositories| ==> db.repositories[i].path != path
    ensures seen.Some? ==> Increasing(seen.value)
    ensures seen.Some? ==> var r := FindByPath(db.repositories, path).value;
              forall k :: k in seen.value <==> Tag(r.namespace, r.id, k) in db.tags && Less(last, k)
  {
    var a := GetTags(db, path, n, last);
    if a.NameUnknown? { return None; }
    ghost var r := FindByPath(db.repositories, path).value;
    ghost var keys, size := TagKeys(db.tags, r.namespace, r.id), PageSize(n);
    TagsDistinct(db.tags, r.namespace, r.id);
    var tags, next := a.tags, a.next;
    ghost var marker := last;
    while next.Some?
      invariant Crawling(keys, size, last, marker, tags, next)
      decreases next.Some?, |After(keys, marker)|
    {
      CrawlStep(keys, size, last, marker, tags, next);
      marker := next.value.last;
      var b := GetTags(db, path, Some(next.value.n), next.value.last);
      tags, next := tags + b.tags, b.next;
    }
    FollowVisitsAll(keys, size, last);
    return Some(tags);
  }
}
