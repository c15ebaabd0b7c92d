/** Looking up the tags of a digest: directly, and through a cache that is filled once. */
module CachedTags {
  import opened Text
  import opened Tagging

  /** The tag directory of a repository: missing, unreadable, or its entries. */
  datatype Listing = Unknown | Unreadable | Entries(names: seq<string>)

  datatype Answer = Tags(tags: set<string>) | RepositoryUnknown | Failed

  datatype Tree = Tree(listing: Listing, links: map<string, Link>) {
    function LinkOf(tag: string): Link {
      if tag in links then links[tag] else Absent
    }
  }

  predicate Sound(t: Tree) {
    t.listing.Entries? ==> forall i :: 0 <= i < |t.listing.names| ==> !t.LinkOf(t.listing.names[i]).Broken?
  }

  /** The tags among the first `n` entries whose link names a digest. */
  function Pointing(t: Tree, names: seq<string>, d: Digest): set<string> {
    set i | 0 <= i < |names| && t.LinkOf(names[i]) == To(d) :: names[i]
  }

  /** What the uncached store answers: a missing directory counts as no tags. */
  function Direct(t: Tree, d: Digest): Answer {
    match t.listing
    case Unknown => Tags({})
    case Unreadable => Failed
    case Entries(names) => if Sound(t) then Tags(Pointing(t, names, d)) else Failed
  }

  lemma PointingSnoc(t: Tree, names: seq<string>, i: nat, d: Digest)
    requires i < |names|
    ensures Pointing(t, names[..i + 1], d)
         == Pointing(t, names[..i], d) + (if t.LinkOf(names[i]) == To(d) then {names[i]} else {})
  { }

  /** The uncached lookup: one link after the other, giving up at the first that cannot be read. */
  method Lookup(t: Tree, d: Digest) returns (a: Answer)
    ensures a == Direct(t, d)
  {
    if t.listing.Unreadable? { return Failed; }
    if t.listing.Unknown? { return Tags({}); }
    var names := t.listing.names;
    var found: set<string> := {};
    var i := 0;
    while i < |names|
      invariant 0 <= i <= |names| && found == Pointing(t, names[..i], d)
      invariant forall k :: 0 <= k < i ==> !t.LinkOf(names[k]).Broken?
    {
      PointingSnoc(t, names, i, d);
      match t.LinkOf(names[i]) {
        case Absent =>
        case Broken => return Failed;
        case To(e) => if e == d { found := found + {names[i]}; }
      }
      i := i + 1;
    }
    assert names[..|names|] == names;
    return Tags(found);
  }

  /** The tags the cache holds after reading these entries. */
  ghost predicate CachedAs(t: Tree, names: seq<string>, tags: map<string, Digest>) {
    forall x :: (x in tags <==> x in names && t.LinkOf(x).To?) && (x in tags ==> t.LinkOf(x) == To(tags[x]))
  }

  lemma CacheAnswers(t: Tree, names: seq<string>, tags: map<string, Digest>, d: Digest)
    requires CachedAs(t, names, tags)
    ensures (set x | x in tags && tags[x] == d) == Pointing(t, names, d)
  { }

  /** Entries before the first broken link, or all of them. */
  function Readable(t: Tree, names: seq<string>): (n: nat)
    ensures n <= |names| && (n < |names| ==> t.LinkOf(names[n]).Broken?)
    ensures forall i :: 0 <= i < n ==> !t.LinkOf(names[i]).Broken?
  {
    if names == [] || t.LinkOf(names[0]).Broken? then 0 else 1 + Readable(t, names[1..])
  }

  lemma ReadableIs(t: Tree, names: seq<string>, i: nat)
    requires i <= |names| && (i < |names| ==> t.LinkOf(names[i]).Broken?)
    requires forall k :: 0 <= k < i ==> !t.LinkOf(names[k]).Broken?
    ensures Readable(t, names) == i
  { }

  lemma CachedStep(t: Tree, names: seq<string>, i: nat, tags: map<string, Digest>)
    requires i < |names| && CachedAs(t, names[..i], tags) && !t.LinkOf(names[i]).Broken?
    ensures t.LinkOf(names[i]).Absent? ==> CachedAs(t, names[..i + 1], tags)
    ensures t.LinkOf(names[i]).To? ==> CachedAs(t, names[..i + 1], tags[names[i] := t.LinkOf(names[i]).digest])
  { }

  class CachedTagStore {
    const tree: Tree
    var primed: bool
    var tags: map<string, Digest>

    constructor (tree: Tree)
      ensures this.tree == tree && !primed && Valid()
    {
      this.tree, primed, tags := tree, false, map[];
    }

    /** Before it is primed the cache is empty; after, it holds the entries up to the first broken link. */
    ghost predicate Valid()
      reads this
    {
      if primed && tree.listing.Entries?
      then CachedAs(tree, tree.listing.names[..Readable(tree, tree.listing.names)], tags)
      else tags == map[]
    }

    /** Runs once; a later call does nothing and reports no error, even when the first one failed. */
    method Prime() returns (err: Option<Answer>)
      requires Valid()
      modifies this
      ensures Valid() && primed
      ensures old(primed) ==> err.None? && tags == old(tags)
      ensures !old(primed) ==> err == match tree.listing
                                      case Unknown => Some(RepositoryUnknown)
                                      case Unreadable => Some(Failed)
                                      case Entries(_) => if Sound(tree) then None else Some(Failed)
    {
      if primed { return None; }
      primed := true;
      if tree.listing.Unknown? { return Some(RepositoryUnknown); }
      if tree.listing.Unreadable? { return Some(Failed); }
      var names := tree.listing.names;
      tags := map[];
      var i := 0;
      while i < |names|
        invariant 0 <= i <= |names| && primed
        invariant CachedAs(tree, names[..i], tags)
        invariant forall k :: 0 <= k < i ==> !tree.LinkOf(names[k]).Broken?
      {
        var link := tree.LinkOf(names[i]);
        if link.Broken? {
          ReadableIs(tree, names, i);
          return Some(Failed);
        }
        CachedStep(tree, names, i, tags);
        if link.To? { tags := tags[names[i] := link.digest]; }
        i := i + 1;
      }
      ReadableIs(tree, names, i);
      return None;
    }

    /** The answer of the first call and of every later one. */
    method CachedLookup(d: Digest) returns (a: Answer)
      requires Valid()
      modifies this
      ensures Valid() && primed
      ensures a == Through(tree, d, old(primed))
    {
      var err := Prime();
      if err.Some? { return err.value; }
      a := Tags(set x | x in tags && tags[x] == d);
      if tree.listing.Entries? {
        CacheAnswers(tree, tree.listing.names[..Readable(tree, tree.listing.names)], tags, d);
        if Sound(tree) { assert tree.listing.names[..|tree.listing.names|] == tree.listing.names; }
      }
    }
  }

  /** What the cached store answers, the first time or later. */
  function Through(t: Tree, d: Digest, later: bool): Answer {
    match t.listing
    case Unknown => if later then Tags({}) else RepositoryUnknown
    case Unreadable => if later then Tags({}) else Failed
    case Entries(names) =>
      if later || Sound(t) then Tags(Pointing(t, names[..Readable(t, names)], d)) else Failed
  }

  /**
   The cache answers as the store does in every call, if and only if the tag directory can be read
   and no link in it is broken. A missing directory makes only the first answer differ; a broken
   link or an unreadable directory makes every answer but the first differ, because the failure is
   reported once and then forgotten.
   */
  lemma CacheAgrees(t: Tree, d: Digest)
    ensures Through(t, d, false) == Direct(t, d) <==> !t.listing.Unknown?
    ensures Through(t, d, true) == Direct(t, d) <==> !t.listing.Unreadable? && Sound(t)
    ensures (forall later: bool :: Through(t, d, later) == Direct(t, d)) <==> t.listing.Entries? && Sound(t)
  { }
}
