/**
 The tree of repositories in the metadata database. Rows are kept under the list of segments of
 their path; joining and splitting make lists of separator-free segments and paths correspond
 one to one (`Paths.ComponentsOfJoin`, `Paths.JoinOfComponents`).
 */
module RepositoryTree {
  import opened Text
  import opened PathOrder
  import opened Paths

  type Path = seq<string>

  datatype Row = Row(id: nat, namespace: nat, name: string, parent: Option<nat>)

  // ---- splitting paths ----

  /** The segments of a cleaned path. */
  function SplitPath(path: string): (cs: Path)
    ensures cs != []
  {
    Components(Clean(path))
  }

  lemma SplitOfName(path: string)
    requires ValidName(path)
    ensures SplitPath(path) == Components(path)
  {
    NameIsPlain(path);
    var cs := Components(path);
    JoinOfComponents(path);
    CleanOfPlain(cs, false, []);
    NonEmptyOfPlain(cs);
    assert [] + NonEmpty(cs) == cs;
    assert path[0] == JoinWith(cs)[0] == cs[0][0];
  }

  lemma SegmentsOfPrefix(path: string, k: nat)
    requires ValidName(path) && 0 < k <= |Components(path)|
    ensures Components(JoinWith(Components(path)[..k])) == Components(path)[..k]
  {
    NameIsPlain(path);
    ComponentsOfJoin(Components(path)[..k]);
  }

  /** The paths of the parents, from the root down. */
  method RepositoryParentPaths(path: string) returns (paths: seq<string>)
    ensures |paths| == |SplitPath(path)| - 1
    ensures ValidName(path) ==>
              |paths| == |Components(path)| - 1 && forall i :: 0 <= i < |paths| ==>
                  Components(paths[i]) == Components(path)[..i + 1]
  {
    var segments := SplitPath(path);
    var names := segments[..|segments| - 1];
    paths := [];
    var i := 0;
    while i < |names|
      invariant 0 <= i <= |names| && |paths| == i
      invariant forall k :: 0 <= k < i ==> paths[k] == JoinWith(segments[..k + 1])
    {
      assert names[..i + 1] == segments[..i + 1];
      paths := paths + [JoinWith(names[..i + 1])];
      i := i + 1;
    }
    if ValidName(path) {
      SplitOfName(path);
      forall i | 0 <= i < |paths| ensures Components(paths[i]) == Components(path)[..i + 1] {
          SegmentsOfPrefix(path, i + 1); }
    }
  }

  // ---- the invariant ----

  predicate RowOk(rows: map<Path, Row>, spaces: map<string, nat>, next: nat, p: Path)
    requires p in rows
  {
    && p != [] && rows[p].name == p[|p| - 1] && 0 < rows[p].id < next
    && p[0] in spaces && rows[p].namespace == spaces[p[0]]
    && (if |p| == 1 then rows[p].parent == None
        else p[..|p| - 1] in rows && rows[p].parent == Some(rows[p[..|p| - 1]].id))
  }

  ghost predicate UniqueIds(rows: map<Path, Row>) {
    forall p, q :: p in rows && q in rows && rows[p].id == rows[q].id ==> p == q
  }

  /** Every repository hangs below the row of its path without the last segment. */
  ghost predicate Tree(rows: map<Path, Row>, spaces: map<string, nat>, next: nat) {
    && next > 0 && UniqueIds(rows)
    && (forall p {:trigger RowOk(rows, spaces, next, p)} :: p in rows ==> RowOk(rows, spaces, next, p))
    && (forall n :: n in spaces ==> spaces[n] > 0)
  }

  /** The id of the row of the first `i` segments, or zero for none. */
  ghost predicate IdOfPrefix(rows: map<Path, Row>, p: Path, i: nat, id: nat)
    requires i <= |p|
  {
    if i == 0 then id == 0 else p[..i] in rows && id == rows[p[..i]].id && id > 0
  }

  lemma LevelOf(rows: map<Path, Row>, cs: Path, i: nat, p: Path, id: nat)
    requires i < |cs| && p == cs[..i + 1] && IdOfPrefix(rows, cs, i, id)
    ensures p[..i + 1] == p && p[0] == cs[0] && IdOfPrefix(rows, p, i, id)
  {
    assert p[..i] == cs[..i];
  }

  function Linked(parent: nat): Option<nat> {
    if parent > 0 then Some(parent) else None
  }

  /** A row that hangs below its parent keeps the tree a tree. */
  lemma InsertKeepsTree(rows: map<Path, Row>, spaces: map<string, nat>, next: nat, p: Path, parent: nat)
    requires Tree(rows, spaces, next) && p != [] && p !in rows && p[0] in spaces && IdOfPrefix(rows, p, |p| - 1, parent)
    ensures Tree(rows[p := Row(next, spaces[p[0]], p[|p| - 1], Linked(parent))], spaces, next + 1)
  {
    var rows' := rows[p := Row(next, spaces[p[0]], p[|p| - 1], Linked(parent))];
    forall q | q in rows' ensures RowOk(rows', spaces, next + 1, q) {
      if q != p { assert RowOk(rows, spaces, next, q); }
    }
    forall q, r | q in rows' && r in rows' && rows'[q].id == rows'[r].id ensures q == r {
      if q != p { assert RowOk(rows, spaces, next, q); }
      if r != p { assert RowOk(rows, spaces, next, r); }
    }
  }

  lemma SpaceKeepsTree(rows: map<Path, Row>, spaces: map<string, nat>, next: nat, name: string, id: nat)
    requires Tree(rows, spaces, next) && name !in spaces && id > 0
    ensures Tree(rows, spaces[name := id], next)
  {
    forall p | p in rows ensures RowOk(rows, spaces[name := id], next, p) {
      assert RowOk(rows, spaces, next, p);
    }
  }

  /** All segment prefixes of a repository are repositories. */
  lemma {:induction false} PrefixClosed(rows: map<Path, Row>, spaces: map<string, nat>, next: nat, p: Path, k: nat)
    requires Tree(rows, spaces, next) && p in rows && 0 < k <= |p|
    ensures p[..k] in rows
    decreases |p|
  {
    assert RowOk(rows, spaces, next, p);
    if k == |p| { assert p[..k] == p; }
    else {
      var q := p[..|p| - 1];
      assert q[..k] == p[..k];
      PrefixClosed(rows, spaces, next, q, k);
    }
  }

  /**
   A parent link leads to the row of the path without its last segment and to no other, so links
   lead to strictly shorter paths and never go round.
   */
  lemma ParentIsPrefix(rows: map<Path, Row>, spaces: map<string, nat>, next: nat, p: Path, q: Path)
    requires Tree(rows, spaces, next) && p in rows && q in rows
    ensures rows[p].parent == Some(rows[q].id) <==> q < p && |p| == |q| + 1
    ensures rows[p].parent == Some(rows[q].id) ==> rows[p].namespace == rows[q].namespace
  {
    assert RowOk(rows, spaces, next, p) && RowOk(rows, spaces, next, q);
    if |p| > 1 {
      var up := p[..|p| - 1];
      assert up[0] == p[0];
      if q < p && |p| == |q| + 1 { assert q == up; }
      if rows[p].parent == Some(rows[q].id) { assert q == up; }
    }
  }

  // ---- creating repositories ----

  /** The paths of the first `n` levels. */
  ghost function Prefixes(p: Path, n: nat): set<Path>
    requires n <= |p|
  {
    set k | 1 <= k <= n :: p[..k]
  }

  ghost predicate Kept(before: map<Path, Row>, after: map<Path, Row>) {
    forall p :: p in before ==> p in after && after[p] == before[p]
  }

  /** `after` is `before` with the first `n` levels of a path added, all old rows as they were. */
  ghost predicate Grown(before: map<Path, Row>, after: map<Path, Row>, p: Path, n: nat)
    requires n <= |p|
  {
    Kept(before, after) && after.Keys == before.Keys + Prefixes(p, n)
  }

  lemma GrownStep(before: map<Path, Row>, middle: map<Path, Row>, after: map<Path, Row>, p: Path, n: nat)
    requires n < |p| && Grown(before, middle, p, n) && Kept(middle, after)
    requires after.Keys == middle.Keys + {p[..n + 1]}
    ensures Grown(before, after, p, n + 1)
  {
    assert Prefixes(p, n + 1) == Prefixes(p, n) + {p[..n + 1]};
  }

  lemma LevelsExist(rows: map<Path, Row>, spaces: map<string, nat>, next: nat, p: Path, n: nat)
    requires Tree(rows, spaces, next) && p in rows && n < |p|
    ensures Prefixes(p, n) <= rows.Keys && p[..n + 1] in rows
  {
    forall k | 1 <= k <= n + 1 ensures p[..k] in rows { PrefixClosed(rows, spaces, next, p, k); }
  }

  /** The repositories of one depth that are `start` or lie below it. */
  ghost function LevelBelow(rows: map<Path, Row>, start: Path, depth: nat): set<Path> {
    set q | q in rows && start <= q && |q| == depth
  }

  /** The repositories below `start` down to a depth. */
  ghost function Within(rows: map<Path, Row>, start: Path, depth: nat): set<Path> {
    set q | q in rows && start < q && |q| <= depth
  }

  /** The children of a level are the next level, and they have not been seen. */
  lemma NextLevelBelow(rows: map<Path, Row>, spaces: map<string, nat>, next: nat, start: Path, depth: nat)
    requires Tree(rows, spaces, next) && start in rows && depth >= |start|
    ensures var level := LevelBelow(rows, start, depth);
            (set q | q in rows && exists p :: p in level && rows[q].parent == Some(rows[p].id))
            == LevelBelow(rows, start, depth + 1)
    ensures multiset(Within(rows, start, depth + 1)) ==
      multiset(Within(rows, start, depth)) + multiset(LevelBelow(rows, start, depth + 1))
  {
    var level := LevelBelow(rows, start, depth);
    forall q | q in rows
      ensures (exists p :: p in level && rows[q].parent == Some(rows[p].id)) <==> start <= q && |q| == depth + 1
    {
      assert RowOk(rows, spaces, next, q);
      forall p | p in level && rows[q].parent == Some(rows[p].id) ensures start <= q && |q| == depth + 1 {
        ParentIsPrefix(rows, spaces, next, q, p);
      }
      if start <= q && |q| == depth + 1 {
        assert RowOk(rows, spaces, next, start);
        var p := q[..depth];
        assert start <= p && p in level;
      }
    }
    assert Within(rows, start, depth + 1) == Within(rows, start, depth) + LevelBelow(rows, start, depth + 1);
  }

  lemma DeeperHasLevel(rows: map<Path, Row>, spaces: map<string, nat>, next: nat, start: Path, depth: nat, q: Path)
    requires Tree(rows, spaces, next) && start in rows && q in rows && start < q && |start| <= depth < |q|
    ensures LevelBelow(rows, start, depth) != {}
  {
    assert RowOk(rows, spaces, next, start);
    PrefixClosed(rows, spaces, next, q, depth);
    assert q[..depth] in LevelBelow(rows, start, depth);
  }

  lemma NothingDeeper(rows: map<Path, Row>, spaces: map<string, nat>, next: nat, start: Path, depth: nat)
    requires Tree(rows, spaces, next) && start in rows && depth >= |start| && LevelBelow(rows, start, depth) == {}
    ensures Within(rows, start, depth) == set q | q in rows && start < q
  {
    forall q | q in rows && start < q ensures |q| <= depth {
      if |q| > depth { DeeperHasLevel(rows, spaces, next, start, depth, q); }
    }
  }

  /** The repositories still to be found. */
  ghost function Deeper(rows: map<Path, Row>, start: Path, depth: nat): set<Path> {
    rows.Keys - Within(rows, start, depth)
  }

  lemma FewerDeeper(rows: map<Path, Row>, start: Path, depth: nat)
    requires depth >= |start|
    ensures |Deeper(rows, start, depth + 1)| <= |Deeper(rows, start, depth)|
    ensures LevelBelow(rows, start, depth + 1) != {} ==> |Deeper(rows, start, depth + 1)| < |Deeper(rows, start, depth)|
  {
    var level := LevelBelow(rows, start, depth + 1);
    assert Deeper(rows, start, depth) == Deeper(rows, start, depth + 1) + level;
    assert Deeper(rows, start, depth + 1) !! level;
  }

  /** All rows whose parent is a row of the level. */
  function Children(rows: map<Path, Row>, level: set<Path>): set<Path>
    requires level <= rows.Keys
  {
    set q | q in rows && exists p :: p in level && rows[q].parent == Some(rows[p].id)
  }

  ghost predicate Descending(rows: map<Path, Row>, start: Path, depth: nat, level: set<Path>, found: multiset<Path>) {
    depth >= |start| && level == LevelBelow(rows, start, depth) && found == multiset(Within(rows, start, depth))
  }

  lemma DescendStep(rows: map<Path, Row>, spaces: map<string, nat>, next: nat, start: Path, depth: nat,
                    level: set<Path>, found: multiset<Path>)
    requires Tree(rows, spaces, next) && start in rows && level <= rows.Keys &&
      Descending(rows, start, depth, level, found)
    ensures Descending(rows, start, depth + 1, Children(rows, level), found + multiset(Children(rows, level)))
    ensures |Deeper(rows, start, depth + 1)| <= |Deeper(rows, start, depth)|
    ensures Children(rows, level) != {} ==> |Deeper(rows, start, depth + 1)| < |Deeper(rows, start, depth)|
  {
    NextLevelBelow(rows, spaces, next, start, depth);
    FewerDeeper(rows, start, depth);
    assert Children(rows, level) == LevelBelow(rows, start, depth + 1);
  }

  lemma DescendStart(rows: map<Path, Row>, start: Path)
    requires start in rows
    ensures Descending(rows, start, |start|, {start}, multiset{})
  {
    assert Within(rows, start, |start|) == {};
    forall q | q in LevelBelow(rows, start, |start|) ensures q == start { }
    assert start in LevelBelow(rows, start, |start|);
    assert LevelBelow(rows, start, |start|) == {start};
  }

  class Store {
    var rows: map<Path, Row>
    var spaces: map<string, nat>
    var nextRow: nat
    var nextSpace: nat

    constructor ()
      ensures rows == map[] && spaces == map[] && Valid()
    {
      rows, spaces := map[], map[];
      nextRow, nextSpace := 1, 1;
    }

    ghost predicate Valid()
      reads this
    {
      Tree(rows, spaces, nextRow) && nextSpace > 0 && forall name :: name in spaces ==> spaces[name] > 0
    }

    method CreateOrFindSpace(name: string) returns (id: nat)
      requires Valid()
      modifies this`spaces, this`nextSpace
      ensures Valid() && name in spaces && id == spaces[name]
      ensures spaces == if name in old(spaces) then old(spaces) else old(spaces)[name := old(nextSpace)]
    {
      if name in spaces { return spaces[name]; }
      SpaceKeepsTree(rows, spaces, nextRow, name, nextSpace);
      id := nextSpace;
      spaces := spaces[name := id];
      nextSpace := nextSpace + 1;
    }

    /**
     Inserts a row unless its path is taken; the insertion of a path in `failing` is refused by the database.
     Without a namespace (zero), that of the first segment is created or found before.
     */
    method CreateOrFind(p: Path, space: nat, name: string, parent: Option<nat>, failing: set<Path>)
      returns (r: Option<Row>)
      requires Valid() && p != []
      modifies this
      ensures space != 0 ==> spaces == old(spaces) && nextSpace == old(nextSpace)
      ensures space == 0 ==>
        p[0] in spaces && spaces ==
            old(spaces)[p[0] := if p[0] in old(spaces) then old(spaces)[p[0]] else old(nextSpace)]
      ensures p in old(rows) ==> r == Some(old(rows)[p]) && rows == old(rows) && nextRow == old(nextRow)
      ensures p !in old(rows) && p in failing ==> r == None && rows == old(rows) && nextRow == old(nextRow)
      ensures p !in old(rows) && p !in failing ==>
                var row := Row(old(nextRow), if space == 0 then spaces[p[0]] else space, name, parent);
                r == Some(row) && rows == old(rows)[p := row] && nextRow == old(nextRow) + 1
    {
      var id := space;
      if id == 0 { id := CreateOrFindSpace(p[0]); }
      if p in rows { return Some(rows[p]); }
      if p in failing { return None; }
      var row := Row(nextRow, id, name, parent);
      rows, nextRow := rows[p := row], nextRow + 1;
      r := Some(row);
    }

    /** One level: the row of the first `k` segments is created below that of the first `k - 1`, or found. */
    method CreateLevel(p: Path, k: nat, space: nat, parent: nat, failing: set<Path>) returns (r: Option<Row>)
      requires Valid() && 1 <= k <= |p| && p[0] in spaces && space == spaces[p[0]] && IdOfPrefix(rows, p, k - 1, parent)
      modifies this
      ensures spaces == old(spaces) && nextSpace == old(nextSpace)
      ensures Valid() && Kept(old(rows), rows)
      ensures r.Some? ==>
        rows.Keys == old(rows.Keys) + {p[..k]} && IdOfPrefix(rows, p, k, r.value.id) && r.value == rows[p[..k]]
      ensures r.None? ==> rows == old(rows)
      ensures r.None? <==> p[..k] !in old(rows) && p[..k] in failing
    {
      var q := p[..k];
      assert q[..k - 1] == p[..k - 1] && q[0] == p[0];
      if q !in rows { InsertKeepsTree(rows, spaces, nextRow, q, parent); }
      r := CreateOrFind(q, space, q[k - 1], Linked(parent), failing);
      if r.Some? { assert RowOk(rows, spaces, nextRow, q); }
    }

    /** Creates or finds every level above a repository; `id` is that of the immediate parent, or zero. */
    method CreateOrFindParentByPath(path: string, space: nat, failing: set<Path>)
      returns (ok: bool, id: nat, ghost levels: nat)
      requires Valid() && ValidName(path) && Components(path)[0] in spaces && space == spaces[Components(path)[0]]
      modifies this
      ensures spaces == old(spaces) && nextSpace == old(nextSpace)
      ensures Valid() && levels < |Components(path)| && Grown(old(rows), rows, Components(path), levels)
      ensures ok ==> levels == |Components(path)| - 1 && IdOfPrefix(rows, Components(path), levels, id)
      ensures !ok ==> var p := Components(path)[..levels + 1]; p !in old(rows) && p in failing
    {
      ghost var cs := Components(path);
      var parentPaths := RepositoryParentPaths(path);
      id, levels := 0, 0;
      var i := 0;
      while i < |parentPaths|
        invariant 0 <= i == levels <= |parentPaths|
        invariant Valid() && Grown(old(rows), rows, cs, i) && IdOfPrefix(rows, cs, i, id)
        invariant spaces == old(spaces) && nextSpace == old(nextSpace)
      {
        var p := Components(parentPaths[i]);
        LevelOf(rows, cs, i, p, id);
        ghost var middle := rows;
        var r := CreateLevel(p, i + 1, space, id, failing);
        if r.None? { return false, 0, levels; }
        GrownStep(old(rows), middle, rows, cs, i);
        id, levels := r.value.id, levels + 1;
        i := i + 1;
      }
      ok := true;
    }

    /** Creates what is missing of a path and returns its repository; existing rows stay as they are. */
    method CreateOrFindByPath(path: string, failing: set<Path>) returns (r: Option<Row>, ghost levels: nat)
      requires Valid() && ValidName(path)
      modifies this
      ensures Valid() && levels <= |Components(path)| && Grown(old(rows), rows, Components(path), levels)
      ensures r.Some? ==> levels == |Components(path)| && Components(path) in rows && r.value == rows[Components(path)]
      ensures r.None? ==>
                levels < |Components(path)| && var p := Components(path)[..levels + 1]; p !in old(rows) && p in failing
    {
      var cs := Components(path);
      var space := CreateOrFindSpace(cs[0]);
      var ok, id;
      ok, id, levels := CreateOrFindParentByPath(path, space, failing);
      if !ok { return None, levels; }
      ghost var middle := rows;
      r := CreateLevel(cs, |cs|, space, id, failing);
      assert cs[..|cs|] == cs;
      if r.Some? {
        GrownStep(old(rows), middle, rows, cs, levels);
        levels := levels + 1;
      }
    }

    /** As above, but an existing leaf is an error, and then nothing is created. */
    method CreateByPath(path: string, failing: set<Path>) returns (r: Option<Row>, ghost levels: nat)
      requires Valid() && ValidName(path)
      modifies this
      ensures Valid() && levels <= |Components(path)| && Grown(old(rows), rows, Components(path), levels)
      ensures r.Some? ==> levels == |Components(path)| && Components(path) !in old(rows)
                          && Components(path) in rows && r.value == rows[Components(path)]
      ensures Components(path) in old(rows) ==> r.None? && rows == old(rows)
      ensures r.None? && Components(path) !in old(rows) ==>
                levels < |Components(path)| && Components(path)[..levels + 1] in failing
    {
      var cs := Components(path);
      var space := CreateOrFindSpace(cs[0]);
      var ok, id;
      ok, id, levels := CreateOrFindParentByPath(path, space, failing);
      if cs in old(rows) { LevelsExist(old(rows), old(spaces), old(nextRow), cs, levels); }
      if !ok { return None, levels; }
      assert cs[..|cs|] == cs;
      if cs in rows { return None, levels; }
      ghost var middle := rows;
      r := CreateLevel(cs, |cs|, space, id, failing);
      if r.Some? {
        GrownStep(old(rows), middle, rows, cs, levels);
        levels := levels + 1;
      }
    }

    /**
     The recursive query for ancestors: starting from the row with this id, join the row whose id
     is the parent id, until none is left; the start row itself is dropped.
     */
    method FindAncestorsOf(id: nat) returns (found: seq<Path>)
      requires Valid()
      ensures (forall p :: p in rows ==> rows[p].id != id) ==> found == []
      ensures forall p :: p in rows && rows[p].id == id ==>
                |found| == |p| - 1 && forall k :: 0 <= k < |found| ==> found[k] == p[..|p| - 1 - k] && found[k] in rows
    {
      found := [];
      if start :| start in rows && rows[start].id == id {
        var p := start;
        assert RowOk(rows, spaces, nextRow, p);
        while rows[p].parent.Some?
          invariant p in rows && RowOk(rows, spaces, nextRow, p) && p <= start && |found| == |start| - |p|
          invariant forall k :: 0 <= k < |found| ==> found[k] == start[..|start| - 1 - k] && found[k] in rows
          decreases |p|
        {
          var up: Path :| up in rows && rows[up].id == rows[p].parent.value;
          ParentIsPrefix(rows, spaces, nextRow, p, up);
          assert up == start[..|up|];
          found := found + [up];
          p := up;
          assert RowOk(rows, spaces, nextRow, p);
        }
      }
    }

    /** Level by level; each row is joined once for each row of the level above. */
    method Descend(start: Path) returns (found: multiset<Path>)
      requires Valid() && start in rows
      ensures found == multiset(set q | q in rows && start < q)
    {
      found := multiset{};
      var level: set<Path> := {start};
      ghost var depth: nat := |start|;
      DescendStart(rows, start);
      while level != {}
        invariant level <= rows.Keys && Descending(rows, start, depth, level, found)
        decreases |Deeper(rows, start, depth)|, level != {}
      {
        DescendStep(rows, spaces, nextRow, start, depth, level, found);
        level := Children(rows, level);
        found := found + multiset(level);
        depth := depth + 1;
      }
      NothingDeeper(rows, spaces, nextRow, start, depth);
    }

    /** The recursive query for descendants, without the row it starts from. */
    method FindDescendantsOf(id: nat) returns (found: multiset<Path>)
      requires Valid()
      ensures (forall p :: p in rows ==> rows[p].id != id) ==> found == multiset{}
      ensures forall p :: p in rows && rows[p].id == id ==> found == multiset(set q | q in rows && p < q)
    {
      found := multiset{};
      if start :| start in rows && rows[start].id == id {
        found := Descend(start);
      }
    }
  }
}
