/** Reading the digest back from the path of a blob or revision. */
module BlobPaths {
  import opened Digests
  import opened PathOrder
  import opened Paths

  /** Where the last element of a path starts. */
  function LastElement(s: string): (i: nat)
    ensures i <= |s|
    ensures i > 0 ==> s[i - 1] == '/'
    ensures forall j :: i <= j < |s| ==> s[j] != '/'
  {
    if s == [] || s[|s| - 1] == '/' then |s| else LastElement(s[..|s| - 1])
  }

  /** `path.Split`. */
  function SplitDir(s: string): string {
    s[..LastElement(s)]
  }

  function SplitFile(s: string): string {
    s[LastElement(s)..]
  }

  /** `path.Dir`. */
  function Dir(s: string): string {
    Clean(SplitDir(s))
  }

  function TrimSlashes(s: string): string {
    if s != [] && s[|s| - 1] == '/' then TrimSlashes(s[..|s| - 1]) else s
  }

  /** `path.Base`. */
  function Base(s: string): string {
    if s == [] then "."
    else
      var file := SplitFile(TrimSlashes(s));
      if file == [] then "/" else file
  }

  function TrimSuffix(s: string, suffix: string): string {
    if |suffix| <= |s| && s[|s| - |suffix|..] == suffix then s[..|s| - |suffix|] else s
  }

  datatype Answer = Digest(digest: string) | Rejected(digest: string, error: ParseError) | Panic

  /** The digest named by a path; a last element of fewer than two bytes makes the slice expression panic. */
  function DigestFromPath(p: string): Answer {
    var q := TrimSuffix(p, "/data");
    var hex := SplitFile(q);
    var dir := Dir(SplitDir(q));
    var next := SplitFile(dir);
    if |hex| < 2 then Panic
    else
      var alg := if next == hex[..2] then Base(SplitDir(dir)) else next;
      var d := FromHex(alg, hex);
      if IsValid(d) then Digest(d) else Rejected(d, ErrorOf(d))
  }

  // ---- splitting the path of a list of components ----

  lemma {:induction false} AbsoluteSnoc(cs: seq<string>, c: string)
    requires cs != []
    ensures Absolute(cs + [c]) == Absolute(cs) + ['/'] + c
  {
    JoinConcat(cs, [c]);
    assert JoinWith([c]) == c;
  }

  lemma {:induction false} SplitAt(dir: string, c: string)
    requires '/' !in c
    ensures SplitDir(dir + ['/'] + c) == dir + ['/'] && SplitFile(dir + ['/'] + c) == c
  {
    var s := dir + ['/'] + c;
    assert s[|dir|] == '/';
    forall j | |dir| < j < |s| ensures s[j] != '/' { assert s[j] == c[j - |dir| - 1]; }
    assert LastElement(s) == |dir| + 1;
    assert s[..|dir| + 1] == dir + ['/'];
  }

  lemma {:induction false} SplitAbsolute(cs: seq<string>, c: string)
    requires cs != [] && '/' !in c
    ensures SplitDir(Absolute(cs + [c])) == Absolute(cs) + ['/'] && SplitFile(Absolute(cs + [c])) == c
  {
    AbsoluteSnoc(cs, c);
    SplitAt(Absolute(cs), c);
  }

  lemma {:induction false} NonEmptyAround(cs: seq<string>)
    requires AllPlain(cs)
    ensures NonEmpty([[]] + cs + [[]]) == cs
  {
    var e: seq<string> := [[]];
    NonEmptyAfterRoot(cs);
    NonEmptyConcat(e + cs, e);
    assert e[1..] == [];
    assert NonEmpty(e) == [];
    assert cs + [] == cs;
  }

  /** The directory of a path that ends in a separator is the path without it. */
  lemma {:induction false} DirOfDirectory(cs: seq<string>)
    requires cs != [] && AllPlain(cs)
    ensures Dir(Absolute(cs) + ['/']) == Absolute(cs)
  {
    var s, e: string := Absolute(cs) + ['/'], [];
    assert LastElement(s) == |s|;
    assert SplitDir(s) == s;
    AbsoluteComponents(cs);
    ComponentsOfPlain(e);
    ComponentsSplit(Absolute(cs), e);
    assert Absolute(cs) + (['/'] + e) == s;
    var all: seq<string> := [[]] + cs + [[]];
    assert Components(s) == all;
    CleanOfPlain(all, true, []);
    NonEmptyAround(cs);
    assert [] + NonEmpty(all) == cs;
  }

  lemma {:induction false} TrimNothing(s: string)
    requires s != [] && s[|s| - 1] != '/'
    ensures TrimSlashes(s) == s && TrimSlashes(s + ['/']) == s
  { }

  lemma {:induction false} BaseOfDirectory(cs: seq<string>, c: string)
    requires cs != [] && Plain(c)
    ensures Base(Absolute(cs + [c]) + ['/']) == c
  {
    var s := Absolute(cs + [c]);
    AbsoluteSnoc(cs, c);
    assert s[|s| - 1] == c[|c| - 1] && c[|c| - 1] in c;
    TrimNothing(s);
    SplitAbsolute(cs, c);
  }

  /** The digest at the end of a path, below its algorithm, read without its first-two-bytes directory. */
  lemma {:induction false} ReadPlainLevel(cs: seq<string>, d: string)
    requires cs != [] && AllPlain(cs) && IsValid(d)
    requires TrimSuffix(Absolute(cs + [Algorithm(d)] + [Hex(d)]), "/data") == Absolute(cs + [Algorithm(d)] + [Hex(d)])
    ensures DigestFromPath(Absolute(cs + [Algorithm(d)] + [Hex(d)])) == Digest(d)
  {
    ValidShape(d);
    DigestPartsPlain(d);
    var alg, hex := Algorithm(d), Hex(d);
    assert Plain(alg);
    SplitAbsolute(cs + [alg], hex);
    DirOfDirectory(cs + [alg]);
    SplitAbsolute(cs, alg);
    assert alg != hex[..2];
  }

  lemma {:induction false} ReadTwoLevels(p: string, cs: seq<string>, d: string)
    requires cs != [] && AllPlain(cs) && IsValid(d)
    requires TrimSuffix(p, "/data") == Absolute(cs + [Algorithm(d)] + [Hex(d)[..2]] + [Hex(d)])
    ensures DigestFromPath(p) == Digest(d)
  {
    ValidShape(d);
    DigestPartsPlain(d);
    var alg, hex := Algorithm(d), Hex(d);
    var parts := [alg, hex[..2], hex];
    assert Plain(parts[0]) && Plain(parts[1]);
    SplitAbsolute(cs + [alg] + [hex[..2]], hex);
    DirOfDirectory(cs + [alg] + [hex[..2]]);
    SplitAbsolute(cs + [alg], hex[..2]);
    BaseOfDirectory(cs, alg);
  }

  /** A path that ends in a whole digest does not end in `/data`. */
  lemma {:induction false} NoDataSuffix(cs: seq<string>, hex: string)
    requires cs != [] && |hex| >= 5 && '/' !in hex
    ensures TrimSuffix(Absolute(cs + [hex]), "/data") == Absolute(cs + [hex])
  {
    AbsoluteSnoc(cs, hex);
    var s := Absolute(cs + [hex]);
    assert s[|s| - 5..][0] == s[|s| - 5] == hex[|hex| - 5];
    assert hex[|hex| - 5] in hex;
  }

  lemma {:induction false} DataSuffix(cs: seq<string>)
    requires cs != []
    ensures TrimSuffix(Absolute(cs + ["data"]), "/data") == Absolute(cs)
  {
    AbsoluteSnoc(cs, "data");
    var a := Absolute(cs);
    assert Absolute(cs + ["data"]) == a + "/data";
    assert (a + "/data")[|a|..] == "/data" && (a + "/data")[..|a|] == a;
  }

  /** The directory of a blob, and its data file. */
  lemma {:induction false} ReadBlob(top: seq<string>, dir: seq<string>, d: string)
    requires top != [] && AllPlain(top) && IsValid(d) && |Hex(d)| >= 2
    requires dir == top + [Algorithm(d)] + [Hex(d)[..2]] + [Hex(d)]
    ensures DigestFromPath(Absolute(dir)) == Digest(d)
    ensures DigestFromPath(Absolute(dir + ["data"])) == Digest(d)
  {
    ValidShape(d);
    DataSuffix(dir);
    NoDataSuffix(top + [Algorithm(d)] + [Hex(d)[..2]], Hex(d));
    ReadTwoLevels(Absolute(dir), top, d);
    ReadTwoLevels(Absolute(dir + ["data"]), top, d);
  }

  lemma {:induction false} BlobParts(d: string, top: seq<string>, dir: seq<string>)
    requires IsValid(d) && |Hex(d)| >= 2 && top == ROOT + ["blobs"]
    requires dir == top + [Algorithm(d)] + [Hex(d)[..2]] + [Hex(d)]
    ensures AllPlain(top) && Parts(BlobDir(d)) == dir && Parts(BlobData(d)) == dir + ["data"]
  { }

  /** Reading the digest back inverts the data path and the directory of every blob. */
  lemma {:induction false} DigestOfBlob(d: string)
    requires IsValid(d)
    ensures PathFor(BlobData(d)).Path? && DigestFromPath(PathFor(BlobData(d)).path) == Digest(d)
    ensures PathFor(BlobDir(d)).Path? && DigestFromPath(PathFor(BlobDir(d)).path) == Digest(d)
  {
    ValidShape(d);
    var top := ROOT + ["blobs"];
    var dir := top + [Algorithm(d)] + [Hex(d)[..2]] + [Hex(d)];
    BlobParts(d, top, dir);
    PathIsParts(BlobData(d));
    PathIsParts(BlobDir(d));
    ReadBlob(top, dir, d);
  }

  /** The directory of a revision. */
  lemma {:induction false} ReadRevision(top: seq<string>, dir: seq<string>, d: string)
    requires top != [] && AllPlain(top) && IsValid(d) && dir == top + [Algorithm(d)] + [Hex(d)]
    ensures DigestFromPath(Absolute(dir)) == Digest(d)
  {
    ValidShape(d);
    NoDataSuffix(top + [Algorithm(d)], Hex(d));
    ReadPlainLevel(top, d);
  }

  lemma {:induction false} RevisionParts(name: string, d: string, top: seq<string>, dir: seq<string>)
    requires ValidName(name) && top == REPOS + Components(name) + ["_manifests", "revisions"]
    requires dir == top + [Algorithm(d)] + [Hex(d)]
    ensures AllPlain(top) && Parts(ManifestRevision(name, d)) == dir
  {
    RootsArePlain();
    WordsArePlain();
    NameIsPlain(name);
  }

  /** It inverts the directory of every manifest revision too. */
  lemma {:induction false} DigestOfRevision(name: string, d: string)
    requires ValidName(name) && IsValid(d)
    ensures PathFor(ManifestRevision(name, d)).Path? &&
      DigestFromPath(PathFor(ManifestRevision(name, d)).path) == Digest(d)
  {
    PathIsParts(ManifestRevision(name, d));
    var top := REPOS + Components(name) + ["_manifests", "revisions"];
    RevisionParts(name, d, top, top + [Algorithm(d)] + [Hex(d)]);
    ReadRevision(top, top + [Algorithm(d)] + [Hex(d)], d);
  }
}
