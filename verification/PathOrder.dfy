/** The order in which the catalog walk visits repository paths. */
module PathOrder {
  import opened Text

  /** `s` with every `from` byte read as `to`. */
  function Replaced(s: string, from: char, to: char): (r: string)
    ensures |r| == |s|
    ensures forall i :: 0 <= i < |s| ==> r[i] == if s[i] == from then to else s[i]
  {
    seq(|s|, i requires 0 <= i < |s| => if s[i] == from then to else s[i])
  }

  lemma {:induction false} LessAtDifference(a: string, b: string, i: nat)
    requires i <= |a| && i <= |b| && a[..i] == b[..i]
    requires (i == |a| && i < |b|) || (i < |a| && i < |b| && a[i] < b[i])
    ensures Less(a, b)
  {
    if i > 0 {
      assert a[0] == a[..i][0] && b[0] == b[..i][0];
      assert a[1..][..i - 1] == a[..i][1..] && b[1..][..i - 1] == b[..i][1..];
      LessAtDifference(a[1..], b[1..], i - 1);
    }
  }

  /** Byte-wise comparison that reads one byte as another on both sides. */
  method CompareReplaceInline(s1: string, s2: string, from: char, to: char) returns (r: int)
    ensures r == -1 || r == 0 || r == 1
    ensures r == -1 <==> Less(Replaced(s1, from, to), Replaced(s2, from, to))
    ensures r == 1 <==> Less(Replaced(s2, from, to), Replaced(s1, from, to))
    ensures r == 0 <==> Replaced(s1, from, to) == Replaced(s2, from, to)
  {
    ghost var t1, t2 := Replaced(s1, from, to), Replaced(s2, from, to);
    LessTotal(t1, t2);
    var l := |s1|;
    if |s2| < l { l := |s2|; }
    var i := 0;
    while i < l
      invariant 0 <= i <= l <= |s1| && l <= |s2| && (l == |s1| || l == |s2|)
      invariant t1[..i] == t2[..i]
    {
      var c1, c2 := s1[i], s2[i];
      if c1 == from { c1 := to; }
      if c2 == from { c2 := to; }
      if c1 < c2 { LessAtDifference(t1, t2, i); return -1; }
      if c1 > c2 { LessAtDifference(t2, t1, i); return 1; }
      i := i + 1;
    }
    if |s1| < |s2| { LessAtDifference(t1, t2, i); return -1; }
    if |s1| > |s2| { LessAtDifference(t2, t1, i); return 1; }
    assert t1 == t1[..i] && t2 == t2[..i];
    return 0;
  }

  /** A separator sorts before everything else. */
  ghost predicate LessPath(a: string, b: string) {
    Less(Replaced(a, '/', '\0'), Replaced(b, '/', '\0'))
  }

  method ComparePaths(a: string, b: string) returns (less: bool)
    ensures less <==> LessPath(a, b)
  {
    var r := CompareReplaceInline(a, b, '/', '\0');
    return r < 0;
  }

  /** The '/'-separated components of a path. */
  function Components(s: string): (cs: seq<string>)
    ensures |cs| > 0
  {
    if s == [] then [[]]
    else if s[0] == '/' then [[]] + Components(s[1..])
    else var cs := Components(s[1..]); [[s[0]] + cs[0]] + cs[1..]
  }

  /** Lexicographic order on lists of components. */
  predicate ComponentsLess(a: seq<string>, b: seq<string>) {
    if b == [] then false
    else if a == [] then true
    else Less(a[0], b[0]) || (a[0] == b[0] && ComponentsLess(a[1..], b[1..]))
  }

  ghost predicate NulFree(s: string) {
    '\0' !in s
  }

  lemma {:induction false} ReplacedTail(s: string)
    requires s != []
    ensures Replaced(s, '/', '\0')[1..] == Replaced(s[1..], '/', '\0')
  { }

  /** Putting the same character in front of both first components changes nothing. */
  lemma {:induction false} ComponentsLessCons(c: char, a: seq<string>, b: seq<string>)
    requires |a| > 0 && |b| > 0
    ensures ComponentsLess([[c] + a[0]] + a[1..], [[c] + b[0]] + b[1..]) <==> ComponentsLess(a, b)
  { }

  /** On NUL-free paths the order compares component by component. */
  lemma {:induction false} LessPathComponentwise(a: string, b: string)
    requires NulFree(a) && NulFree(b)
    ensures LessPath(a, b) <==> ComponentsLess(Components(a), Components(b))
  {
    var ca, cb := Components(a), Components(b);
    if b == [] {
      assert Less(ca[0], []) == false;
      assert cb[1..] == [];
    } else if a == [] {
      if b[0] == '/' { assert ca[1..] == [] && cb[1..] != []; }
    } else if a[0] == '/' && b[0] == '/' {
      ReplacedTail(a);
      ReplacedTail(b);
      LessPathComponentwise(a[1..], b[1..]);
      assert ca[1..] == Components(a[1..]) && cb[1..] == Components(b[1..]);
    } else if a[0] != '/' && a[0] == b[0] {
      ReplacedTail(a);
      ReplacedTail(b);
      LessPathComponentwise(a[1..], b[1..]);
      ComponentsLessCons(a[0], Components(a[1..]), Components(b[1..]));
    } else {
      assert a[0] in a && b[0] in b;
      assert '/' != a[0] ==> ca[0][0] == a[0];
      assert '/' != b[0] ==> cb[0][0] == b[0];
    }
  }

  /** The paths differ only in which of them has a separator where the other has a NUL. */
  predicate SameButNul(a: string, b: string) {
    && |a| == |b|
    && forall i :: 0 <= i < |a| ==>
         a[i] == b[i] || (a[i] == '/' && b[i] == '\0') || (a[i] == '\0' && b[i] == '/')
  }

  /**
   Two paths are unordered exactly when one has a NUL wherever it differs from the other's separator, or vice versa.
   */
  lemma {:induction false} UnorderedIffSameButNul(a: string, b: string)
    ensures !LessPath(a, b) && !LessPath(b, a) <==> SameButNul(a, b)
    ensures !(LessPath(a, b) && LessPath(b, a))
  {
    var x, y := Replaced(a, '/', '\0'), Replaced(b, '/', '\0');
    LessTotal(x, y);
    if x == y {
      forall i | 0 <= i < |a| ensures a[i] == b[i] || (a[i] == '/' && b[i] == '\0') || (a[i] == '\0' && b[i] == '/') {
        assert x[i] == y[i];
      }
    }
  }

  lemma {:induction false} LessPathTransitive(a: string, b: string, c: string)
    requires LessPath(a, b) && LessPath(b, c)
    ensures LessPath(a, c)
  {
    LessTransitive(Replaced(a, '/', '\0'), Replaced(b, '/', '\0'), Replaced(c, '/', '\0'));
  }

  /** On NUL-free paths the order is total. */
  lemma {:induction false} LessPathTotal(a: string, b: string)
    requires NulFree(a) && NulFree(b) && a != b
    ensures LessPath(a, b) != LessPath(b, a)
  {
    UnorderedIffSameButNul(a, b);
    assert SameButNul(a, b) ==> a == b;
  }

  /** With a NUL in the text totality fails: these two paths differ but are not ordered. */
  lemma {:induction false} NulPathsUnordered()
    ensures "a/b" != "a\0b" && !LessPath("a/b", "a\0b") && !LessPath("a\0b", "a/b")
  {
    UnorderedIffSameButNul("a/b", "a\0b");
  }
}
