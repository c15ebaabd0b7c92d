/** Strings compared and cut the way Go compares and cuts them. */
module Text {

  datatype Option<+T> = None | Some(value: T)

  /** Go's `<` on strings: byte-wise lexicographic order. */
  predicate Less(a: string, b: string) {
    if b == [] then false
    else if a == [] then true
    else a[0] < b[0] || (a[0] == b[0] && Less(a[1..], b[1..]))
  }

  predicate AtMost(a: string, b: string) {
    a == b || Less(a, b)
  }

  lemma {:induction false} LessTransitive(a: string, b: string, c: string)
    requires Less(a, b) && Less(b, c)
    ensures Less(a, c)
  {
    if a != [] && a[0] == b[0] && b[0] == c[0] {
      LessTransitive(a[1..], b[1..], c[1..]);
    }
  }

  lemma {:induction false} LessTotal(a: string, b: string)
    ensures Less(a, b) || a == b || Less(b, a)
    ensures !(Less(a, b) && Less(b, a))
    ensures a == b ==> !Less(a, b)
  {
    if a != [] && b != [] && a[0] == b[0] {
      LessTotal(a[1..], b[1..]);
      assert a == [a[0]] + a[1..] && b == [b[0]] + b[1..];
    }
  }

  /** A prefix sorts no later than the string it begins. */
  lemma {:induction false} PrefixAtMost(p: string, a: string)
    requires p <= a
    ensures AtMost(p, a)
  {
    if p != [] {
      PrefixAtMost(p[1..], a[1..]);
      assert a == [a[0]] + a[1..] && p == [p[0]] + p[1..];
    }
  }

  /** Strings at or after `p` that do not begin with `p` sort after every string that does. */
  lemma {:induction false} PrefixBlock(p: string, a: string, b: string)
    requires p <= a && AtMost(p, b) && !(p <= b)
    ensures Less(a, b)
  {
    if p != [] {
      if b != [] && p[0] == b[0] {
        assert p == [p[0]] + p[1..] && b == [b[0]] + b[1..] && a == [a[0]] + a[1..];
        assert !(p[1..] <= b[1..]);
        PrefixBlock(p[1..], a[1..], b[1..]);
      }
    }
  }

  /** The strings beginning with `p` form one block of the order. */
  lemma {:induction false} PrefixContiguous(p: string, a: string, b: string, c: string)
    requires p <= a && p <= c && AtMost(a, b) && AtMost(b, c)
    ensures p <= b
  {
    PrefixAtMost(p, a);
    if a != b && p != a { LessTransitive(p, a, b); }
    if !(p <= b) {
      PrefixBlock(p, c, b);
      LessTotal(b, c);
    }
  }

  lemma {:induction false} AtMostTransitive(a: string, b: string, c: string)
    requires AtMost(a, b) && AtMost(b, c)
    ensures AtMost(a, c)
  {
    if a != b && b != c { LessTransitive(a, b, c); }
  }
}
