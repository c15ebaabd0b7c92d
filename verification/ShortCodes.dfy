/** How many digits the short codes of a sorted list of texts take. */
module ShortCodes {
  import opened Text

  /** Texts in strictly increasing order. */
  ghost predicate Increasing(hs: seq<string>) {
    forall i, j :: 0 <= i < j < |hs| ==> Less(hs[i], hs[j])
  }

  /** The texts with a given prefix stand together. */
  lemma {:induction false} BlockOfPrefix(hs: seq<string>, p: string, i: int, k: int, j: int)
    requires Increasing(hs) && 0 <= i <= k <= j < |hs| && p <= hs[i] && p <= hs[j]
    ensures p <= hs[k]
  {
    PrefixContiguous(p, hs[i], hs[k], hs[j]);
  }

  /**
   `c` is a proper prefix of text `i`, of at least the wanted length, that no
   other text has, save one that is `c` itself.
   */
  ghost predicate PrefixCode(hs: seq<string>, i: int, c: string, length: nat)
    requires 0 <= i < |hs|
  {
    && length <= |c| < |hs[i]| && c <= hs[i]
    && (forall j :: i < j < |hs| ==> !(c <= hs[j]))
    && (forall j :: 0 <= j < i && c <= hs[j] ==> hs[j] == c)
  }

  /** Codes of length at least `l` tell text `i` from its predecessor. */
  ghost predicate Fresh(hs: seq<string>, i: int, l: nat) {
    0 < i < |hs| ==> |hs[i - 1]| <= l || !(hs[i - 1][..l] <= hs[i])
  }

  /** `r` is the last text that shares the first `length` characters of text `i`. */
  ghost predicate GroupEnd(hs: seq<string>, i: int, length: nat, r: int) {
    && 0 <= i <= r < |hs| && length <= |hs[i]|
    && hs[i][..length] <= hs[r]
    && (forall j :: r < j < |hs| ==> !(hs[i][..length] <= hs[j]))
  }

  lemma {:induction false} GroupEndNext(hs: seq<string>, i: int, length: nat, r: int)
    requires Increasing(hs) && GroupEnd(hs, i, length, r) && i < r
    ensures GroupEnd(hs, i + 1, length, r)
  {
    BlockOfPrefix(hs, hs[i][..length], i, i + 1, r);
    assert hs[i + 1][..length] == hs[i][..length];
  }

  /** Only the predecessor can share a code with text `i`, and then the code is all of it. */
  lemma {:induction false} PredecessorCode(hs: seq<string>, i: int, start: nat, c: string, j: int)
    requires Increasing(hs) && 0 <= j < i < |hs| && start <= |c| && c <= hs[i] && c <= hs[j] && Fresh(hs, i, start)
    ensures hs[j] == c
  {
    BlockOfPrefix(hs, c, j, i - 1, i);
    assert hs[i - 1] == c;
    if j < i - 1 {
      PrefixAtMost(c, hs[j]);
      LessTotal(hs[j], c);
    }
  }

  /** A prefix that the next text lacks and that is long enough for the previous one is a code. */
  lemma {:induction false} FreshCode(hs: seq<string>, i: int, length: nat, start: nat, l: nat)
    requires Increasing(hs) && 0 <= i < |hs| && length <= start <= l < |hs[i]|
    requires Fresh(hs, i, start) && (i + 1 < |hs| ==> !(hs[i][..l] <= hs[i + 1]))
    ensures PrefixCode(hs, i, hs[i][..l], length)
  {
    var c := hs[i][..l];
    forall j | i < j < |hs| ensures !(c <= hs[j]) {
      if c <= hs[j] { BlockOfPrefix(hs, c, i, i + 1, j); }
    }
    forall j | 0 <= j < i && c <= hs[j] ensures hs[j] == c { PredecessorCode(hs, i, start, c, j); }
  }

  /** `last` is the last text that begins with `short`. */
  ghost predicate LastMatch(hs: seq<string>, i: int, short: string, last: int) {
    && 0 <= i < last < |hs| && short <= hs[last]
    && (forall j :: last < j < |hs| ==> !(short <= hs[j]))
  }

  /** The group end found by a scan at the wanted length, kept by every scan at a greater length. */
  lemma {:induction false} ScanKeepsGroup(hs: seq<string>, i: int, length: nat, l: nat, before: nat, last: int, r: nat)
    requires Increasing(hs) && 0 <= i < |hs| && length <= l < |hs[i]|
    requires if l == length then before <= i else GroupEnd(hs, i, length, before)
    requires LastMatch(hs, i, hs[i][..l], last) && r == if last > before then last else before
    ensures GroupEnd(hs, i, length, r)
  { }

  // ---- the lengths ----

  /** The first `l` digits of text `i` do not tell it from the next. */
  ghost predicate SharedWithNext(hs: seq<string>, i: int, l: nat)
    requires 0 <= i < |hs|
  {
    l < |hs[i]| && i + 1 < |hs| && hs[i][..l] <= hs[i + 1]
  }

  /** The least length from `start` on at which text `i` is used up or differs from the next. */
  ghost function Need(hs: seq<string>, i: int, start: nat): (l: nat)
    requires 0 <= i < |hs|
    ensures start <= l && !SharedWithNext(hs, i, l) && forall k :: start <= k < l ==> SharedWithNext(hs, i, k)
    decreases |hs[i]| - start
  {
    if SharedWithNext(hs, i, start) then Need(hs, i, start + 1) else start
  }

  /** Text `i` and the next share the wanted length, and so belong to one group. */
  ghost predicate Linked(hs: seq<string>, i: int, length: nat)
    requires 0 <= i < |hs|
  {
    i + 1 < |hs| && length <= |hs[i]| && hs[i][..length] <= hs[i + 1]
  }

  /** The length at which text `i` starts: what its predecessor ended with, if they are in one group. */
  ghost function Carried(hs: seq<string>, length: nat, i: int): nat
    requires 0 <= i <= |hs|
    decreases i, 0
  {
    if i == 0 || !Linked(hs, i - 1, length) then length else CodeLength(hs, length, i - 1)
  }

  /** The length at which text `i` ends. */
  ghost function CodeLength(hs: seq<string>, length: nat, i: int): (l: nat)
    requires 0 <= i < |hs|
    decreases i, 1
  {
    Need(hs, i, Carried(hs, length, i))
  }

  lemma {:induction false} CarriedAtLeast(hs: seq<string>, length: nat, i: int)
    requires 0 <= i <= |hs|
    ensures length <= Carried(hs, length, i) && (i < |hs| ==> length <= CodeLength(hs, length, i))
    decreases i
  {
    if i > 0 { CarriedAtLeast(hs, length, i - 1); }
  }

  /** The length carried over tells a text from its predecessor. */
  lemma {:induction false} CarriedIsFresh(hs: seq<string>, length: nat, i: int)
    requires 0 <= i <= |hs|
    ensures Fresh(hs, i, Carried(hs, length, i))
  { }

  /** The code of text `i`, unless it takes all of its digits. */
  lemma {:induction false} CodeIsGood(hs: seq<string>, length: nat, i: int)
    requires Increasing(hs) && 0 <= i < |hs| && CodeLength(hs, length, i) < |hs[i]|
    ensures PrefixCode(hs, i, hs[i][..CodeLength(hs, length, i)], length)
  {
    CarriedAtLeast(hs, length, i);
    CarriedIsFresh(hs, length, i);
    FreshCode(hs, i, length, Carried(hs, length, i), CodeLength(hs, length, i));
  }

  /** What the loop carries: the length for text `i` and, once it has grown, the end of its group. */
  ghost predicate Carry(hs: seq<string>, i: int, length: nat, l: nat, resetIdx: nat)
    requires 0 <= i <= |hs|
  {
    && l == Carried(hs, length, i)
    && (i < |hs| ==> if l == length then resetIdx <= i else GroupEnd(hs, i, length, resetIdx))
  }

  lemma {:induction false} NextCarry(hs: seq<string>, i: int, length: nat, l: nat, resetIdx: nat)
    requires Increasing(hs) && 0 <= i < |hs| && l == CodeLength(hs, length, i)
    requires if l == length then resetIdx <= i else GroupEnd(hs, i, length, resetIdx)
    ensures Carry(hs, i + 1, length, if i >= resetIdx then length else l, resetIdx)
  {
    if l != length {
      if i < resetIdx {
        GroupEndNext(hs, i, length, resetIdx);
        BlockOfPrefix(hs, hs[i][..length], i, i + 1, resetIdx);
      }
      assert i < resetIdx <==> Linked(hs, i, length);
    }
  }

  // ---- the length is the greatest that was needed so far in the group ----

  /** The texts from `j` to `i` are in one group. */
  ghost predicate OneGroup(hs: seq<string>, length: nat, j: int, i: int)
    requires 0 <= j <= i < |hs|
  {
    forall k :: j <= k < i ==> Linked(hs, k, length)
  }

  lemma {:induction false} NeedFrom(hs: seq<string>, i: int, a: nat, b: nat)
    requires 0 <= i < |hs| && a <= b
    ensures Need(hs, i, b) == if Need(hs, i, a) < b then b else Need(hs, i, a)
  {
    if Need(hs, i, a) < b { NotSharedLater(hs, i, Need(hs, i, a), b); }
    else { NeedIs(hs, i, b, Need(hs, i, a)); }
  }

  lemma {:induction false} NeedIs(hs: seq<string>, i: int, start: nat, l: nat)
    requires 0 <= i < |hs| && start <= l && !SharedWithNext(hs, i, l)
    requires forall k :: start <= k < l ==> SharedWithNext(hs, i, k)
    ensures Need(hs, i, start) == l
  { }

  lemma {:induction false} NotSharedLater(hs: seq<string>, i: int, l: nat, k: nat)
    requires 0 <= i < |hs| && l <= k && !SharedWithNext(hs, i, l)
    ensures !SharedWithNext(hs, i, k)
  {
    if k <= |hs[i]| { assert hs[i][..l] == hs[i][..k][..l]; }
  }

  /** A code is as long as the closest pair of neighbours met so far in its group requires, and no longer. */
  lemma {:induction false} CodeLengthIsGreatest(hs: seq<string>, length: nat, i: int)
    requires 0 <= i < |hs|
    ensures forall j :: 0 <= j <= i && OneGroup(hs, length, j, i) ==> Need(hs, j, length) <= CodeLength(hs, length, i)
    ensures exists j :: 0 <= j <= i && OneGroup(hs, length, j, i) && Need(hs, j, length) == CodeLength(hs, length, i)
    decreases i
  {
    CarriedAtLeast(hs, length, i);
    NeedFrom(hs, i, length, Carried(hs, length, i));
    if i > 0 && Linked(hs, i - 1, length) {
      CodeLengthIsGreatest(hs, length, i - 1);
      forall j | 0 <= j < i && OneGroup(hs, length, j, i) ensures Need(hs, j, length) <= CodeLength(hs, length, i) {
        assert OneGroup(hs, length, j, i - 1);
      }
      var j :| 0 <= j <= i - 1 && OneGroup(hs, length, j, i - 1)
               && Need(hs, j, length) == CodeLength(hs, length, i - 1);
      assert OneGroup(hs, length, j, i) && OneGroup(hs, length, i, i);
    } else {
      assert OneGroup(hs, length, i, i);
      forall j | 0 <= j < i ensures !OneGroup(hs, length, j, i) { assert j <= i - 1 && !Linked(hs, i - 1, length); }
    }
  }

  // ---- when codes are as short as possible ----

  /** No shorter prefix of text `i` would be a code. */
  ghost predicate Shortest(hs: seq<string>, length: nat, i: int)
    requires 0 <= i < |hs|
  {
    forall k :: length <= k < CodeLength(hs, length, i) && k < |hs[i]| ==> !PrefixCode(hs, i, hs[i][..k], length)
  }

  /** The length that the two neighbours of text `i` require. */
  ghost function Own(hs: seq<string>, length: nat, i: int): nat
    requires 0 <= i < |hs|
  {
    var before := if i > 0 && Linked(hs, i - 1, length) then Need(hs, i - 1, length) else length;
    if before < Need(hs, i, length) then Need(hs, i, length) else before
  }

  lemma {:induction false} OwnIsCode(hs: seq<string>, length: nat, i: int)
    requires Increasing(hs) && 0 <= i < |hs| && Own(hs, length, i) < |hs[i]|
    ensures PrefixCode(hs, i, hs[i][..Own(hs, length, i)], length)
  {
    var l := Own(hs, length, i);
    NotSharedLater(hs, i, Need(hs, i, length), l);
    if i > 0 {
      if Linked(hs, i - 1, length) { NotSharedLater(hs, i - 1, Need(hs, i - 1, length), l); }
      else if length < |hs[i - 1]| { NotSharedLater(hs, i - 1, length, l); }
    }
    FreshCode(hs, i, length, l, l);
  }

  lemma {:induction false} BelowOwnIsNone(hs: seq<string>, length: nat, i: int, k: nat)
    requires Increasing(hs) && 0 <= i < |hs| && length <= k < Own(hs, length, i) && k < |hs[i]|
    ensures !PrefixCode(hs, i, hs[i][..k], length)
  {
    if k < Need(hs, i, length) {
      assert SharedWithNext(hs, i, k);
    } else {
      assert SharedWithNext(hs, i - 1, k);
      assert hs[i][..k] == hs[i - 1][..k];
    }
  }

  /**
   A code is as short as possible if and only if no earlier pair of its group lies closer
   together than it does to its neighbours, or these require all of its digits anyway.
   */
  lemma {:induction false} ShortestIff(hs: seq<string>, length: nat, i: int)
    requires Increasing(hs) && 0 <= i < |hs|
    ensures Shortest(hs, length, i) <==>
      || |hs[i]| <= Own(hs, length, i)
      || forall j :: 0 <= j < i && OneGroup(hs, length, j, i) ==> Need(hs, j, length) <= Own(hs, length, i)
  {
    var own, l := Own(hs, length, i), CodeLength(hs, length, i);
    CodeLengthIsGreatest(hs, length, i);
    forall k | length <= k < own && k < |hs[i]| ensures !PrefixCode(hs, i, hs[i][..k], length) {
      BelowOwnIsNone(hs, length, i, k);
    }
    if own < |hs[i]| { OwnIsCode(hs, length, i); }
    assert OneGroup(hs, length, i, i);
    var j :| 0 <= j <= i && OneGroup(hs, length, j, i) && Need(hs, j, length) == l;
    assert j < i || l <= own;
  }

  /** Three texts of which the third has two digits of its own and still gets a code of three. */
  lemma {:induction false} CarriedTooFar(a: char, b: char, x: string)
    requires a < b
    ensures var hs := [[a, a, a] + x, [a, a, b] + x, [a, b, a] + x];
      Increasing(hs) && CodeLength(hs, 1, 2) == 3 && PrefixCode(hs, 2, [a, b], 1)
  {
    var hs := [[a, a, a] + x, [a, a, b] + x, [a, b, a] + x];
    assert hs[0][..1] == hs[1][..1] == hs[2][..1] == [a] && hs[0][..2] == hs[1][..2] == [a, a] && hs[2][..2] == [a, b];
    DiffersAt(hs[0], hs[1], 2);
    DiffersAt(hs[0], hs[2], 1);
    DiffersAt(hs[1], hs[2], 1);
    assert SharedWithNext(hs, 0, 1) && SharedWithNext(hs, 0, 2) && !SharedWithNext(hs, 0, 3);
    assert Need(hs, 0, 1) == 3;
    assert Linked(hs, 0, 1) && Linked(hs, 1, 1);
    assert Carried(hs, 1, 1) == 3 && !SharedWithNext(hs, 1, 3);
    assert Carried(hs, 1, 2) == CodeLength(hs, 1, 1) == 3;
  }

  lemma {:induction false} DiffersAt(a: string, b: string, n: nat)
    requires n < |a| && n < |b| && a[..n] == b[..n] && a[n] < b[n]
    ensures Less(a, b)
  {
    if n > 0 {
      assert a[0] == a[..n][0] && b[0] == b[..n][0];
      assert a[1..][..n - 1] == a[..n][1..] && b[1..][..n - 1] == b[..n][1..];
      DiffersAt(a[1..], b[1..], n - 1);
    }
  }

  // ---- when a code is the whole text before it ----

  /** A code is another text exactly when it is its predecessor, all of it. */
  lemma {:induction false} CodeIsPredecessor(hs: seq<string>, length: nat, i: int)
    requires Increasing(hs) && 0 <= i < |hs| && CodeLength(hs, length, i) < |hs[i]|
    ensures hs[i][..CodeLength(hs, length, i)] in hs <==>
      i > 0 && hs[i - 1] <= hs[i] && |hs[i - 1]| == CodeLength(hs, length, i)
  {
    var c := hs[i][..CodeLength(hs, length, i)];
    CodeIsGood(hs, length, i);
    if c in hs {
      var j :| 0 <= j < |hs| && hs[j] == c;
      assert j < i;
      BlockOfPrefix(hs, c, j, i - 1, i);
      assert hs[i - 1] == c;
    }
  }

  /** Of a text and one that continues it, the second gets the first as its code. */
  lemma {:induction false} WholeTextIsCode(h: string, t: string, length: nat)
    requires t != [] && length <= |h|
    ensures var hs := [h, h + t]; CodeLength(hs, length, 1) == |h|
  {
    var hs := [h, h + t];
    assert Linked(hs, 0, length) by { assert h[..length] <= h + t; }
    assert forall k :: length <= k < |h| ==> h[..k] <= h + t;
    NeedIs(hs, 0, length, |h|);
    assert Carried(hs, length, 1) == CodeLength(hs, length, 0) == |h|;
  }
}
