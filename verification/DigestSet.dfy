/** A set of digests that can be looked up by a prefix of their hex text. */
module DigestSet {
  import opened Text
  import opened Digests
  import opened ShortCodes

  datatype Entry = Entry(alg: string, hex: string, digest: string)

  datatype LookupResult = Found(digest: string) | NotFound | Ambiguous

  function EntryOf(d: string): Entry {
    Entry(Algorithm(d), Hex(d), d)
  }

  predicate Before(e: Entry, f: Entry) {
    Less(e.hex, f.hex) || (e.hex == f.hex && Less(e.alg, f.alg))
  }

  /** Strictly sorted by hex text then algorithm, every entry split from a valid digest. */
  predicate WellFormed(es: seq<Entry>) {
    && (forall i {:trigger IsValid(es[i].digest)} :: 0 <= i < |es| ==> IsValid(es[i].digest))
    && (forall i :: 0 <= i < |es| ==> es[i] == EntryOf(es[i].digest))
    && (forall i, j :: 0 <= i < j < |es| ==> Before(es[i], es[j]))
  }

  function Members(es: seq<Entry>): set<string> {
    set i | 0 <= i < |es| :: es[i].digest
  }

  /** Whether a short or whole digest text could stand for the given one. */
  predicate CheckShortMatch(alg: string, hex: string, shortAlg: string, shortHex: string) {
    if |hex| == |shortHex| then hex == shortHex && (|shortAlg| > 0 ==> alg == shortAlg)
    else shortHex <= hex && (|shortAlg| > 0 ==> alg == shortAlg)
  }

  /** What a lookup over the candidates `m` must answer: the sole one, none, or two at least. */
  ghost predicate Answers(m: set<string>, r: LookupResult) {
    match r
    case NotFound => m == {}
    case Found(d) => m == {d}
    case Ambiguous => exists d, e :: d in m && e in m && d != e
  }

  /** Members whose hex text begins with `p`. */
  function PrefixMatches(s: set<string>, p: string): set<string> {
    set d | d in s && p <= Hex(d)
  }

  /** Members of algorithm `alg` whose hex text begins with `p`. */
  function QualifiedMatches(s: set<string>, alg: string, p: string): set<string> {
    set d | d in s && p <= Hex(d) && Algorithm(d) == alg
  }

  /** Members of other algorithms that share the prefix and sort at or after the point where the search lands. */
  function Rivals(s: set<string>, alg: string, p: string): set<string> {
    set d | d in s && p <= Hex(d) && Algorithm(d) != alg && !(Hex(d) == p && Less(Algorithm(d), alg))
  }

  /** `d` sorts before every digest of `others`. */
  ghost predicate Ahead(d: string, others: set<string>) {
    forall e :: e in others ==> Less(Hex(d), Hex(e))
  }

  /**
   At most two candidates are ever inspected, so an algorithm-qualified short
   lookup is right exactly when the first two candidates of the algorithm (or
   the only one) are ahead of all rivals.
   */
  ghost predicate Unshadowed(candidates: set<string>, rivals: set<string>) {
    candidates != {} ==>
      exists d ::
        && d in candidates && Ahead(d, rivals)
        && (candidates != {d} ==> exists e :: e in candidates && e != d && Ahead(e, rivals))
  }

  ghost predicate OneAlgorithm(s: set<string>) {
    forall d, e :: d in s && e in s ==> Algorithm(d) == Algorithm(e)
  }

  /** Distinct members have distinct hex texts, strictly increasing along the array. */
  lemma {:induction false} HexIncreasing(es: seq<Entry>, i: int, j: int)
    requires WellFormed(es) && 0 <= i < j < |es|
    ensures Less(es[i].hex, es[j].hex) && es[i].hex != es[j].hex && es[i].digest != es[j].digest
  {
    if es[i].hex == es[j].hex {
      SameHexSameDigest(es[i].digest, es[j].digest);
      LessTotal(es[i].alg, es[j].alg);
    }
    LessTotal(es[i].hex, es[j].hex);
  }

  ghost predicate Distinct(es: seq<Entry>) {
    forall i, j :: 0 <= i < j < |es| ==> es[i].digest != es[j].digest
  }

  lemma {:induction false} WellFormedDistinct(es: seq<Entry>)
    requires WellFormed(es)
    ensures Distinct(es)
  {
    forall i, j | 0 <= i < j < |es| ensures es[i].digest != es[j].digest { HexIncreasing(es, i, j); }
  }

  lemma {:induction false} MemberIndex(es: seq<Entry>, d: string) returns (i: int)
    requires d in Members(es)
    ensures 0 <= i < |es| && es[i].digest == d
  {
    i :| 0 <= i < |es| && es[i].digest == d;
  }

  /** `e` is at or after the entry `(alg, hex)` in the sort order: the search condition of Add, Remove and Lookup. */
  predicate AtOrAfter(e: Entry, alg: string, hex: string) {
    if e.hex == hex then AtMost(alg, e.alg) else AtMost(hex, e.hex)
  }

  lemma {:induction false} AtOrAfterMonotone(es: seq<Entry>, alg: string, hex: string, i: int, j: int)
    requires WellFormed(es) && 0 <= i <= j < |es| && AtOrAfter(es[i], alg, hex)
    ensures AtOrAfter(es[j], alg, hex)
  {
    if i < j {
      HexIncreasing(es, i, j);
      if es[i].hex != hex {
        AtMostTransitive(hex, es[i].hex, es[j].hex);
        LessTotal(es[i].hex, es[j].hex);
        LessTotal(es[i].hex, hex);
      }
    }
  }

  /** `idx` is the point of the array where `(alg, hex)` belongs. */
  ghost predicate SearchPoint(es: seq<Entry>, alg: string, hex: string, idx: nat) {
    && idx <= |es|
    && (forall i :: 0 <= i < idx ==> !AtOrAfter(es[i], alg, hex))
    && (forall i :: idx <= i < |es| ==> AtOrAfter(es[i], alg, hex))
  }

  /** Binary search for the first entry at or after `(alg, hex)`. */
  method Search(es: seq<Entry>, alg: string, hex: string) returns (idx: nat)
    requires WellFormed(es)
    ensures SearchPoint(es, alg, hex, idx)
  {
    var j := |es|;
    idx := 0;
    while idx < j
      invariant 0 <= idx <= j <= |es|
      invariant forall i :: 0 <= i < idx ==> !AtOrAfter(es[i], alg, hex)
      invariant forall i :: j <= i < |es| ==> AtOrAfter(es[i], alg, hex)
    {
      var h := (idx + j) / 2;
      if !AtOrAfter(es[h], alg, hex) {
        forall i | 0 <= i < h + 1 ensures !AtOrAfter(es[i], alg, hex) {
          if AtOrAfter(es[i], alg, hex) { AtOrAfterMonotone(es, alg, hex, i, h); }
        }
        idx := h + 1;
      } else {
        forall i | h <= i < |es| ensures AtOrAfter(es[i], alg, hex) { AtOrAfterMonotone(es, alg, hex, h, i); }
        j := h;
      }
    }
  }

  /** Everything before the search point of a digest sorts before it, and everything else at it or after. */
  lemma {:induction false} SearchPointOrder(es: seq<Entry>, d: string, idx: nat, i: int)
    requires WellFormed(es) && IsValid(d) && SearchPoint(es, Algorithm(d), Hex(d), idx) && 0 <= i < |es|
    ensures i < idx ==> Before(es[i], EntryOf(d))
    ensures i >= idx && es[i].digest != d ==> Before(EntryOf(d), es[i])
    ensures es[i].digest == d ==> i == idx
  {
    LessTotal(es[i].hex, Hex(d));
    LessTotal(es[i].alg, Algorithm(d));
    if es[i].hex == Hex(d) {
      SameHexSameDigest(es[i].digest, d);
      assert i >= idx;
      if i > idx {
        HexIncreasing(es, idx, i);
        LessTotal(es[idx].hex, Hex(d));
      }
    }
  }

  function Inserted(es: seq<Entry>, d: string, idx: nat): (fs: seq<Entry>)
    requires idx <= |es|
    ensures |fs| == |es| + 1 && fs[idx] == EntryOf(d)
    ensures forall k :: 0 <= k < idx ==> fs[k] == es[k]
    ensures forall k :: idx < k < |fs| ==> fs[k] == es[k - 1]
  {
    es[..idx] + [EntryOf(d)] + es[idx..]
  }

  lemma {:induction false} InsertedOrder(es: seq<Entry>, d: string, idx: nat, i: int, j: int)
    requires WellFormed(es) && IsValid(d) && SearchPoint(es, Algorithm(d), Hex(d), idx) && 0 <= i < j <= |es|
    requires idx < |es| ==> es[idx].digest != d
    ensures Before(Inserted(es, d, idx)[i], Inserted(es, d, idx)[j])
  {
    var fs := Inserted(es, d, idx);
    if j == idx { SearchPointOrder(es, d, idx, i); }
    else if i == idx { SearchPointOrder(es, d, idx, j - 1); }
    else {
      var a, b := if i < idx then i else i - 1, if j < idx then j else j - 1;
      assert fs[i] == es[a] && fs[j] == es[b] && Before(es[a], es[b]);
    }
  }

  lemma {:induction false} InsertSorted(es: seq<Entry>, d: string, idx: nat)
    requires WellFormed(es) && IsValid(d) && SearchPoint(es, Algorithm(d), Hex(d), idx)
    requires idx < |es| ==> es[idx].digest != d
    ensures WellFormed(Inserted(es, d, idx))
  {
    var fs := Inserted(es, d, idx);
    forall i, j | 0 <= i < j < |fs| ensures Before(fs[i], fs[j]) { InsertedOrder(es, d, idx, i, j); }
  }

  lemma {:induction false} InsertMembers(es: seq<Entry>, d: string, idx: nat)
    requires idx <= |es|
    ensures Members(Inserted(es, d, idx)) == Members(es) + {d}
  {
    var fs := Inserted(es, d, idx);
    assert fs[idx].digest == d;
    forall e | e in Members(es) ensures e in Members(fs) {
      var k := MemberIndex(es, e);
      assert fs[if k < idx then k else k + 1].digest == e;
    }
  }

  /** Removing one entry keeps the array sorted and removes exactly its digest. */
  lemma {:induction false} RemoveSorted(es: seq<Entry>, idx: nat)
    requires WellFormed(es) && idx < |es|
    ensures WellFormed(es[..idx] + es[idx + 1..])
  { }

  lemma {:induction false} RemoveMembers(es: seq<Entry>, idx: nat)
    requires Distinct(es) && idx < |es|
    ensures Members(es[..idx] + es[idx + 1..]) == Members(es) - {es[idx].digest}
  {
    var fs := es[..idx] + es[idx + 1..];
    assert forall k :: 0 <= k < |fs| ==> fs[k] == es[if k < idx then k else k + 1];
    forall e | e in Members(es) - {es[idx].digest} ensures e in Members(fs) {
      var k := MemberIndex(es, e);
      assert fs[if k < idx then k else k - 1].digest == e;
    }
  }

  /** A digest is a member exactly when the search for it lands on it. */
  lemma {:induction false} MemberAtSearchPoint(es: seq<Entry>, d: string, idx: nat)
    requires WellFormed(es) && IsValid(d) && SearchPoint(es, Algorithm(d), Hex(d), idx)
    ensures d in Members(es) <==> idx < |es| && es[idx].digest == d
  {
    if d in Members(es) {
      var k := MemberIndex(es, d);
      SearchPointOrder(es, d, idx, k);
    }
  }

  /** The answer read off the two entries at the search point. */
  function AnswerAt(es: seq<Entry>, alg: string, hex: string, idx: nat): LookupResult {
    if idx >= |es| || !CheckShortMatch(es[idx].alg, es[idx].hex, alg, hex) then NotFound
    else if es[idx].alg == alg && es[idx].hex == hex then Found(es[idx].digest)
    else if idx + 1 < |es| && CheckShortMatch(es[idx + 1].alg, es[idx + 1].hex, alg, hex) then Ambiguous
    else Found(es[idx].digest)
  }

  /** Only an entry with exactly this hex and a smaller algorithm can be skipped although it has the prefix. */
  lemma {:induction false} SkippedAtPoint(es: seq<Entry>, alg: string, hex: string, idx: nat, i: int)
    requires WellFormed(es) && SearchPoint(es, alg, hex, idx) && 0 <= i < idx && hex <= es[i].hex
    ensures es[i].hex == hex && Less(es[i].alg, alg)
  {
    PrefixAtMost(hex, es[i].hex);
    LessTotal(es[i].alg, alg);
  }

  /** From the search point on, the entries with the prefix come first and together. */
  lemma {:induction false} BlockAtPoint(es: seq<Entry>, alg: string, hex: string, idx: nat, j: int, i: int)
    requires WellFormed(es) && SearchPoint(es, alg, hex, idx) && idx <= j <= i < |es| && hex <= es[i].hex
    ensures hex <= es[j].hex
  {
    if !(hex <= es[j].hex) {
      PrefixBlock(hex, es[i].hex, es[j].hex);
      LessTotal(es[i].hex, es[j].hex);
      if j < i { HexIncreasing(es, j, i); }
    }
  }

  /** A member with the prefix that is not skipped lies in the block that starts at the search point. */
  lemma {:induction false} MatchIndex(es: seq<Entry>, alg: string, hex: string, idx: nat, d: string) returns (i: int)
    requires WellFormed(es) && SearchPoint(es, alg, hex, idx)
    requires d in Members(es) && hex <= Hex(d) && !(Hex(d) == hex && Less(Algorithm(d), alg))
    ensures idx <= i < |es| && es[i].digest == d && es[i] == EntryOf(d)
    ensures hex <= es[idx].hex && (idx < i ==> hex <= es[idx + 1].hex)
  {
    i := MemberIndex(es, d);
    if i < idx { SkippedAtPoint(es, alg, hex, idx, i); }
    BlockAtPoint(es, alg, hex, idx, idx, i);
    if idx < i { BlockAtPoint(es, alg, hex, idx, idx + 1, i); }
  }

  lemma {:induction false} UnqualifiedNone(es: seq<Entry>, p: string, idx: nat, d: string)
    requires WellFormed(es) && SearchPoint(es, "", p, idx) && d in PrefixMatches(Members(es), p)
    ensures AnswerAt(es, "", p, idx) != NotFound
    ensures AnswerAt(es, "", p, idx) != Ambiguous ==> AnswerAt(es, "", p, idx) == Found(d)
  {
    var i := MatchIndex(es, "", p, idx, d);
    ValidShape(es[idx].digest);
  }

  lemma {:induction false} UnqualifiedHit(es: seq<Entry>, p: string, idx: nat)
    requires WellFormed(es) && AnswerAt(es, "", p, idx) != NotFound
    ensures es[idx].digest in PrefixMatches(Members(es), p)
    ensures AnswerAt(es, "", p, idx) == Ambiguous ==>
              es[idx + 1].digest in PrefixMatches(Members(es), p) && es[idx].digest != es[idx + 1].digest
  {
    ValidShape(es[idx].digest);
    if AnswerAt(es, "", p, idx) == Ambiguous { HexIncreasing(es, idx, idx + 1); }
  }

  /** A text without a well-formed algorithm finds the sole member whose hex begins with it. */
  lemma {:induction false} AnswerUnqualified(es: seq<Entry>, p: string, idx: nat)
    requires WellFormed(es) && SearchPoint(es, "", p, idx)
    ensures Answers(PrefixMatches(Members(es), p), AnswerAt(es, "", p, idx))
  {
    var m, r := PrefixMatches(Members(es), p), AnswerAt(es, "", p, idx);
    if r != NotFound { UnqualifiedHit(es, p, idx); }
    forall d | d in m ensures r != NotFound && (r != Ambiguous ==> r == Found(d)) { UnqualifiedNone(es, p, idx, d); }
  }

  /** A whole valid digest finds itself, exactly when it is a member. */
  lemma {:induction false} AnswerExact(es: seq<Entry>, d: string, idx: nat)
    requires WellFormed(es) && IsValid(d) && SearchPoint(es, Algorithm(d), Hex(d), idx)
    ensures AnswerAt(es, Algorithm(d), Hex(d), idx) == if d in Members(es) then Found(d) else NotFound
  {
    MemberAtSearchPoint(es, d, idx);
    ValidShape(d);
    if idx < |es| { ValidShape(es[idx].digest); }
  }

  /** Members past the search point sort after the entries that precede them in the array. */
  lemma {:induction false} RivalIndex(es: seq<Entry>, alg: string, hex: string, idx: nat, d: string, k: int)
    requires WellFormed(es) && SearchPoint(es, alg, hex, idx)
    requires d in Rivals(Members(es), alg, hex) && idx <= k < |es|
    requires forall i :: idx <= i <= k ==> es[i].alg == alg
    ensures Less(es[k].hex, Hex(d))
  {
    var i := MatchIndex(es, alg, hex, idx, d);
    HexIncreasing(es, k, i);
  }

  /** The entry at `k` is a rival that no candidate further on can be ahead of. */
  lemma {:induction false} ShadowedBy(es: seq<Entry>, alg: string, hex: string, idx: nat, k: int, d: string)
    returns (i: int)
    requires WellFormed(es) && SearchPoint(es, alg, hex, idx) && idx <= k < |es|
    requires es[k].digest in Rivals(Members(es), alg, hex)
    requires d in QualifiedMatches(Members(es), alg, hex)
    requires Ahead(d, Rivals(Members(es), alg, hex))
    ensures idx <= i < k && es[i].digest == d
  {
    LessTotal(alg, alg);
    i := MatchIndex(es, alg, hex, idx, d);
    assert Less(Hex(d), es[k].hex);
    if i > k {
      HexIncreasing(es, k, i);
      LessTotal(es[k].hex, Hex(d));
    }
  }

  /** A search for a qualified text that hit no entry exactly. */
  ghost predicate QualifiedPoint(es: seq<Entry>, alg: string, p: string, idx: nat) {
    && WellFormed(es) && SearchPoint(es, alg, p, idx) && alg != ""
    && (idx < |es| ==> !(es[idx].alg == alg && es[idx].hex == p))
  }

  lemma {:induction false} QualifiedNotFound(es: seq<Entry>, alg: string, p: string, idx: nat, d: string)
    requires QualifiedPoint(es, alg, p, idx) && AnswerAt(es, alg, p, idx) == NotFound
    requires d in QualifiedMatches(Members(es), alg, p)
    ensures !Ahead(d, Rivals(Members(es), alg, p))
  {
    LessTotal(alg, alg);
    var i := MatchIndex(es, alg, p, idx, d);
    LessTotal(es[idx].alg, alg);
    assert es[idx].digest in Rivals(Members(es), alg, p);
    if Ahead(d, Rivals(Members(es), alg, p)) { var k := ShadowedBy(es, alg, p, idx, idx, d); }
  }

  lemma {:induction false} QualifiedAhead(es: seq<Entry>, alg: string, p: string, idx: nat, k: int)
    requires QualifiedPoint(es, alg, p, idx) && idx <= k < |es|
    requires forall i :: idx <= i <= k ==> es[i].alg == alg
    ensures Ahead(es[k].digest, Rivals(Members(es), alg, p))
  {
    forall x | x in Rivals(Members(es), alg, p) ensures Less(Hex(es[k].digest), Hex(x)) {
      RivalIndex(es, alg, p, idx, x, k);
    }
  }

  /** After a sole candidate at the search point, the next entry with the prefix is a rival. */
  lemma {:induction false} RivalNext(es: seq<Entry>, alg: string, p: string, idx: nat)
    requires WellFormed(es) && idx + 1 < |es| && p <= es[idx].hex && p <= es[idx + 1].hex && es[idx + 1].alg != alg
    ensures es[idx + 1].digest in Rivals(Members(es), alg, p)
  {
    HexIncreasing(es, idx, idx + 1);
    PrefixAtMost(p, es[idx].hex);
    LessTotal(es[idx].hex, es[idx + 1].hex);
    assert es[idx + 1].digest in Members(es);
  }

  lemma {:induction false} SecondIsRival(es: seq<Entry>, alg: string, p: string, idx: nat, e: string)
    requires QualifiedPoint(es, alg, p, idx) && AnswerAt(es, alg, p, idx).Found?
    requires e in QualifiedMatches(Members(es), alg, p) && e != es[idx].digest
    ensures idx + 1 < |es| && es[idx + 1].digest in Rivals(Members(es), alg, p)
  {
    LessTotal(alg, alg);
    var i := MatchIndex(es, alg, p, idx, e);
    RivalNext(es, alg, p, idx);
  }

  lemma {:induction false} QualifiedAlone(es: seq<Entry>, alg: string, p: string, idx: nat, e: string, x: string)
    requires QualifiedPoint(es, alg, p, idx) && AnswerAt(es, alg, p, idx).Found?
    requires e in QualifiedMatches(Members(es), alg, p) && e != es[idx].digest
    requires x in QualifiedMatches(Members(es), alg, p) && Ahead(x, Rivals(Members(es), alg, p))
    ensures x == es[idx].digest
  {
    SecondIsRival(es, alg, p, idx, e);
    AheadOfSecond(es, alg, p, idx, x);
  }

  lemma {:induction false} AheadOfSecond(es: seq<Entry>, alg: string, p: string, idx: nat, x: string)
    requires WellFormed(es) && SearchPoint(es, alg, p, idx)
    requires idx + 1 < |es| && es[idx + 1].digest in Rivals(Members(es), alg, p)
    requires x in QualifiedMatches(Members(es), alg, p) && Ahead(x, Rivals(Members(es), alg, p))
    ensures x == es[idx].digest
  {
    var i := ShadowedBy(es, alg, p, idx, idx + 1, x);
    assert i == idx;
  }

  lemma {:induction false} QualifiedTwo(es: seq<Entry>, alg: string, p: string, idx: nat)
    requires QualifiedPoint(es, alg, p, idx) && AnswerAt(es, alg, p, idx) == Ambiguous
    ensures var c, rivals := QualifiedMatches(Members(es), alg, p), Rivals(Members(es), alg, p);
            var d, e := es[idx].digest, es[idx + 1].digest;
            d in c && e in c && d != e && Ahead(d, rivals) && Ahead(e, rivals)
  {
    HexIncreasing(es, idx, idx + 1);
    QualifiedAhead(es, alg, p, idx, idx);
    QualifiedAhead(es, alg, p, idx, idx + 1);
  }

  lemma {:induction false} QualifiedOne(es: seq<Entry>, alg: string, p: string, idx: nat)
    requires QualifiedPoint(es, alg, p, idx) && AnswerAt(es, alg, p, idx).Found?
    ensures var c, rivals, d := QualifiedMatches(Members(es), alg, p), Rivals(Members(es), alg, p), es[idx].digest;
            d in c && Ahead(d, rivals) && forall e, x :: e in c && e != d && x in c && Ahead(x, rivals) ==> x == d
  {
    var c, rivals, d := QualifiedMatches(Members(es), alg, p), Rivals(Members(es), alg, p), es[idx].digest;
    QualifiedAhead(es, alg, p, idx, idx);
    forall e, x | e in c && e != d && x in c && Ahead(x, rivals)
        ensures x == d { QualifiedAlone(es, alg, p, idx, e, x); }
  }

  /**
   An algorithm-qualified text that is not a whole valid digest is answered
   rightly if and only if its first two candidates are ahead of all rivals.
   */
  lemma {:induction false} AnswerQualified(es: seq<Entry>, alg: string, p: string, idx: nat)
    requires QualifiedPoint(es, alg, p, idx)
    ensures
      var c, rivals := QualifiedMatches(Members(es), alg, p), Rivals(Members(es), alg, p);
      Answers(c, AnswerAt(es, alg, p, idx)) <==> Unshadowed(c, rivals)
  {
    var c, rivals, r := QualifiedMatches(Members(es), alg, p), Rivals(Members(es), alg, p), AnswerAt(es, alg, p, idx);
    match r
    case NotFound =>
      forall d | d in c ensures !Ahead(d, rivals) { QualifiedNotFound(es, alg, p, idx, d); }
    case Ambiguous => QualifiedTwo(es, alg, p, idx);
    case Found(d) =>
      QualifiedOne(es, alg, p, idx);
      OneOrShadowed(c, rivals, d);
  }

  /**
   With one candidate ahead of the rivals and no second one, the answer is right exactly when it is the only
   candidate.
   */
  lemma {:induction false} OneOrShadowed(c: set<string>, rivals: set<string>, d: string)
    requires d in c && Ahead(d, rivals) && forall e, x :: e in c && e != d && x in c && Ahead(x, rivals) ==> x == d
    ensures c == {d} <==> Unshadowed(c, rivals)
  { }

  /** A text that is not a valid digest hits no entry exactly. */
  lemma {:induction false} InexactHit(es: seq<Entry>, s: string, idx: nat)
    requires WellFormed(es) && !IsValid(s) && Validate(s) != Invalid(InvalidFormat)
    requires SearchPoint(es, Algorithm(s), Hex(s), idx)
    ensures QualifiedPoint(es, Algorithm(s), Hex(s), idx)
  {
    if idx < |es| && es[idx].alg == Algorithm(s) && es[idx].hex == Hex(s) { SameParts(es[idx].digest, s); }
  }

  lemma {:induction false} SameParts(d: string, s: string)
    requires Colon(d) < |d| && Colon(s) < |s| && Algorithm(d) == Algorithm(s) && Hex(d) == Hex(s)
    ensures d == s
  { }

  /** In a set of one algorithm nothing can shadow a candidate. */
  lemma {:induction false} OneAlgorithmUnshadowed(m: set<string>, alg: string, p: string)
    requires OneAlgorithm(m)
    ensures Unshadowed(QualifiedMatches(m, alg, p), Rivals(m, alg, p))
  { }

  /** Whether Lookup, given this unqualified or whole text, finds `d` in the set `m`. */
  ghost predicate Resolves(m: set<string>, text: string, d: string) {
    if IsValid(text) then text == d && d in m else Answers(PrefixMatches(m, text), Found(d))
  }

  /** No member's hex text begins another's; every set of one algorithm is like this. */
  ghost predicate PrefixFree(m: set<string>) {
    forall d, e :: d in m && e in m && Hex(d) <= Hex(e) ==> d == e
  }

  lemma {:induction false} OneAlgorithmPrefixFree(m: set<string>)
    requires OneAlgorithm(m) && forall d :: d in m ==> IsValid(d)
    ensures PrefixFree(m)
  {
    forall d, e | d in m && e in m && Hex(d) <= Hex(e) ensures d == e {
      ValidShape(d);
      ValidShape(e);
      SameHexSameDigest(d, e);
    }
  }

  ghost function Hexes(es: seq<Entry>): seq<string> {
    seq(|es|, i requires 0 <= i < |es| => es[i].hex)
  }

  lemma {:induction false} HexesIncreasing(es: seq<Entry>)
    requires WellFormed(es)
    ensures Increasing(Hexes(es))
  {
    forall i, j | 0 <= i < j < |es| ensures Less(es[i].hex, es[j].hex) { HexIncreasing(es, i, j); }
  }

  /** The scan over the entries after `i` that still match the code under trial. */
  method ScanMatches(es: seq<Entry>, i: nat, short: string, resetIdx: nat)
    returns (extended: bool, r: nat, ghost last: int)
    requires Increasing(Hexes(es)) && i < |es| && short <= es[i].hex
    ensures extended <==> i + 1 < |es| && short <= es[i + 1].hex
    ensures !extended ==> r == resetIdx
    ensures extended ==> LastMatch(Hexes(es), i, short, last) && r == if last > resetIdx then last else resetIdx
  {
    ghost var hs := Hexes(es);
    extended, r := false, resetIdx;
    var j := i + 1;
    while j < |es|
      invariant i < j <= |es|
      invariant forall k :: i < k < j ==> short <= hs[k]
      invariant extended <==> i + 1 < j
      invariant r == if j - 1 > i && j - 1 > resetIdx then j - 1 else resetIdx
    {
      assert CheckShortMatch(es[j].alg, es[j].hex, "", short) <==> short <= hs[j];
      if !CheckShortMatch(es[j].alg, es[j].hex, "", short) { break; }
      if j > r { r := j; }
      extended := true;
      j := j + 1;
    }
    last := j - 1;
    assert i + 1 < |es| ==> hs[i + 1] == es[i + 1].hex;
    forall k | last < k < |es| ensures !(short <= hs[k]) {
      if short <= hs[k] { BlockOfPrefix(hs, short, i, j, k); }
    }
  }

  /** The code of an entry at a length: as many hex digits, or the whole digest when it has no more. */
  function CodeAt(e: Entry, l: nat): string {
    if |e.hex| <= l then e.digest else e.hex[..l]
  }

  /** Lengthens the code of entry `i` from `start` digits, as far as the next entry requires. */
  method ExtendCode(es: seq<Entry>, i: nat, length: nat, start: nat, reset: nat)
    returns (short: string, l: nat, resetIdx: nat)
    requires Increasing(Hexes(es)) && i < |es| && length <= start
    requires if start == length then reset <= i else GroupEnd(Hexes(es), i, length, reset)
    ensures l == Need(Hexes(es), i, start) && short == CodeAt(es[i], l)
    ensures if l == length then resetIdx == reset <= i else GroupEnd(Hexes(es), i, length, resetIdx)
  {
    ghost var hs := Hexes(es);
    l, resetIdx, short := start, reset, "";
    var extended := true;
    while extended
      invariant start <= l && forall k :: start <= k < l ==> SharedWithNext(hs, i, k)
      invariant if l == length then resetIdx == reset <= i else GroupEnd(hs, i, length, resetIdx)
      invariant !extended ==> short == CodeAt(es[i], l) && !SharedWithNext(hs, i, l)
      decreases extended, |es[i].hex| - l
    {
      extended := false;
      if |es[i].hex| <= l {
        short := es[i].digest;
      } else {
        short := es[i].hex[..l];
        ghost var before, last := resetIdx, 0;
        extended, resetIdx, last := ScanMatches(es, i, short, resetIdx);
        assert extended <==> SharedWithNext(hs, i, l);
        if extended {
          ScanKeepsGroup(hs, i, length, l, before, last, resetIdx);
          l := l + 1;
        }
      }
    }
    NeedIs(hs, i, start, l);
  }

  /** The code that the table gives to entry `i`. */
  ghost function CodeOf(es: seq<Entry>, length: nat, i: int): string
    requires 0 <= i < |es|
  {
    CodeAt(es[i], CodeLength(Hexes(es), length, i))
  }

  ghost predicate GoodCode(es: seq<Entry>, i: int, c: string, length: nat)
    requires 0 <= i < |es|
  {
    c == es[i].digest || PrefixCode(Hexes(es), i, c, length)
  }

  lemma {:induction false} PrefixCodeOther(es: seq<Entry>, i: int, c: string, length: nat, e: string)
    requires WellFormed(es) && 0 <= i < |es| && PrefixCode(Hexes(es), i, c, length)
    requires e in Members(es) && c <= Hex(e) && e != es[i].digest
    ensures Hex(e) == c
  {
    var j := MemberIndex(es, e);
    assert Hexes(es)[j] == Hex(e);
  }

  /** A proper prefix code is a colon-free text that only its own entry and exact hex texts match. */
  lemma {:induction false} PrefixCodeMatches(es: seq<Entry>, i: int, c: string, length: nat)
    requires WellFormed(es) && 0 <= i < |es| && PrefixCode(Hexes(es), i, c, length)
    ensures es[i].digest in PrefixMatches(Members(es), c) && |c| < |Hex(es[i].digest)|
    ensures forall e :: e in PrefixMatches(Members(es), c) && e != es[i].digest ==> Hex(e) == c
  {
    assert Hexes(es)[i] == es[i].hex;
    forall e | e in PrefixMatches(Members(es), c) && e != es[i].digest ensures Hex(e) == c {
      PrefixCodeOther(es, i, c, length, e);
    }
  }

  lemma {:induction false} PrefixCodeInvalid(d: string, c: string)
    requires IsValid(d) && c <= Hex(d)
    ensures Validate(c) == Invalid(InvalidFormat) && c != d
  { }

  lemma {:induction false} CodeOfIsGood(es: seq<Entry>, length: nat, i: int)
    requires WellFormed(es) && 0 <= i < |es|
    ensures GoodCode(es, i, CodeOf(es, length, i), length)
  {
    HexesIncreasing(es);
    assert Hexes(es)[i] == es[i].hex;
    if CodeLength(Hexes(es), length, i) < |es[i].hex| { CodeIsGood(Hexes(es), length, i); }
  }

  /** A code is looked up successfully unless it happens to be the whole hex text of another member. */
  lemma {:induction false} CodeResolves(es: seq<Entry>, i: int, c: string, length: nat)
    requires WellFormed(es) && 0 <= i < |es| && GoodCode(es, i, c, length)
    ensures CodeFor(Members(es), length, es[i].digest, c)
  {
    var m, d := Members(es), es[i].digest;
    assert d in m;
    if c != d {
      PrefixCodeMatches(es, i, c, length);
      PrefixCodeInvalid(d, c);
      forall e | e in m && Hex(e) == c ensures e in PrefixMatches(m, c) && e != d { }
    }
  }

  /** Codes of different entries differ. */
  lemma {:induction false} CodesDiffer(es: seq<Entry>, i: int, c: string, j: int, e: string, length: nat)
    requires WellFormed(es) && 0 <= i < j < |es| && GoodCode(es, i, c, length) && GoodCode(es, j, e, length)
    ensures c != e
  {
    ValidShape(es[i].digest);
    ValidShape(es[j].digest);
    HexIncreasing(es, i, j);
    assert es[i].digest[Colon(es[i].digest)] == ':' && es[j].digest[Colon(es[j].digest)] == ':';
    assert c <= Hexes(es)[i] ==> ':' !in c;
    assert e <= Hexes(es)[j] ==> ':' !in e;
  }

  /** The code of a member: its whole digest or a hex prefix, leading back to it unless it is a whole hex text. */
  ghost predicate CodeFor(members: set<string>, length: nat, d: string, c: string) {
    && (c == d || (length <= |c| < |Hex(d)| && c <= Hex(d)))
    && (Resolves(members, c, d) <==> c == d || NoHex(members, c))
  }

  ghost predicate NoHex(members: set<string>, c: string) {
    forall e :: e in members ==> Hex(e) != c
  }

  /** Distinct codes for exactly the members. */
  ghost predicate CodesFor(members: set<string>, length: nat, m: map<string, string>) {
    && m.Keys == members
    && (forall d :: d in m ==> CodeFor(members, length, d, m[d]))
    && (forall d, e :: d in m && e in m && d != e ==> m[d] != m[e])
  }

  /** The table holds the code of each of these entries, and nothing else. */
  ghost predicate TableOf(es: seq<Entry>, length: nat, n: nat, m: map<string, string>)
    requires n <= |es|
  {
    && m.Keys == Members(es[..n])
    && forall k :: 0 <= k < n ==> es[k].digest in m && m[es[k].digest] == CodeOf(es, length, k)
  }

  lemma {:induction false} TableStep(es: seq<Entry>, length: nat, n: nat, m: map<string, string>)
    requires Distinct(es) && n < |es| && TableOf(es, length, n, m)
    ensures TableOf(es, length, n + 1, m[es[n].digest := CodeOf(es, length, n)])
  {
    var next := m[es[n].digest := CodeOf(es, length, n)];
    assert es[..n + 1] == es[..n] + [es[n]];
    forall d | d in Members(es[..n + 1]) ensures d in next { var k := MemberIndex(es[..n + 1], d); }
    forall d | d in next ensures d in Members(es[..n + 1]) {
      if d != es[n].digest {
        var k := MemberIndex(es[..n], d);
        assert es[..n + 1][k].digest == d;
      } else {
        assert es[..n + 1][n].digest == d;
      }
    }
  }

  lemma {:induction false} TableEntry(es: seq<Entry>, length: nat, m: map<string, string>, d: string) returns (k: int)
    requires TableOf(es, length, |es|, m) && d in m
    ensures 0 <= k < |es| && es[k].digest == d && m[d] == CodeOf(es, length, k) && d in Members(es)
  {
    assert es[..|es|] == es;
    k := MemberIndex(es, d);
  }

  lemma {:induction false} TableDistinct(es: seq<Entry>, length: nat, m: map<string, string>, d: string, e: string)
    requires WellFormed(es) && TableOf(es, length, |es|, m) && d in m && e in m && d != e
    ensures m[d] != m[e]
  {
    var i := TableEntry(es, length, m, d);
    var j := TableEntry(es, length, m, e);
    CodeOfIsGood(es, length, i);
    CodeOfIsGood(es, length, j);
    if i < j { CodesDiffer(es, i, m[d], j, m[e], length); } else { CodesDiffer(es, j, m[e], i, m[d], length); }
  }

  lemma {:induction false} TableSummary(es: seq<Entry>, length: nat, m: map<string, string>)
    requires WellFormed(es) && TableOf(es, length, |es|, m)
    ensures CodesFor(Members(es), length, m)
  {
    assert es[..|es|] == es;
    forall d | d in m ensures CodeFor(Members(es), length, d, m[d]) {
      var k := TableEntry(es, length, m, d);
      CodeOfIsGood(es, length, k);
      CodeResolves(es, k, m[d], length);
    }
    forall d, e | d in m && e in m && d != e ensures m[d] != m[e] { TableDistinct(es, length, m, d, e); }
  }

  /** In a prefix-free set every code leads back to its digest. */
  lemma {:induction false} PrefixFreeResolves(members: set<string>, length: nat, m: map<string, string>, d: string)
    requires CodesFor(members, length, m) && PrefixFree(members) && d in m
    ensures Resolves(members, m[d], d)
  {
    assert forall e :: e in members && Hex(e) == m[d] ==> Hex(e) <= Hex(d) || m[d] == d;
  }

  /** The table loop: each entry starts from the length carried over, which is reset past the end of its group. */
  method BuildTable(es: seq<Entry>, length: nat) returns (m: map<string, string>)
    requires Distinct(es) && Increasing(Hexes(es))
    ensures TableOf(es, length, |es|, m)
  {
    ghost var hs := Hexes(es);
    m := map[];
    var l: nat, resetIdx: nat, i: nat := length, 0, 0;
    while i < |es|
      invariant 0 <= i <= |es| && Carry(hs, i, length, l, resetIdx) && TableOf(es, length, i, m)
    {
      var short;
      CarriedAtLeast(hs, length, i);
      short, l, resetIdx := ExtendCode(es, i, length, l, resetIdx);
      NextCarry(hs, i, length, l, resetIdx);
      TableStep(es, length, i, m);
      m := m[es[i].digest := short];
      if i >= resetIdx { l := length; }
      i := i + 1;
    }
  }

  /**
   The code of entry `i` leads back to its digest if and only if it is not the whole hex text of the entry before,
   whose digest must be of another algorithm.
   */
  lemma {:induction false} LeadsBackIff(es: seq<Entry>, length: nat, i: int)
    requires WellFormed(es) && 0 <= i < |es|
    ensures Resolves(Members(es), CodeOf(es, length, i), es[i].digest) <==>
      !(i > 0 && es[i - 1].hex <= es[i].hex && |es[i - 1].hex| == CodeLength(Hexes(es), length, i))
  {
    CodeOfIsGood(es, length, i);
    CodeResolves(es, i, CodeOf(es, length, i), length);
    if CodeLength(Hexes(es), length, i) < |es[i].hex| {
      PrefixCodeInvalid(es[i].digest, CodeOf(es, length, i));
      PrefixLeadsBack(es, length, i);
    }
    else if i > 0 { HexIncreasing(es, i - 1, i); }
  }

  lemma {:induction false} PrefixLeadsBack(es: seq<Entry>, length: nat, i: int)
    requires WellFormed(es) && 0 <= i < |es| && CodeLength(Hexes(es), length, i) < |es[i].hex|
    ensures NoHex(Members(es), CodeOf(es, length, i)) <==>
      !(i > 0 && es[i - 1].hex <= es[i].hex && |es[i - 1].hex| == CodeLength(Hexes(es), length, i))
  {
    var hs, c := Hexes(es), CodeOf(es, length, i);
    HexesIncreasing(es);
    assert hs[i] == es[i].hex && (i > 0 ==> hs[i - 1] == es[i - 1].hex);
    CodeIsPredecessor(hs, length, i);
    HexIsMember(es, c);
  }

  lemma {:induction false} HexIsMember(es: seq<Entry>, c: string)
    requires WellFormed(es)
    ensures c in Hexes(es) <==> !NoHex(Members(es), c)
  {
    if c in Hexes(es) {
      var j :| 0 <= j < |es| && Hexes(es)[j] == c;
      assert es[j].digest in Members(es) && Hex(es[j].digest) == c;
    }
    forall d | d in Members(es) && Hex(d) == c ensures c in Hexes(es) {
      var j := MemberIndex(es, d);
      assert Hexes(es)[j] == c;
    }
  }

  /** A set of two, in the order of their hex texts. */
  lemma {:induction false} TwoEntries(d: string, e: string)
    requires IsValid(d) && IsValid(e) && Less(Hex(d), Hex(e))
    ensures WellFormed([EntryOf(d), EntryOf(e)]) && Members([EntryOf(d), EntryOf(e)]) == {d, e}
  {
    var es := [EntryOf(d), EntryOf(e)];
    assert es[0].digest == d && es[1].digest == e;
  }

  /**
   A code that does not lead back: when the hex text of a digest begins that of another, the other gets it as
   its code for every length up to that, and looking it up is ambiguous.
   */
  lemma {:induction false} CodeLeadsAstray(d: string, e: string, length: nat)
    requires IsValid(d) && IsValid(e) && d != e && Hex(d) <= Hex(e) && length <= |Hex(d)|
    ensures var es := [EntryOf(d), EntryOf(e)];
      WellFormed(es) && CodeOf(es, length, 1) == Hex(d) && !Resolves(Members(es), Hex(d), e)
  {
    var es := [EntryOf(d), EntryOf(e)];
    if Hex(d) == Hex(e) { SameHexSameDigest(d, e); }
    PrefixAtMost(Hex(d), Hex(e));
    TwoEntries(d, e);
    CodeOfSecond(es, Hex(d), length);
    LeadsBackIff(es, length, 1);
  }

  lemma {:induction false} CodeOfSecond(es: seq<Entry>, h: string, length: nat)
    requires |es| == 2 && h == es[0].hex < es[1].hex && length <= |h|
    ensures CodeLength(Hexes(es), length, 1) == |h| && CodeOf(es, length, 1) == h
  {
    var t := es[1].hex[|h|..];
    assert es[1].hex == h + t;
    assert Hexes(es) == [h, h + t];
    WholeTextIsCode(h, t, length);
  }

  /**
   A qualified lookup that misses: a member of another algorithm that sorts first and has the prefix too hides
   the only candidate.
   */
  lemma {:induction false} QualifiedMisses(d: string, e: string, p: string)
    requires IsValid(d) && IsValid(e) && Algorithm(d) != Algorithm(e) && Less(Hex(d), Hex(e))
    requires p <= Hex(d) && p <= Hex(e) && p != Hex(d)
    ensures var es := [EntryOf(d), EntryOf(e)];
      && WellFormed(es) && QualifiedPoint(es, Algorithm(e), p, 0)
      && QualifiedMatches(Members(es), Algorithm(e), p) == {e} && AnswerAt(es, Algorithm(e), p, 0) == NotFound
  {
    TwoEntries(d, e);
    PrefixAtMost(p, Hex(d));
    PrefixAtMost(p, Hex(e));
    LessTotal(p, Hex(d));
  }

  /** The candidates determine the answer. */
  lemma {:induction false} AnswersDetermined(m: set<string>, r: LookupResult, d: string)
    requires Answers(m, r)
    ensures r == Found(d) <==> Answers(m, Found(d))
  { }

  class Set {
    var entries: seq<Entry>

    constructor ()
      ensures WellFormed(entries) && Members(entries) == {}
    {
      entries := [];
    }

    /** Adds the digest unless it is invalid; adding a member again changes nothing. */
    method Add(d: string) returns (err: Check)
      requires WellFormed(entries)
      modifies this
      ensures WellFormed(entries)
      ensures err == Validate(d)
      ensures Members(entries) == old(Members(entries)) + (if err == Valid then {d} else {})
    {
      err := Validate(d);
      if err != Valid { return; }
      var es := entries;
      var idx := Search(es, Algorithm(d), Hex(d));
      if idx < |es| && es[idx].digest == d {
        assert d in Members(es);
        return;
      }
      InsertSorted(es, d, idx);
      InsertMembers(es, d, idx);
      if idx == |es| {
        entries := es + [EntryOf(d)];
        assert entries == Inserted(es, d, idx);
      } else {
        entries := Inserted(es, d, idx);
      }
    }

    /** Removes the digest unless it is invalid; removing a non-member changes nothing. */
    method Remove(d: string) returns (err: Check)
      requires WellFormed(entries)
      modifies this
      ensures WellFormed(entries)
      ensures err == Validate(d)
      ensures Members(entries) == old(Members(entries)) - (if err == Valid then {d} else {})
    {
      err := Validate(d);
      if err != Valid { return; }
      var es := entries;
      var idx := Search(es, Algorithm(d), Hex(d));
      MemberAtSearchPoint(es, d, idx);
      if idx == |es| || es[idx].digest != d { return; }
      RemoveSorted(es, idx);
      WellFormedDistinct(es);
      RemoveMembers(es, idx);
      entries := es[..idx] + es[idx + 1..];
    }

    /**
     Looks a digest up by its text, whole or short. Without an algorithm the
     sole member with that hex prefix is found; a whole digest is found exactly
     when it is a member; with an algorithm and a short hex the answer is right
     exactly when no member of another algorithm is in the way.
     */
    method Lookup(s: string) returns (r: LookupResult)
      requires WellFormed(entries)
      ensures Validate(s) == Invalid(InvalidFormat) ==> Answers(PrefixMatches(Members(entries), s), r)
      ensures IsValid(s) ==> r == if s in Members(entries) then Found(s) else NotFound
      ensures IsValid(s) || Validate(s) == Invalid(InvalidFormat) ==>
        forall d :: r == Found(d) <==> Resolves(Members(entries), s, d)
      ensures Validate(s) == Invalid(InvalidLength) || Validate(s) == Invalid(Unsupported) ==>
        (Answers(QualifiedMatches(Members(entries), Algorithm(s), Hex(s)), r) <==>
         Unshadowed(QualifiedMatches(Members(entries), Algorithm(s), Hex(s)),
             Rivals(Members(entries), Algorithm(s), Hex(s))))
    {
      var es := entries;
      if |es| == 0 { return NotFound; }
      var alg, hex := "", s;
      if Validate(s) != Invalid(InvalidFormat) {
        alg, hex := Algorithm(s), Hex(s);
      }
      var idx := Search(es, alg, hex);
      if Validate(s) == Invalid(InvalidFormat) {
        AnswerUnqualified(es, s, idx);
        forall d { AnswersDetermined(PrefixMatches(Members(es), s), AnswerAt(es, "", s, idx), d); }
      }
      else if IsValid(s) { AnswerExact(es, s, idx); }
      else { InexactHit(es, s, idx); AnswerQualified(es, alg, hex, idx); }
      if idx == |es| || !CheckShortMatch(es[idx].alg, es[idx].hex, alg, hex) { return NotFound; }
      if es[idx].alg == alg && es[idx].hex == hex { return Found(es[idx].digest); }
      if idx + 1 < |es| && CheckShortMatch(es[idx + 1].alg, es[idx + 1].hex, alg, hex) { return Ambiguous; }
      return Found(es[idx].digest);
    }

    /**
     A table of distinct codes, each the whole digest or a hex prefix of at
     least `length` digits. A code leads back to its digest exactly when it is
     not itself the whole hex text of a member; in a prefix-free set, and so in
     every set of one algorithm, all of them do. How long each code is `CodeOf` says.
     */
    method ShortCodeTable(length: nat) returns (m: map<string, string>)
      requires WellFormed(entries)
      ensures CodesFor(Members(entries), length, m)
      ensures forall k :: 0 <= k < |entries| ==>
        entries[k].digest in m && m[entries[k].digest] == CodeOf(entries, length, k)
      ensures PrefixFree(Members(entries)) ==> forall d :: d in m ==> Resolves(Members(entries), m[d], d)
    {
      HexesIncreasing(entries);
      WellFormedDistinct(entries);
      m := BuildTable(entries, length);
      TableSummary(entries, length, m);
      if PrefixFree(Members(entries)) {
        forall d | d in m { PrefixFreeResolves(Members(entries), length, m, d); }
      }
    }
  }
}
