/**
 Digest strings `<algorithm>:<encoded>` and their validation, as done by the
 go-digest library that the registry uses for every digest it accepts.
 */
module Digests {

  datatype Check = Valid | Invalid(error: ParseError)
  datatype ParseError = InvalidFormat | InvalidLength | Unsupported

  /** The algorithm of every digest the registry computes itself. */
  const CANONICAL := "sha256"

  predicate Available(alg: string) {
    alg == "sha256" || alg == "sha384" || alg == "sha512"
  }

  function HexLength(alg: string): (n: nat)
    ensures Available(alg) ==> n >= 64
  {
    if alg == "sha256" then 64 else if alg == "sha384" then 96 else if alg == "sha512" then 128 else 0
  }

  predicate IsHex(c: char) {
    'a' <= c <= 'f' || '0' <= c <= '9'
  }

  predicate IsLowerAlnum(c: char) {
    'a' <= c <= 'z' || '0' <= c <= '9'
  }

  predicate IsSeparator(c: char) {
    c == '.' || c == '+' || c == '_' || c == '-'
  }

  predicate IsEncoded(c: char) {
    'a' <= c <= 'z' || 'A' <= c <= 'Z' || '0' <= c <= '9' || c == '=' || c == '_' || c == '-'
  }

  /** The anchored pattern for digests of any algorithm: dotted lower-case words, a colon, encoded text. */
  predicate MatchesPattern(alg: string, encoded: string) {
    && alg != [] && encoded != []
    && (forall i :: 0 <= i < |alg| ==> IsLowerAlnum(alg[i]) || IsSeparator(alg[i]))
    && IsLowerAlnum(alg[0]) && IsLowerAlnum(alg[|alg| - 1])
    && (forall i :: 0 <= i < |alg| - 1 ==> !(IsSeparator(alg[i]) && IsSeparator(alg[i + 1])))
    && (forall i :: 0 <= i < |encoded| ==> IsEncoded(encoded[i]))
  }

  /** Index of the first colon, or the length when there is none. */
  function Colon(s: string): (i: nat)
    ensures i <= |s|
    ensures i < |s| ==> s[i] == ':'
    ensures forall j :: 0 <= j < i ==> s[j] != ':'
  {
    if s == [] || s[0] == ':' then 0 else 1 + Colon(s[1..])
  }

  function Algorithm(d: string): string {
    d[..Colon(d)]
  }

  function Hex(d: string): string {
    if Colon(d) == |d| then [] else d[Colon(d) + 1..]
  }

  function Validate(d: string): Check {
    var i := Colon(d);
    if i == |d| || i == 0 || i + 1 == |d| then Invalid(InvalidFormat)
    else if !Available(Algorithm(d)) then
      if MatchesPattern(Algorithm(d), Hex(d)) then Invalid(Unsupported) else Invalid(InvalidFormat)
    else if |Hex(d)| != HexLength(Algorithm(d)) then Invalid(InvalidLength)
    else if forall k :: 0 <= k < |Hex(d)| ==> IsHex(Hex(d)[k]) then Valid
    else Invalid(InvalidFormat)
  }

  predicate IsValid(d: string) {
    Validate(d) == Valid
  }

  function FromHex(alg: string, hex: string): string {
    alg + ":" + hex
  }

  /** A valid digest is its algorithm, a colon and its hex text, and the hex text fixes the algorithm. */
  lemma {:induction false} ValidShape(d: string)
    requires IsValid(d)
    ensures d == FromHex(Algorithm(d), Hex(d))
    ensures Available(Algorithm(d)) && |Hex(d)| == HexLength(Algorithm(d)) >= 64
    ensures ':' !in Hex(d) && '/' !in Hex(d)
  { }

  lemma {:induction false} SameHexSameDigest(d: string, e: string)
    requires IsValid(d) && IsValid(e) && Hex(d) == Hex(e)
    ensures d == e
  { }
}
