/**
 The parser for the first element of a Forwarded header (section 4 of RFC 7239).
 Strings are sequences of Unicode code points.
 */
module ForwardedHeader {

  datatype State = Element | Parameter | KeyValueDelimiter | Value | QuotedValue | EscapedCharacter | PairEnd

  datatype Reason =
    UnexpectedEnd | NoToken | NoEquals | NoValue | DuplicateParameter | Unterminated | BadEscape | NoSeparator

  /** The parsed pairs and the unparsed text, or an error and the text at which it arose. */
  datatype Outcome = Parsed(pairs: map<string, string>, rest: string) | Failed(reason: Reason, rest: string)

  /** The variables of the parsing loop. */
  datatype Config = Config(state: State, parse: string, parameter: string, value: string, res: map<string, string>)

  datatype StepResult = Next(config: Config) | Done(outcome: Outcome)

  // ---- character classes ----

  predicate IsSpace(c: char) {
    || '\t' <= c <= '\r' || c == ' ' || c == '\U{85}' || c == '\U{A0}' || c == '\U{1680}' ||
        '\U{2000}' <= c <= '\U{200A}'
    || c == '\U{2028}' || c == '\U{2029}' || c == '\U{202F}' || c == '\U{205F}' || c == '\U{3000}'
  }

  predicate IsControl(c: char) {
    c <= '\U{1F}' || c == '\U{7F}'
  }

  /** Characters of a token: all but the delimiters, ASCII white space and ASCII controls. */
  predicate IsToken(c: char) {
    && !IsControl(c) && c != ' ' && c != '"' && c != '(' && c != ')' && c != ',' && c != '/'
    && !(':' <= c <= '@') && c != '[' && c != ']' && c != '{' && c != '}'
  }

  predicate IsPlain(c: char) {
    c != '\\' && c != '"'
  }

  /** Characters that may follow a backslash: blank or visible ASCII. */
  predicate IsEscapable(c: char) {
    c == '\t' || ' ' <= c <= '~'
  }

  function LowerChar(c: char): char {
    if 'A' <= c <= 'Z' then (c as int + 32) as char else c
  }

  function Lower(s: string): (r: string)
    ensures |r| == |s|
  {
    if s == [] then [] else [LowerChar(s[0])] + Lower(s[1..])
  }

  // ---- cutting the input ----

  predicate AllSpaces(s: string) {
    forall i :: 0 <= i < |s| ==> IsSpace(s[i])
  }

  predicate AllToken(s: string) {
    forall i :: 0 <= i < |s| ==> IsToken(s[i])
  }

  function SpaceRun(s: string): (n: nat)
    ensures n <= |s| && forall i :: 0 <= i < n ==> IsSpace(s[i])
    ensures n < |s| ==> !IsSpace(s[n])
  {
    if s == [] || !IsSpace(s[0]) then 0 else 1 + SpaceRun(s[1..])
  }

  function TokenRun(s: string): (n: nat)
    ensures n <= |s| && forall i :: 0 <= i < n ==> IsToken(s[i])
    ensures n < |s| ==> !IsToken(s[n])
  {
    if s == [] || !IsToken(s[0]) then 0 else 1 + TokenRun(s[1..])
  }

  function PlainRun(s: string): (n: nat)
    ensures n <= |s| && forall i :: 0 <= i < n ==> IsPlain(s[i])
    ensures n < |s| ==> !IsPlain(s[n])
  {
    if s == [] || !IsPlain(s[0]) then 0 else 1 + PlainRun(s[1..])
  }

  // ---- the state machine ----

  ghost predicate SuffixOf(r: string, s: string) {
    |r| <= |s| && r == s[|s| - |r|..]
  }

  function Rank(s: State): nat {
    match s
    case PairEnd => 2
    case Element => 1
    case _ => 0
  }

  /** White space is skipped except inside a quoted value. */
  function Skipped(c: Config): (p: string)
    ensures SuffixOf(p, c.parse)
  {
    if c.state == QuotedValue || c.state == EscapedCharacter then c.parse else c.parse[SpaceRun(c.parse)..]
  }

  /** A turn that goes on consumes input or moves to a state of lower rank; all it leaves is a suffix of its input. */
  ghost predicate Progress(c: Config, r: StepResult) {
    match r
    case Next(d) =>
      SuffixOf(d.parse, c.parse) && (|d.parse| < |c.parse| || (|d.parse| == |c.parse| && Rank(d.state) < Rank(c.state)))
    case Done(o) => SuffixOf(o.rest, c.parse)
  }

  function StepElement(c: Config, p: string): (r: StepResult)
    requires c.state == Element && SuffixOf(p, c.parse) && p != []
    ensures Progress(c, r)
  {
    if p[0] == ',' then Done(Parsed(c.res, p[1..])) else Next(c.(parse := p, state := Parameter))
  }

  function StepParameter(c: Config, p: string): (r: StepResult)
    requires c.state == Parameter && SuffixOf(p, c.parse) && p != []
    ensures Progress(c, r)
  {
    var n := TokenRun(p);
    if n == 0 then Done(Failed(NoToken, p))
    else Next(c.(parameter := Lower(p[..n]), parse := p[n..], state := KeyValueDelimiter))
  }

  function StepKeyValueDelimiter(c: Config, p: string): (r: StepResult)
    requires c.state == KeyValueDelimiter && SuffixOf(p, c.parse) && p != []
    ensures Progress(c, r)
  {
    if p[0] != '=' then Done(Failed(NoEquals, p)) else Next(c.(parse := p[1..], state := Value))
  }

  /** A repeated parameter is refused here, but not when its value is quoted. */
  function StepValue(c: Config, p: string): (r: StepResult)
    requires c.state == Value && SuffixOf(p, c.parse) && p != []
    ensures Progress(c, r)
  {
    if p[0] == '"' then Next(c.(parse := p[1..], state := QuotedValue))
    else
      var n := TokenRun(p);
      if n == 0 then Done(Failed(NoValue, p))
      else if c.parameter in c.res then Done(Failed(DuplicateParameter, p))
      else Next(c.(res := c.res[c.parameter := p[..n]], parse := p[n..], value := "", state := PairEnd))
  }

  function StepQuotedValue(c: Config, p: string): (r: StepResult)
    requires c.state == QuotedValue && SuffixOf(p, c.parse) && p != []
    ensures Progress(c, r)
  {
    var n := PlainRun(p);
    if n == |p| then Done(Failed(Unterminated, p[n..]))
    else if p[n] == '"' then
      Next(c.(res := c.res[c.parameter := c.value + p[..n]], value := "", parse := p[n + 1..], state := PairEnd))
    else Next(c.(value := c.value + p[..n], parse := p[n + 1..], state := EscapedCharacter))
  }

  function StepEscapedCharacter(c: Config, p: string): (r: StepResult)
    requires c.state == EscapedCharacter && SuffixOf(p, c.parse) && p != []
    ensures Progress(c, r)
  {
    if !IsEscapable(p[0]) then Done(Failed(BadEscape, p))
    else Next(c.(value := c.value + p[..1], parse := p[1..], state := QuotedValue))
  }

  function StepPairEnd(c: Config, p: string): (r: StepResult)
    requires c.state == PairEnd && SuffixOf(p, c.parse) && p != []
    ensures Progress(c, r)
  {
    if p[0] == ';' then Next(c.(parse := p[1..], state := Parameter))
    else if p[0] == ',' then Next(c.(parse := p, state := Element))
    else Done(Failed(NoSeparator, p))
  }

  /** One turn of the loop. */
  function Step(c: Config): (r: StepResult)
    ensures Progress(c, r)
  {
    var p := Skipped(c);
    if p == [] then
      if c.state == Element || c.state == PairEnd || c.state == Parameter then Done(Parsed(c.res, p))
      else Done(Failed(UnexpectedEnd, p))
    else
      match c.state
      case Element => StepElement(c, p)
      case Parameter => StepParameter(c, p)
      case KeyValueDelimiter => StepKeyValueDelimiter(c, p)
      case Value => StepValue(c, p)
      case QuotedValue => StepQuotedValue(c, p)
      case EscapedCharacter => StepEscapedCharacter(c, p)
      case PairEnd => StepPairEnd(c, p)
  }

  function Run(c: Config): Outcome
    decreases |c.parse|, Rank(c.state)
  {
    match Step(c)
    case Done(o) => o
    case Next(d) => Run(d)
  }

  function Parse(forwarded: string): Outcome {
    Run(Config(Element, forwarded, "", "", map[]))
  }

  /** Whatever the outcome, what is left unparsed is a suffix of the input. */
  lemma {:induction false} RunSuffix(c: Config)
    ensures SuffixOf(Run(c).rest, c.parse)
    decreases |c.parse|, Rank(c.state)
  {
    if Step(c).Next? {
      var d := Step(c).config;
      RunSuffix(d);
      SuffixTransitive(Run(d).rest, d.parse, c.parse);
    }
  }

  lemma {:induction false} SuffixTransitive(a: string, b: string, c: string)
    requires SuffixOf(a, b) && SuffixOf(b, c)
    ensures SuffixOf(a, c)
  { }

  /** The parser: it terminates on every input and leaves a suffix of it unparsed. */
  method ParseForwardedHeader(forwarded: string) returns (o: Outcome)
    ensures o == Parse(forwarded)
    ensures SuffixOf(o.rest, forwarded)
  {
    var c := Config(Element, forwarded, "", "", map[]);
    RunSuffix(c);
    while true
      invariant Run(c) == Parse(forwarded)
      decreases |c.parse|, Rank(c.state)
    {
      match Step(c) {
        case Done(r) => return r;
        case Next(d) => c := d;
      }
    }
  }

  // ---- the grammar of the texts that parse ----

  datatype QuotedChar = Plain(c: char) | Escaped(c: char)

  datatype FieldValue = Token(text: string) | Quoted(chars: seq<QuotedChar>)

  /** `key = value` with the white space before, inside and after it. */
  datatype Pair = Pair(lead: string, key: string, beforeEq: string, afterEq: string, value: FieldValue, trail: string)

  /** What may follow the last pair: nothing, a dangling semicolon, or a comma and the remaining elements. */
  datatype Tail = End | Semicolon(spaces: string) | Comma(rest: string)

  datatype Text = Blank(spaces: string) | EmptyElement(spaces: string, rest: string)
      | Pairs(pairs: seq<Pair>, tail: Tail)

  predicate IsWord(s: string) {
    s != [] && AllToken(s) && !IsSpace(s[0])
  }

  /** White space that a token before it does not swallow. */
  predicate IsGap(s: string) {
    AllSpaces(s) && (s != [] ==> !IsToken(s[0]))
  }

  predicate ValidQuoted(cs: seq<QuotedChar>) {
    forall i :: 0 <= i < |cs| ==> if cs[i].Plain? then IsPlain(cs[i].c) else IsEscapable(cs[i].c)
  }

  predicate ValidPair(p: Pair) {
    && AllSpaces(p.lead) && IsWord(p.key) && IsGap(p.beforeEq) && AllSpaces(p.afterEq) && AllSpaces(p.trail)
    && match p.value
       case Token(t) => IsWord(t) && IsGap(p.trail)
       case Quoted(cs) => ValidQuoted(cs)
  }

  function Unquoted(cs: seq<QuotedChar>): string {
    if cs == [] then [] else [cs[0].c] + Unquoted(cs[1..])
  }

  function ValueText(v: FieldValue): string {
    match v
    case Token(t) => t
    case Quoted(cs) => Unquoted(cs)
  }

  function RenderQuoted(cs: seq<QuotedChar>, after: string): (r: string)
    ensures r != [] && |r| > |after|
  {
    if cs == [] then ['"'] + after
    else match cs[0]
      case Plain(c) => [c] + RenderQuoted(cs[1..], after)
      case Escaped(c) => ['\\'] + ([c] + RenderQuoted(cs[1..], after))
  }

  function RenderValue(v: FieldValue, after: string): string {
    match v
    case Token(t) => t + after
    case Quoted(cs) => ['"'] + RenderQuoted(cs, after)
  }

  function RenderPair(p: Pair, after: string): string {
    p.lead + (p.key + (p.beforeEq + (['='] + (p.afterEq + RenderValue(p.value, p.trail + after)))))
  }

  function RenderTail(t: Tail): string {
    match t
    case End => []
    case Semicolon(sp) => [';'] + sp
    case Comma(rest) => [','] + rest
  }

  function RenderPairs(ps: seq<Pair>, t: Tail): string {
    if ps == [] then RenderTail(t)
    else RenderPair(ps[0], if |ps| == 1 then RenderTail(t) else [';'] + RenderPairs(ps[1..], t))
  }

  function Render(t: Text): string {
    match t
    case Blank(sp) => sp
    case EmptyElement(sp, rest) => sp + ([','] + rest)
    case Pairs(ps, tail) => RenderPairs(ps, tail)
  }

  function Bind(p: Pair, res: map<string, string>): map<string, string> {
    res[Lower(p.key) := ValueText(p.value)]
  }

  function BindAll(ps: seq<Pair>, res: map<string, string>): map<string, string> {
    if ps == [] then res else BindAll(ps[1..], Bind(ps[0], res))
  }

  /** An unquoted value may not repeat a parameter; a quoted one silently replaces it. */
  predicate Accepts(ps: seq<Pair>, res: map<string, string>) {
    ps != [] ==>
      (ps[0].value.Token? ==> Lower(ps[0].key) !in res) && Accepts(ps[1..], Bind(ps[0], res))
  }

  predicate ValidPairs(ps: seq<Pair>, t: Tail) {
    (forall i :: 0 <= i < |ps| ==> ValidPair(ps[i])) && (t.Semicolon? ==> AllSpaces(t.spaces))
  }

  predicate ValidText(t: Text) {
    match t
    case Blank(sp) => AllSpaces(sp)
    case EmptyElement(sp, _) => AllSpaces(sp)
    case Pairs(ps, tail) => ps != [] && ValidPairs(ps, tail) && Accepts(ps, map[])
  }

  function TailRest(t: Tail): string {
    if t.Comma? then t.rest else []
  }

  /** The pairs a text of the grammar stands for, and the text after its element. */
  function Meaning(t: Text): Outcome {
    match t
    case Blank(_) => Parsed(map[], [])
    case EmptyElement(_, rest) => Parsed(map[], rest)
    case Pairs(ps, tail) => Parsed(BindAll(ps, map[]), TailRest(tail))
  }

  // ---- every text of the grammar parses to its meaning ----

  lemma {:induction false} SkipSpaces(sp: string, s: string)
    requires AllSpaces(sp) && (s != [] ==> !IsSpace(s[0]))
    ensures SpaceRun(sp + s) == |sp| && (sp + s)[|sp|..] == s
  { }

  lemma {:induction false} SkipTo(c: Config, sp: string, t: string)
    requires c.state != QuotedValue && c.state != EscapedCharacter
    requires c.parse == sp + t && AllSpaces(sp) && (t != [] ==> !IsSpace(t[0]))
    ensures Skipped(c) == t
  {
    SkipSpaces(sp, t);
  }

  lemma {:induction false} TakeToken(t: string, s: string)
    requires AllToken(t) && (s != [] ==> !IsToken(s[0]))
    ensures TokenRun(t + s) == |t| && (t + s)[..|t|] == t && (t + s)[|t|..] == s
  { }

  lemma {:induction false} RunStep(c: Config, d: Config)
    requires Step(c) == Next(d) || Step(c) == Step(d)
    ensures Run(c) == Run(d)
  { }

  lemma {:induction false} StepName(c: Config, d: Config, lead: string, key: string, s: string)
    requires AllSpaces(lead) && IsWord(key) && (s != [] ==> !IsToken(s[0]))
    requires c.state == Parameter && c.parse == lead + (key + s)
    requires d == c.(state := KeyValueDelimiter, parse := s, parameter := Lower(key))
    ensures Step(c) == Next(d)
  {
    assert (key + s)[0] == key[0];
    SkipTo(c, lead, key + s);
    TakeToken(key, s);
  }

  lemma {:induction false} RunParameter(c: Config, d: Config, lead: string, key: string, s: string)
    requires AllSpaces(lead) && IsWord(key) && (s != [] ==> !IsToken(s[0]))
    requires c.state == Parameter && c.parse == lead + (key + s)
    requires d == c.(state := KeyValueDelimiter, parse := s, parameter := Lower(key))
    ensures Run(c) == Run(d)
  {
    StepName(c, d, lead, key, s);
    RunStep(c, d);
  }

  lemma {:induction false} StepEquals(c: Config, d: Config, sp: string, s: string)
    requires AllSpaces(sp) && c.state == KeyValueDelimiter && c.parse == sp + (['='] + s) &&
      d == c.(state := Value, parse := s)
    ensures Step(c) == Next(d)
  {
    var t := ['='] + s;
    SkipTo(c, sp, t);
    assert t[0] == '=' && t[1..] == s;
  }

  lemma {:induction false} RunEquals(sp: string, s: string, par: string, res: map<string, string>)
    requires AllSpaces(sp)
    ensures Run(Config(KeyValueDelimiter, sp + (['='] + s), par, "", res)) == Run(Config(Value, s, par, "", res))
  {
    var c, d := Config(KeyValueDelimiter, sp + (['='] + s), par, "", res), Config(Value, s, par, "", res);
    StepEquals(c, d, sp, s);
    RunStep(c, d);
  }

  lemma {:induction false} StepToken(c: Config, d: Config, sp: string, t: string, s: string)
    requires AllSpaces(sp) && IsWord(t) && (s != [] ==> !IsToken(s[0]))
    requires c.state == Value && c.value == "" && c.parse == sp + (t + s) && c.parameter !in c.res
    requires d == Config(PairEnd, s, c.parameter, "", c.res[c.parameter := t])
    ensures Step(c) == Next(d)
  {
    assert (t + s)[0] == t[0];
    SkipTo(c, sp, t + s);
    TakeToken(t, s);
  }

  lemma {:induction false} RunToken(sp: string, t: string, s: string, par: string, res: map<string, string>)
    requires AllSpaces(sp) && IsWord(t) && (s != [] ==> !IsToken(s[0])) && par !in res
    ensures Run(Config(Value, sp + (t + s), par, "", res)) == Run(Config(PairEnd, s, par, "", res[par := t]))
  {
    var c, d := Config(Value, sp + (t + s), par, "", res), Config(PairEnd, s, par, "", res[par := t]);
    StepToken(c, d, sp, t, s);
    RunStep(c, d);
  }

  lemma {:induction false} StepOpenQuote(c: Config, d: Config, sp: string, s: string)
    requires AllSpaces(sp) && c.state == Value && c.parse == sp + (['"'] + s) &&
      d == c.(state := QuotedValue, parse := s)
    ensures Step(c) == Next(d)
  {
    var t := ['"'] + s;
    SkipTo(c, sp, t);
    assert t[0] == '"' && t[1..] == s;
  }

  lemma {:induction false} RunOpenQuote(sp: string, s: string, par: string, res: map<string, string>)
    requires AllSpaces(sp)
    ensures Run(Config(Value, sp + (['"'] + s), par, "", res)) == Run(Config(QuotedValue, s, par, "", res))
  {
    var c, d := Config(Value, sp + (['"'] + s), par, "", res), Config(QuotedValue, s, par, "", res);
    StepOpenQuote(c, d, sp, s);
    RunStep(c, d);
  }

  lemma {:induction false} StepPlain(c: char, s: string, par: string, v: string, res: map<string, string>)
    requires IsPlain(c) && s != []
    ensures Step(Config(QuotedValue, [c] + s, par, v, res)) == Step(Config(QuotedValue, s, par, v + [c], res))
  {
    var t := [c] + s;
    QuotedStep(Config(QuotedValue, t, par, v, res));
    QuotedStep(Config(QuotedValue, s, par, v + [c], res));
    SameQuoted(c, s, t, par, v, res);
  }

  lemma {:induction false} QuotedStep(c: Config)
    requires c.state == QuotedValue && c.parse != []
    ensures SuffixOf(c.parse, c.parse) && Step(c) == StepQuotedValue(c, c.parse)
  { }

  lemma {:induction false} SameQuoted(c: char, s: string, t: string, par: string, v: string, res: map<string, string>)
    requires IsPlain(c) && s != [] && t == [c] + s
    ensures SuffixOf(t, t) && SuffixOf(s, s)
    ensures StepQuotedValue(Config(QuotedValue, t, par, v, res), t) ==
      StepQuotedValue(Config(QuotedValue, s, par, v + [c], res), s)
  {
    PlainText(c, s, t, v, PlainRun(s));
  }

  lemma {:induction false} PlainText(c: char, s: string, t: string, v: string, n: nat)
    requires IsPlain(c) && t == [c] + s && n == PlainRun(s)
    ensures PlainRun(t) == 1 + n && t[1 + n..] == s[n..] && v + t[..1 + n] == v + [c] + s[..n]
    ensures n < |s| ==> t[1 + n] == s[n] && t[1 + n + 1..] == s[n + 1..]
  { }

  /** Plain characters of a quoted value may be read one at a time. */
  lemma {:induction false} RunPlain(c: char, s: string, par: string, v: string, res: map<string, string>)
    requires IsPlain(c) && s != []
    ensures Run(Config(QuotedValue, [c] + s, par, v, res)) == Run(Config(QuotedValue, s, par, v + [c], res))
  {
    StepPlain(c, s, par, v, res);
  }

  lemma {:induction false} RunEscape(c: char, s: string, par: string, v: string, res: map<string, string>)
    requires IsEscapable(c)
    ensures Run(Config(QuotedValue, ['\\'] + ([c] + s), par, v, res)) == Run(Config(QuotedValue, s, par, v + [c], res))
  {
    var t := ['\\'] + ([c] + s);
    assert PlainRun(t) == 0 && t[0..] == t && t[1..] == [c] + s && v + t[..0] == v;
    assert ([c] + s)[1..] == s && ([c] + s)[..1] == [c];
    assert Step(Config(QuotedValue, t, par, v, res)) == Next(Config(EscapedCharacter, [c] + s, par, v, res));
    assert Step(Config(EscapedCharacter, [c] + s, par, v, res)) == Next(Config(QuotedValue, s, par, v + [c], res));
  }

  lemma {:induction false} RunCloseQuote(after: string, par: string, v: string, res: map<string, string>)
    ensures Run(Config(QuotedValue, ['"'] + after, par, v, res)) == Run(Config(PairEnd, after, par, "", res[par := v]))
  {
    var t := ['"'] + after;
    assert PlainRun(t) == 0 && t[0..] == t && t[1..] == after && v + t[..0] == v;
    assert Step(Config(QuotedValue, t, par, v, res)) == Next(Config(PairEnd, after, par, "", res[par := v]));
  }

  lemma {:induction false} RunQuotedChar(q: QuotedChar, s: string, par: string, v: string, res: map<string, string>)
    requires s != [] && if q.Plain? then IsPlain(q.c) else IsEscapable(q.c)
    ensures Run(Config(QuotedValue, (if q.Plain? then [q.c] + s else ['\\'] + ([q.c] + s)), par, v, res))
         == Run(Config(QuotedValue, s, par, v + [q.c], res))
  {
    if q.Plain? { RunPlain(q.c, s, par, v, res); } else { RunEscape(q.c, s, par, v, res); }
  }

  lemma {:induction false} RunQuoted(cs: seq<QuotedChar>, after: string, par: string, v: string,
                                     res: map<string, string>)
    requires ValidQuoted(cs)
    ensures Run(Config(QuotedValue, RenderQuoted(cs, after), par, v, res))
         == Run(Config(PairEnd, after, par, "", res[par := v + Unquoted(cs)]))
    decreases |cs|
  {
    if cs == [] {
      RunCloseQuote(after, par, v, res);
      assert v + Unquoted(cs) == v;
    } else {
      RunQuotedChar(cs[0], RenderQuoted(cs[1..], after), par, v, res);
      RunQuoted(cs[1..], after, par, v + [cs[0].c], res);
      assert v + [cs[0].c] + Unquoted(cs[1..]) == v + Unquoted(cs);
    }
  }

  /** What follows a pair cannot be mistaken for part of it. */
  predicate IsBreak(after: string) {
    after != [] ==> after[0] == ';' || after[0] == ','
  }

  lemma {:induction false} RunValue(p: Pair, after: string, res: map<string, string>)
    requires ValidPair(p) && IsBreak(after) && (p.value.Token? ==> Lower(p.key) !in res)
    ensures Run(Config(Value, p.afterEq + RenderValue(p.value, p.trail + after), Lower(p.key), "", res))
         == Run(Config(PairEnd, p.trail + after, Lower(p.key), "", Bind(p, res)))
  {
    match p.value
    case Token(t) =>
      assert p.trail + after != [] ==> (p.trail + after)[0] == if p.trail != [] then p.trail[0] else after[0];
      RunToken(p.afterEq, t, p.trail + after, Lower(p.key), res);
    case Quoted(cs) =>
      RunOpenQuote(p.afterEq, RenderQuoted(cs, p.trail + after), Lower(p.key), res);
      RunQuoted(cs, p.trail + after, Lower(p.key), "", res);
      assert "" + Unquoted(cs) == Unquoted(cs);
  }

  /** One pair is read whole, up to the white space after it. */
  lemma {:induction false} RunPair(p: Pair, after: string, par: string, res: map<string, string>)
    requires ValidPair(p) && IsBreak(after) && (p.value.Token? ==> Lower(p.key) !in res)
    ensures Run(Config(Parameter, RenderPair(p, after), par, "", res))
         == Run(Config(PairEnd, p.trail + after, Lower(p.key), "", Bind(p, res)))
  {
    RunToValue(p, after, par, res);
    RunValue(p, after, res);
  }

  lemma {:induction false} RunToValue(p: Pair, after: string, par: string, res: map<string, string>)
    requires ValidPair(p)
    ensures Run(Config(Parameter, RenderPair(p, after), par, "", res))
         == Run(Config(Value, p.afterEq + RenderValue(p.value, p.trail + after), Lower(p.key), "", res))
  {
    var s2 := p.afterEq + RenderValue(p.value, p.trail + after);
    var s1 := p.beforeEq + (['='] + s2);
    var c, d := Config(Parameter, RenderPair(p, after), par, "", res),
        Config(KeyValueDelimiter, s1, Lower(p.key), "", res);
    assert s1[0] == if p.beforeEq != [] then p.beforeEq[0] else '=';
    RunParameter(c, d, p.lead, p.key, s1);
    RunEquals(p.beforeEq, s2, Lower(p.key), res);
  }

  lemma {:induction false} StepSemicolon(c: Config, d: Config, sp: string, s: string)
    requires AllSpaces(sp) && c.state == PairEnd && c.parse == sp + ([';'] + s) &&
      d == c.(state := Parameter, parse := s)
    ensures Step(c) == Next(d)
  {
    var t := [';'] + s;
    SkipTo(c, sp, t);
    assert t[0] == ';' && t[1..] == s;
  }

  lemma {:induction false} RunSeparator(sp: string, s: string, par: string, res: map<string, string>)
    requires AllSpaces(sp)
    ensures Run(Config(PairEnd, sp + ([';'] + s), par, "", res)) == Run(Config(Parameter, s, par, "", res))
  {
    var c, d := Config(PairEnd, sp + ([';'] + s), par, "", res), Config(Parameter, s, par, "", res);
    StepSemicolon(c, d, sp, s);
    RunStep(c, d);
  }

  lemma {:induction false} RunBlank(c: Config)
    requires AllSpaces(c.parse) && (c.state == Element || c.state == PairEnd || c.state == Parameter)
    ensures Run(c) == Parsed(c.res, [])
  { }

  lemma {:induction false} StepComma(c: Config, sp: string, s: string)
    requires AllSpaces(sp) && c.parse == sp + ([','] + s)
    ensures c.state == Element ==> Step(c) == Done(Parsed(c.res, s))
    ensures c.state == PairEnd ==> Step(c) == Next(c.(state := Element, parse := [','] + s))
  {
    if c.state == Element || c.state == PairEnd {
      var t := [','] + s;
      SkipTo(c, sp, t);
      assert t[0] == ',' && t[1..] == s;
    }
  }

  lemma {:induction false} RunComma(sp: string, s: string, par: string, res: map<string, string>)
    requires AllSpaces(sp)
    ensures Run(Config(Element, sp + ([','] + s), par, "", res)) == Parsed(res, s)
    ensures Run(Config(PairEnd, sp + ([','] + s), par, "", res)) == Parsed(res, s)
  {
    var t := [','] + s;
    assert [] + t == t;
    StepComma(Config(Element, sp + t, par, "", res), sp, s);
    StepComma(Config(PairEnd, sp + t, par, "", res), sp, s);
    StepComma(Config(Element, t, par, "", res), [], s);
  }

  lemma {:induction false} RunTail(sp: string, t: Tail, par: string, res: map<string, string>)
    requires AllSpaces(sp) && (t.Semicolon? ==> AllSpaces(t.spaces))
    ensures Run(Config(PairEnd, sp + RenderTail(t), par, "", res)) == Parsed(res, TailRest(t))
  {
    match t
    case End => assert sp + [] == sp; RunBlank(Config(PairEnd, sp, par, "", res));
    case Semicolon(s) => RunSeparator(sp, s, par, res); RunBlank(Config(Parameter, s, par, "", res));
    case Comma(s) => RunComma(sp, s, par, res);
  }

  lemma {:induction false} RunPairs(ps: seq<Pair>, t: Tail, par: string, res: map<string, string>)
    requires ps != [] && ValidPairs(ps, t) && Accepts(ps, res)
    ensures Run(Config(Parameter, RenderPairs(ps, t), par, "", res)) == Parsed(BindAll(ps, res), TailRest(t))
    decreases |ps|
  {
    var p, key, bound := ps[0], Lower(ps[0].key), Bind(ps[0], res);
    if |ps| == 1 {
      RunPair(p, RenderTail(t), par, res);
      RunTail(p.trail, t, key, bound);
      assert BindAll(ps[1..], bound) == bound;
    } else {
      var rest := RenderPairs(ps[1..], t);
      RunPair(p, [';'] + rest, par, res);
      RunSeparator(p.trail, rest, key, bound);
      RunPairs(ps[1..], t, key, bound);
    }
  }

  lemma {:induction false} StepWord(lead: string, body: string)
    requires AllSpaces(lead) && body != [] && IsToken(body[0]) && !IsSpace(body[0])
    ensures Step(Config(Element, lead + body, "", "", map[])) == Next(Config(Parameter, body, "", "", map[]))
  {
    SkipTo(Config(Element, lead + body, "", "", map[]), lead, body);
  }

  /** White space before the first parameter does not matter. */
  lemma {:induction false} RunWord(lead: string, key: string, s: string)
    requires AllSpaces(lead) && IsWord(key) && (s != [] ==> !IsToken(s[0]))
    ensures Parse(lead + (key + s)) == Run(Config(Parameter, lead + (key + s), "", "", map[]))
  {
    var body := key + s;
    var e := Config(KeyValueDelimiter, s, Lower(key), "", map[]);
    assert body[0] == key[0] && [] + body == body;
    StepWord(lead, body);
    RunStep(Config(Element, lead + body, "", "", map[]), Config(Parameter, body, "", "", map[]));
    RunParameter(Config(Parameter, body, "", "", map[]), e, [], key, s);
    RunParameter(Config(Parameter, lead + body, "", "", map[]), e, lead, key, s);
  }

  lemma {:induction false} RunElement(ps: seq<Pair>, t: Tail)
    requires ps != [] && ValidPairs(ps, t)
    ensures Parse(RenderPairs(ps, t)) == Run(Config(Parameter, RenderPairs(ps, t), "", "", map[]))
  {
    var p := ps[0];
    var after := if |ps| == 1 then RenderTail(t) else [';'] + RenderPairs(ps[1..], t);
    var s := p.beforeEq + (['='] + (p.afterEq + RenderValue(p.value, p.trail + after)));
    assert s[0] == if p.beforeEq != [] then p.beforeEq[0] else '=';
    RunWord(p.lead, p.key, s);
  }

  /** The parser gives every text of the grammar its meaning. */
  lemma {:induction false} ParseRendered(t: Text)
    requires ValidText(t)
    ensures Parse(Render(t)) == Meaning(t)
  {
    match t
    case Blank(sp) => RunBlank(Config(Element, sp, "", "", map[]));
    case EmptyElement(sp, rest) => RunComma(sp, rest, "", map[]);
    case Pairs(ps, tail) => RunElement(ps, tail); RunPairs(ps, tail, "", map[]);
  }

  // ---- every text that parses is a text of the grammar ----

  /** The white space in front of a text, and the text without it. */
  lemma {:induction false} CutSpaces(s: string) returns (sp: string, t: string)
    ensures s == sp + t && AllSpaces(sp) && (t != [] ==> !IsSpace(t[0]))
    ensures |sp| == SpaceRun(s) && t == s[SpaceRun(s)..]
  {
    sp, t := s[..SpaceRun(s)], s[SpaceRun(s)..];
  }

  lemma {:induction false} CutToken(s: string) returns (t: string, rest: string)
    ensures s == t + rest && AllToken(t) && (rest != [] ==> !IsToken(rest[0]))
    ensures |t| == TokenRun(s) && t == s[..TokenRun(s)] && rest == s[TokenRun(s)..]
  {
    t, rest := s[..TokenRun(s)], s[TokenRun(s)..];
  }

  /** The turn does not fail. */
  predicate StepOk(c: Config) {
    Step(c).Next? || Step(c).outcome.Parsed?
  }

  lemma {:induction false} ParsedStep(c: Config)
    requires Run(c).Parsed?
    ensures StepOk(c)
  { }

  lemma {:induction false} SplitParameter(c: Config) returns (lead: string, key: string, rest: string)
    requires c.state == Parameter && StepOk(c) && !AllSpaces(c.parse)
    ensures c.parse == lead + (key + rest) && AllSpaces(lead) && IsWord(key) && (rest != [] ==> !IsToken(rest[0]))
  {
    var t;
    lead, t := CutSpaces(c.parse);
    key, rest := CutToken(t);
    assert Skipped(c) == t;
    assert t == [] ==> c.parse == lead;
    assert Step(c) == StepParameter(c, t);
  }

  lemma {:induction false} EqualsNeeded(c: Config, t: string)
    requires c.state == KeyValueDelimiter && StepOk(c) && t == c.parse[SpaceRun(c.parse)..]
    ensures t != [] && t[0] == '='
  { }

  lemma {:induction false} SplitEquals(c: Config) returns (sp: string, rest: string)
    requires c.state == KeyValueDelimiter && StepOk(c)
    ensures c.parse == sp + (['='] + rest) && AllSpaces(sp)
  {
    var t;
    sp, t := CutSpaces(c.parse);
    EqualsNeeded(c, t);
    rest := t[1..];
    assert t == ['='] + rest;
  }

  lemma {:induction false} SplitValue(c: Config) returns (sp: string, quoted: bool, token: string, rest: string)
    requires c.state == Value && StepOk(c)
    ensures AllSpaces(sp)
    ensures quoted ==> c.parse == sp + (['"'] + rest)
    ensures !quoted ==>
      c.parse == sp + (token + rest) && IsWord(token) && (rest != [] ==> !IsToken(rest[0])) && c.parameter !in c.res
  {
    var t;
    sp, t := CutSpaces(c.parse);
    assert Skipped(c) == t;
    assert Step(c) == StepValue(c, t);
    if t[0] == '"' {
      quoted, token, rest := true, [], t[1..];
      assert t == ['"'] + rest;
    } else {
      quoted := false;
      token, rest := CutToken(t);
    }
  }

  /** Inside quotes a turn that does not fail finds a closing quote or a backslash. */
  lemma {:induction false} SplitQuoted(c: Config)
    requires c.state == QuotedValue && StepOk(c)
    ensures c.parse != []
    ensures c.parse[0] != '"' && c.parse[0] != '\\' ==> |c.parse| >= 2
    ensures c.parse[0] == '\\' ==> Step(c) == Next(c.(state := EscapedCharacter, parse := c.parse[1..]))
  { }

  lemma {:induction false} SplitEscaped(c: Config)
    requires c.state == EscapedCharacter && StepOk(c)
    ensures c.parse != [] && IsEscapable(c.parse[0])
  { }

  lemma {:induction false} StepBackslash(a: Config, b: Config, s: string)
    requires a.state == QuotedValue && a.parse == ['\\'] + s && b == a.(state := EscapedCharacter, parse := s)
    ensures Step(a) == Next(b)
  { }

  lemma {:induction false} EscapeOk(s: string, par: string, v: string, res: map<string, string>)
    requires Run(Config(QuotedValue, ['\\'] + s, par, v, res)).Parsed?
    ensures s != [] && IsEscapable(s[0])
  {
    var a, b := Config(QuotedValue, ['\\'] + s, par, v, res), Config(EscapedCharacter, s, par, v, res);
    StepBackslash(a, b, s);
    RunStep(a, b);
    ParsedStep(b);
    SplitEscaped(b);
  }

  lemma {:induction false} NextEscaped(s: string, par: string, v: string, res: map<string, string>)
    requires Run(Config(QuotedValue, s, par, v, res)).Parsed? && s != [] && s[0] == '\\'
    ensures |s| >= 2 && IsEscapable(s[1]) && Run(Config(QuotedValue, s[2..], par, v + [s[1]], res)).Parsed?
  {
    assert s == ['\\'] + s[1..];
    EscapeOk(s[1..], par, v, res);
    var c, rest := s[1], s[2..];
    EscapeText(s, c, rest);
    RunEscape(c, rest, par, v, res);
  }

  lemma {:induction false} EscapeText(s: string, c: char, rest: string)
    requires |s| >= 2 && s[0] == '\\' && c == s[1] && rest == s[2..]
    ensures s == ['\\'] + ([c] + rest)
  { }

  lemma {:induction false} NextPlain(s: string, par: string, v: string, res: map<string, string>)
    requires Run(Config(QuotedValue, s, par, v, res)).Parsed? && |s| >= 2 && IsPlain(s[0])
    ensures Run(Config(QuotedValue, s[1..], par, v + [s[0]], res)).Parsed?
  {
    assert s == [s[0]] + s[1..];
    RunPlain(s[0], s[1..], par, v, res);
  }

  /** The characters of a quoted value that is read successfully, up to its closing quote. */
  lemma {:induction false} DeriveQuoted(s: string, par: string, v: string, res: map<string, string>)
      returns (cs: seq<QuotedChar>, after: string)
    requires Run(Config(QuotedValue, s, par, v, res)).Parsed?
    ensures ValidQuoted(cs) && s == RenderQuoted(cs, after)
    decreases |s|
  {
    ParsedStep(Config(QuotedValue, s, par, v, res));
    SplitQuoted(Config(QuotedValue, s, par, v, res));
    var c: QuotedChar;
    var rest: string;
    if s[0] == '"' {
      assert s == ['"'] + s[1..];
      return [], s[1..];
    } else if s[0] == '\\' {
      NextEscaped(s, par, v, res);
      c, rest := Escaped(s[1]), s[2..];
      cs, after := DeriveQuoted(rest, par, v + [s[1]], res);
    } else {
      NextPlain(s, par, v, res);
      c, rest := Plain(s[0]), s[1..];
      cs, after := DeriveQuoted(rest, par, v + [s[0]], res);
    }
    QuotedCons(s, c, cs, after);
    cs := [c] + cs;
  }

  lemma {:induction false} QuotedCons(s: string, c: QuotedChar, cs: seq<QuotedChar>, after: string)
    requires ValidQuoted(cs) && if c.Plain? then IsPlain(c.c) else IsEscapable(c.c)
    requires |s| >= 2 && if c.Plain? then c.c == s[0] && s[1..] == RenderQuoted(cs, after)
                         else s[0] == '\\' && s[1] == c.c && s[2..] == RenderQuoted(cs, after)
    ensures ValidQuoted([c] + cs) && s == RenderQuoted([c] + cs, after)
  { }

  /** A value read successfully, its white space, and the text after it. */
  lemma {:induction false} DeriveValue(s: string, par: string, res: map<string, string>)
      returns (sp: string, v: FieldValue, rest: string)
    requires Run(Config(Value, s, par, "", res)).Parsed?
    ensures AllSpaces(sp) && s == sp + RenderValue(v, rest)
    ensures if v.Token? then IsWord(v.text) && (rest != [] ==>
      !IsToken(rest[0])) && par !in res else ValidQuoted(v.chars)
    ensures Run(Config(Value, s, par, "", res)) == Run(Config(PairEnd, rest, par, "", res[par := ValueText(v)]))
  {
    ParsedStep(Config(Value, s, par, "", res));
    var quoted, token;
    sp, quoted, token, rest := SplitValue(Config(Value, s, par, "", res));
    if quoted {
      RunOpenQuote(sp, rest, par, res);
      var cs, after := DeriveQuoted(rest, par, "", res);
      RunQuoted(cs, after, par, "", res);
      assert "" + Unquoted(cs) == Unquoted(cs);
      v, rest := Quoted(cs), after;
    } else {
      RunToken(sp, token, rest, par, res);
      v := Token(token);
    }
  }

  lemma {:induction false} DeriveKey(s: string, par: string, res: map<string, string>)
      returns (lead: string, key: string, sp: string, rest: string)
    requires Run(Config(Parameter, s, par, "", res)).Parsed? && !AllSpaces(s)
    ensures s == lead + (key + (sp + (['='] + rest))) && AllSpaces(lead) && IsWord(key) && IsGap(sp)
    ensures Run(Config(Parameter, s, par, "", res)) == Run(Config(Value, rest, Lower(key), "", res))
  {
    ParsedStep(Config(Parameter, s, par, "", res));
    var s1;
    lead, key, s1 := SplitParameter(Config(Parameter, s, par, "", res));
    RunParameter(Config(Parameter, s, par, "", res), Config(KeyValueDelimiter, s1, Lower(key), "", res), lead, key, s1);
    ParsedStep(Config(KeyValueDelimiter, s1, Lower(key), "", res));
    sp, rest := SplitEquals(Config(KeyValueDelimiter, s1, Lower(key), "", res));
    RunEquals(sp, rest, Lower(key), res);
    assert sp != [] ==> s1[0] == sp[0];
  }

  /** The first pair of a text that parses: all but the white space after it is recovered. */
  lemma {:induction false} DerivePair(s: string, par: string, res: map<string, string>) returns (p: Pair, rest: string)
    requires Run(Config(Parameter, s, par, "", res)).Parsed? && !AllSpaces(s)
    ensures ValidPair(p) && p.trail == [] && s == RenderPair(p, rest) && |rest| < |s|
    ensures p.value.Token? ==> Lower(p.key) !in res && (rest != [] ==> !IsToken(rest[0]))
    ensures Run(Config(Parameter, s, par, "", res)) == Run(Config(PairEnd, rest, Lower(p.key), "", Bind(p, res)))
  {
    var lead, key, beforeEq, s2 := DeriveKey(s, par, res);
    var afterEq, v;
    afterEq, v, rest := DeriveValue(s2, Lower(key), res);
    p := Pair(lead, key, beforeEq, afterEq, v, []);
    PairText(p, rest);
  }

  lemma {:induction false} PairText(p: Pair, rest: string)
    requires p.trail == []
    ensures RenderPair(p, rest) == p.lead + (p.key + (p.beforeEq + (['='] + (p.afterEq + RenderValue(p.value, rest)))))
    ensures |rest| < |RenderPair(p, rest)|
  {
    assert [] + rest == rest;
    assert |RenderValue(p.value, rest)| >= |rest|;
  }

  lemma {:induction false} SplitPairEnd(c: Config) returns (sp: string, t: string)
    requires c.state == PairEnd && StepOk(c)
    ensures c.parse == sp + t && AllSpaces(sp) && IsBreak(t)
  {
    sp, t := CutSpaces(c.parse);
    assert Skipped(c) == t;
    assert t != [] ==> Step(c) == StepPairEnd(c, t);
  }

  /** Putting the white space found after a pair into the pair. */
  lemma {:induction false} AddTrail(p: Pair, sp: string, after: string)
    requires ValidPair(p) && p.trail == [] && AllSpaces(sp)
    requires p.value.Token? && sp + after != [] ==> !IsToken((sp + after)[0])
    ensures ValidPair(p.(trail := sp)) && RenderPair(p.(trail := sp), after) == RenderPair(p, sp + after)
  {
    assert [] + (sp + after) == sp + after;
    assert sp != [] ==> (sp + after)[0] == sp[0];
  }

  /** The first pair of a text that parses with the white space after it, and what follows. */
  lemma {:induction false} DeriveFirst(s: string, par: string, res: map<string, string>)
    returns (p: Pair, after: string)
    requires Run(Config(Parameter, s, par, "", res)).Parsed? && !AllSpaces(s)
    ensures ValidPair(p) && IsBreak(after) && s == RenderPair(p, after) && |after| < |s|
    ensures p.value.Token? ==> Lower(p.key) !in res
    ensures Run(Config(PairEnd, p.trail + after, Lower(p.key), "", Bind(p, res))).Parsed?
  {
    var q, rest := DerivePair(s, par, res);
    ParsedStep(Config(PairEnd, rest, Lower(q.key), "", Bind(q, res)));
    var sp;
    sp, after := SplitPairEnd(Config(PairEnd, rest, Lower(q.key), "", Bind(q, res)));
    AddTrail(q, sp, after);
    p := q.(trail := sp);
  }

  lemma {:induction false} LastPair(s: string, p: Pair, after: string, res: map<string, string>)
    returns (ps: seq<Pair>, t: Tail)
    requires ValidPair(p) && IsBreak(after) && s == RenderPair(p, after) && (p.value.Token? ==> Lower(p.key) !in res)
    requires after != [] && after[0] == ';' ==> AllSpaces(after[1..])
    ensures ps == [p] && ValidPairs(ps, t) && Accepts(ps, res) && s == RenderPairs(ps, t)
  {
    ps := [p];
    t := if after == [] then End else if after[0] == ';' then Semicolon(after[1..]) else Comma(after[1..]);
    assert after != [] ==> after == [after[0]] + after[1..];
  }

  lemma {:induction false} AfterSeparator(p: Pair, after: string, res: map<string, string>)
    requires AllSpaces(p.trail) && after != [] && after[0] == ';'
    requires Run(Config(PairEnd, p.trail + after, Lower(p.key), "", Bind(p, res))).Parsed?
    ensures Run(Config(Parameter, after[1..], Lower(p.key), "", Bind(p, res))).Parsed? && after == [';'] + after[1..]
  {
    assert after == [';'] + after[1..];
    RunSeparator(p.trail, after[1..], Lower(p.key), Bind(p, res));
  }

  /** The pairs and the tail of a text that parses. */
  lemma {:induction false} DerivePairs(s: string, par: string, res: map<string, string>)
    returns (ps: seq<Pair>, t: Tail)
    requires Run(Config(Parameter, s, par, "", res)).Parsed? && !AllSpaces(s)
    ensures ps != [] && ValidPairs(ps, t) && Accepts(ps, res) && s == RenderPairs(ps, t)
    decreases |s|
  {
    var p, after := DeriveFirst(s, par, res);
    if after != [] && after[0] == ';' && !AllSpaces(after[1..]) {
      AfterSeparator(p, after, res);
      var qs;
      qs, t := DerivePairs(after[1..], Lower(p.key), Bind(p, res));
      ps := PairsCons(s, p, qs, t, res);
    } else {
      ps, t := LastPair(s, p, after, res);
    }
  }

  lemma {:induction false} PairsCons(s: string, p: Pair, ps: seq<Pair>, t: Tail, res: map<string, string>)
    returns (qs: seq<Pair>)
    requires ps != [] && ValidPairs(ps, t) && ValidPair(p) && s == RenderPair(p, [';'] + RenderPairs(ps, t))
    requires (p.value.Token? ==> Lower(p.key) !in res) && Accepts(ps, Bind(p, res))
    ensures qs == [p] + ps && ValidPairs(qs, t) && Accepts(qs, res) && s == RenderPairs(qs, t)
  {
    qs := [p] + ps;
    assert qs[1..] == ps;
  }

  /** After the white space, an element that is neither empty nor closed starts with a parameter. */
  lemma {:induction false} DeriveBody(s: string, sp: string, body: string)
    requires s == sp + body && AllSpaces(sp) && body != [] && !IsSpace(body[0]) && body[0] != ','
    ensures Parse(s) == Run(Config(Parameter, body, "", "", map[]))
  {
    var c, d := Config(Element, s, "", "", map[]), Config(Parameter, body, "", "", map[]);
    SkipTo(c, sp, body);
    assert Step(c) == StepElement(c, body);
    RunStep(c, d);
  }

  /** The text of the grammar behind a successful parse. */
  lemma {:induction false} DeriveText(s: string) returns (t: Text)
    requires Parse(s).Parsed?
    ensures ValidText(t) && Render(t) == s
  {
    var sp, body := CutSpaces(s);
    if body == [] || body[0] == ',' {
      t := DeriveEmpty(s, sp, body);
    } else {
      DeriveBody(s, sp, body);
      var ps, tail := DerivePairs(body, "", map[]);
      t := LeadText(sp, ps, tail);
    }
  }

  lemma {:induction false} DeriveEmpty(s: string, sp: string, body: string) returns (t: Text)
    requires s == sp + body && AllSpaces(sp) && (body == [] || body[0] == ',')
    ensures ValidText(t) && Render(t) == s
  {
    if body == [] {
      assert s == sp;
      return Blank(s);
    }
    assert body == [','] + body[1..];
    return EmptyElement(sp, body[1..]);
  }

  /** Moving the white space in front of a text of pairs into its first pair. */
  lemma {:induction false} LeadText(sp: string, ps: seq<Pair>, tail: Tail) returns (t: Text)
    requires AllSpaces(sp) && ps != [] && ValidPairs(ps, tail) && Accepts(ps, map[])
    ensures ValidText(t) && Render(t) == sp + RenderPairs(ps, tail)
  {
    var p := ps[0].(lead := sp + ps[0].lead);
    var qs := [p] + ps[1..];
    assert qs[1..] == ps[1..];
    LeadPair(sp, ps[0], if |ps| == 1 then RenderTail(tail) else [';'] + RenderPairs(ps[1..], tail));
    t := Pairs(qs, tail);
  }

  lemma {:induction false} LeadPair(sp: string, p: Pair, after: string)
    requires AllSpaces(sp) && ValidPair(p)
    ensures var q := p.(lead := sp + p.lead);
            ValidPair(q) && Bind(q, map[]) == Bind(p, map[]) && RenderPair(q, after) == sp + RenderPair(p, after)
  { }

  /**
   The parser accepts exactly the texts of the grammar, and whichever way a
   text is derived, its outcome is the meaning of that derivation.
   */
  lemma {:induction false} ParseExactly(s: string)
    ensures Parse(s).Parsed? <==> exists t :: ValidText(t) && Render(t) == s
    ensures forall t :: ValidText(t) && Render(t) == s ==> Parse(s) == Meaning(t)
  {
    forall t | ValidText(t) && Render(t) == s ensures Parse(s) == Meaning(t) && Parse(s).Parsed? { ParseRendered(t); }
    if Parse(s).Parsed? {
      var t := DeriveText(s);
    }
  }

  // ---- repeated parameters ----

  lemma {:induction false} StepDuplicate(c: Config, sp: string, t: string, s: string)
    requires AllSpaces(sp) && IsWord(t) && (s != [] ==> !IsToken(s[0]))
    requires c.state == Value && c.parse == sp + (t + s) && c.parameter in c.res
    ensures Step(c) == Done(Failed(DuplicateParameter, t + s))
  {
    assert (t + s)[0] == t[0];
    SkipTo(c, sp, t + s);
    TakeToken(t, s);
  }

  lemma {:induction false} RunDuplicate(p: Pair, after: string, par: string, res: map<string, string>)
    requires ValidPair(p) && IsBreak(after) && p.value.Token? && Lower(p.key) in res
    ensures Run(Config(Parameter, RenderPair(p, after), par, "", res)) ==
      Failed(DuplicateParameter, p.value.text + (p.trail + after))
  {
    var s := p.trail + after;
    assert s != [] ==> s[0] == if p.trail != [] then p.trail[0] else after[0];
    RunToValue(p, after, par, res);
    StepDuplicate(Config(Value, p.afterEq + (p.value.text + s), Lower(p.key), "", res), p.afterEq, p.value.text, s);
  }

  lemma {:induction false} RunPairsRefused(ps: seq<Pair>, t: Tail, par: string, res: map<string, string>)
    requires ps != [] && ValidPairs(ps, t) && !Accepts(ps, res)
    ensures var o := Run(Config(Parameter, RenderPairs(ps, t), par, "", res));
      o.Failed? && o.reason == DuplicateParameter
    decreases |ps|
  {
    var p, key, bound := ps[0], Lower(ps[0].key), Bind(ps[0], res);
    var after := if |ps| == 1 then RenderTail(t) else [';'] + RenderPairs(ps[1..], t);
    if p.value.Token? && key in res {
      RunDuplicate(p, after, par, res);
    } else {
      assert |ps| > 1;
      RunPair(p, after, par, res);
      RunSeparator(p.trail, RenderPairs(ps[1..], t), key, bound);
      RunPairsRefused(ps[1..], t, key, bound);
    }
  }

  /** No unquoted value is given for a parameter that occurred before. */
  ghost predicate NoTokenRepeats(ps: seq<Pair>) {
    forall i, j :: 0 <= j < i < |ps| && ps[i].value.Token? ==> Lower(ps[j].key) != Lower(ps[i].key)
  }

  lemma {:induction false} AcceptsIff(ps: seq<Pair>, res: map<string, string>)
    ensures Accepts(ps, res) <==> NoTokenRepeats(ps) && forall i :: 0 <= i < |ps| && ps[i].value.Token? ==>
      Lower(ps[i].key) !in res
    decreases |ps|
  {
    if ps != [] {
      var rest := ps[1..];
      AcceptsIff(rest, Bind(ps[0], res));
      assert forall i :: 0 < i < |ps| ==> ps[i] == rest[i - 1];
      if NoTokenRepeats(rest) && forall i :: 0 < i < |ps| && ps[i].value.Token? ==>
          Lower(ps[0].key) != Lower(ps[i].key) {
        forall i, j | 0 <= j < i < |ps| && ps[i].value.Token? ensures Lower(ps[j].key) != Lower(ps[i].key) {
          if j > 0 { assert rest[i - 1] == ps[i] && rest[j - 1] == ps[j]; }
        }
      }
    }
  }

  /**
   A list of well-formed pairs is refused exactly when an unquoted value repeats a parameter,
   and then for that reason; repetition with a quoted value goes unnoticed.
   */
  lemma {:induction false} RefusedIffTokenRepeats(ps: seq<Pair>, t: Tail)
    requires ps != [] && ValidPairs(ps, t)
    ensures Parse(RenderPairs(ps, t)).Parsed? <==> NoTokenRepeats(ps)
    ensures Parse(RenderPairs(ps, t)).Failed? ==> Parse(RenderPairs(ps, t)).reason == DuplicateParameter
  {
    AcceptsIff(ps, map[]);
    RunElement(ps, t);
    if Accepts(ps, map[]) { RunPairs(ps, t, "", map[]); } else { RunPairsRefused(ps, t, "", map[]); }
  }

  lemma {:induction false} BindOne(q: Pair, res: map<string, string>)
    ensures BindAll([q], res) == Bind(q, res)
    ensures Accepts([q], res) <==> (q.value.Token? ==> Lower(q.key) !in res)
  {
    var qs := [q];
    assert qs[1..] == [];
    assert BindAll(qs[1..], Bind(q, res)) == Bind(q, res);
  }

  lemma {:induction false} BindBoth(ps: seq<Pair>, p: Pair, q: Pair)
    requires ps == [p, q] && Lower(p.key) == Lower(q.key) && q.value.Quoted?
    ensures Accepts(ps, map[]) && BindAll(ps, map[]) == map[Lower(q.key) := ValueText(q.value)]
  {
    BindOne(q, Bind(p, map[]));
    assert ps[1..] == [q];
    assert Bind(q, Bind(p, map[])) == map[Lower(q.key) := ValueText(q.value)];
  }

  /** A quoted value replaces the value of the same parameter before it. */
  lemma {:induction false} RepeatedQuotedReplaces(p: Pair, q: Pair)
    requires ValidPair(p) && ValidPair(q) && Lower(p.key) == Lower(q.key) && q.value.Quoted?
    ensures Parse(RenderPairs([p, q], End)) == Parsed(map[Lower(q.key) := ValueText(q.value)], [])
  {
    var ps := [p, q];
    BindBoth(ps, p, q);
    RunElement(ps, End);
    RunPairs(ps, End, "", map[]);
  }

  lemma {:induction false} RepeatedTokenRefused(p: Pair, q: Pair)
    requires ValidPair(p) && ValidPair(q) && Lower(p.key) == Lower(q.key) && q.value.Token?
    ensures var o := Parse(RenderPairs([p, q], End)); o.Failed? && o.reason == DuplicateParameter
  {
    var ps := [p, q];
    assert ps[0] == p && ps[1] == q;
    RefusedIffTokenRepeats(ps, End);
  }

  /** A pair written without white space. */
  function TightPair(key: string, value: FieldValue): Pair {
    Pair([], key, [], [], value, [])
  }

  lemma {:induction false} TightText(key: string, v: FieldValue, w: FieldValue)
    ensures RenderPairs([TightPair(key, v), TightPair(key, w)], End)
         == key + (['='] + RenderValue(v, [';'] + (key + (['='] + RenderValue(w, [])))))
  {
    var p, q := TightPair(key, v), TightPair(key, w);
    TightOne(key, w, []);
    TightOne(key, v, [';'] + RenderPair(q, []));
    assert [p, q][1..] == [q];
    assert RenderPairs([q], End) == RenderPair(q, []);
  }

  lemma {:induction false} TightOne(key: string, v: FieldValue, after: string)
    ensures RenderPair(TightPair(key, v), after) == key + (['='] + RenderValue(v, after))
  {
    var none: string := [];
    assert none + after == after;
    var s := RenderValue(v, after);
    assert none + s == s && none + (['='] + s) == ['='] + s && none + (key + (['='] + s)) == key + (['='] + s);
  }

  lemma {:induction false} WordOf(c: char)
    requires IsToken(c) && !IsSpace(c)
    ensures IsWord([c]) && Lower([c]) == [LowerChar(c)]
  {
    var s := [c];
    assert s[0] == c && s[1..] == [];
    assert Lower(s[1..]) == [];
  }

  lemma {:induction false} QuotedOne(w: char)
    requires IsPlain(w)
    ensures ValidQuoted([Plain(w)]) && Unquoted([Plain(w)]) == [w] && RenderQuoted([Plain(w)], []) == [w, '"']
  {
    var cs := [Plain(w)];
    assert cs[0] == Plain(w) && cs[1..] == [];
    assert Unquoted(cs[1..]) == [] && RenderQuoted(cs[1..], []) == ['"'];
  }

  /** For example, of `k=v;k="w"` the second value is kept. */
  lemma {:induction false} RepeatedExample(k: char, v: char, w: char)
    requires IsToken(k) && !IsSpace(k) && IsToken(v) && !IsSpace(v) && IsPlain(w)
    ensures Parse([k, '=', v, ';', k, '=', '"', w, '"']) == Parsed(map[[LowerChar(k)] := [w]], [])
  {
    var p, q := TightPair([k], Token([v])), TightPair([k], Quoted([Plain(w)]));
    WordOf(k);
    WordOf(v);
    QuotedOne(w);
    TightText([k], p.value, q.value);
    ExampleText(k, v, w);
    RepeatedQuotedReplaces(p, q);
  }

  lemma {:induction false} ExampleText(k: char, v: char, w: char)
    ensures [k] + (['='] + ([v] + ([';'] + ([k] + (['='] + (['"'] + [w, '"'])))))) ==
      [k, '=', v, ';', k, '=', '"', w, '"']
  { }

  // ---- printing and parsing back ----

  /** A value in quotes, every backslash and quote escaped. */
  function Quote(v: string): seq<QuotedChar> {
    if v == [] then [] else [if IsPlain(v[0]) then Plain(v[0]) else Escaped(v[0])] + Quote(v[1..])
  }

  lemma {:induction false} QuoteUnquote(v: string)
    ensures ValidQuoted(Quote(v)) && Unquoted(Quote(v)) == v
  {
    if v != [] {
      QuoteUnquote(v[1..]);
      var q := Quote(v);
      assert q[1..] == Quote(v[1..]);
      forall i | 0 <= i < |q| ensures if q[i].Plain? then IsPlain(q[i].c) else IsEscapable(q[i].c) {
        if i > 0 { assert q[i] == q[1..][i - 1]; }
      }
    }
  }

  datatype KeyValue = KeyValue(key: string, value: string)

  /** Prints `key="value"` pairs separated by semicolons, then `after`. */
  function Print(kvs: seq<KeyValue>, after: string): string {
    if kvs == [] then after
    else kvs[0].key + (['=', '"'] + RenderQuoted(Quote(kvs[0].value), if |kvs| == 1 then after
        else [';'] + Print(kvs[1..], after)))
  }

  function PrintedPairs(kvs: seq<KeyValue>): (ps: seq<Pair>)
    ensures |ps| == |kvs|
  {
    if kvs == [] then [] else [Pair([], kvs[0].key, [], [], Quoted(Quote(kvs[0].value)), [])] + PrintedPairs(kvs[1..])
  }

  /** Later pairs win; with distinct keys each key keeps its own value. */
  function LowerKeys(kvs: seq<KeyValue>, res: map<string, string>): map<string, string> {
    if kvs == [] then res else LowerKeys(kvs[1..], res[Lower(kvs[0].key) := kvs[0].value])
  }

  predicate PrintableKeys(kvs: seq<KeyValue>) {
    forall i :: 0 <= i < |kvs| ==> IsWord(kvs[i].key)
  }

  lemma {:induction false} PrintedIsRendered(kvs: seq<KeyValue>, t: Tail, res: map<string, string>)
    requires PrintableKeys(kvs) && !t.Semicolon?
    ensures ValidPairs(PrintedPairs(kvs), t) && Accepts(PrintedPairs(kvs), res)
    ensures RenderPairs(PrintedPairs(kvs), t) == Print(kvs, RenderTail(t))
    ensures BindAll(PrintedPairs(kvs), res) == LowerKeys(kvs, res)
    decreases |kvs|
  {
    if kvs != [] {
      var ps, p := PrintedPairs(kvs), PrintedPairs(kvs)[0];
      assert ps[1..] == PrintedPairs(kvs[1..]);
      QuoteUnquote(kvs[0].value);
      PrintedIsRendered(kvs[1..], t, Bind(p, res));
      PrintedPair(kvs[0], if |kvs| == 1 then RenderTail(t) else [';'] + Print(kvs[1..], RenderTail(t)));
    }
  }

  lemma {:induction false} PrintedPair(kv: KeyValue, after: string)
    requires IsWord(kv.key)
    ensures var p := Pair([], kv.key, [], [], Quoted(Quote(kv.value)), []);
      ValidPair(p) && RenderPair(p, after) == kv.key + (['=', '"'] + RenderQuoted(Quote(kv.value), after))
  {
    QuoteUnquote(kv.value);
    assert [] + after == after;
    var q := RenderQuoted(Quote(kv.value), after);
    assert ['='] + ([] + (['"'] + q)) == ['=', '"'] + q;
  }

  /** Printed pairs, ended by a comma or by the end of the header, parse back with lower-cased keys. */
  lemma {:induction false} PrintParse(kvs: seq<KeyValue>, t: Tail)
    requires PrintableKeys(kvs) && !t.Semicolon?
    ensures Parse(Print(kvs, RenderTail(t))) == Parsed(LowerKeys(kvs, map[]), TailRest(t))
  {
    if kvs == [] {
      assert [] + RenderTail(t) == RenderTail(t);
      if t.Comma? { ParseRendered(EmptyElement([], t.rest)); } else { ParseRendered(Blank([])); }
    } else {
      PrintedIsRendered(kvs, t, map[]);
      ParseRendered(Pairs(PrintedPairs(kvs), t));
    }
  }

  function KeySet(kvs: seq<KeyValue>): set<string> {
    if kvs == [] then {} else {Lower(kvs[0].key)} + KeySet(kvs[1..])
  }

  lemma {:induction false} LowerKeysFrame(kvs: seq<KeyValue>, res: map<string, string>, k: string)
    ensures LowerKeys(kvs, res).Keys == res.Keys + KeySet(kvs)
    ensures k in res && k !in KeySet(kvs) ==> LowerKeys(kvs, res)[k] == res[k]
  {
    if kvs != [] { LowerKeysFrame(kvs[1..], res[Lower(kvs[0].key) := kvs[0].value], k); }
  }

  /** With keys that differ whatever their case, the parsed map gives each key its own value. */
  lemma {:induction false} LowerKeysExact(kvs: seq<KeyValue>, res: map<string, string>, i: int)
    requires 0 <= i < |kvs| && Lower(kvs[i].key) !in KeySet(kvs[i + 1..])
    ensures LowerKeys(kvs, res).Keys == res.Keys + KeySet(kvs)
    ensures Lower(kvs[i].key) in LowerKeys(kvs, res) && LowerKeys(kvs, res)[Lower(kvs[i].key)] == kvs[i].value
    decreases i
  {
    var k, bound := Lower(kvs[i].key), res[Lower(kvs[0].key) := kvs[0].value];
    LowerKeysFrame(kvs, res, k);
    if i == 0 { LowerKeysFrame(kvs[1..], bound, k); }
    else {
      assert kvs[1..][i..] == kvs[i + 1..];
      LowerKeysExact(kvs[1..], bound, i - 1);
    }
  }

  /** The map holds exactly the pairs, under lower-cased keys. */
  ghost predicate Holds(m: map<string, string>, kvs: seq<KeyValue>) {
    && m.Keys == KeySet(kvs)
    && forall i :: 0 <= i < |kvs| ==> Lower(kvs[i].key) in m && m[Lower(kvs[i].key)] == kvs[i].value
  }

  lemma {:induction false} LowerKeysHolds(kvs: seq<KeyValue>)
    requires forall i, j :: 0 <= i < j < |kvs| ==> Lower(kvs[i].key) != Lower(kvs[j].key)
    ensures Holds(LowerKeys(kvs, map[]), kvs)
  {
    LowerKeysFrame(kvs, map[], "");
    var m := LowerKeys(kvs, map[]);
    forall i | 0 <= i < |kvs| ensures Lower(kvs[i].key) in m && m[Lower(kvs[i].key)] == kvs[i].value {
      NotLater(kvs, i);
      LowerKeysExact(kvs, map[], i);
    }
  }

  /** The round trip: distinct token keys with arbitrary values come back lower-cased with their values. */
  lemma {:induction false} RoundTrip(kvs: seq<KeyValue>, t: Tail)
    requires PrintableKeys(kvs) && !t.Semicolon?
    requires forall i, j :: 0 <= i < j < |kvs| ==> Lower(kvs[i].key) != Lower(kvs[j].key)
    ensures exists m :: Holds(m, kvs) && Parse(Print(kvs, RenderTail(t))) == Parsed(m, TailRest(t))
  {
    PrintParse(kvs, t);
    LowerKeysHolds(kvs);
  }

  lemma {:induction false} InKeySet(kvs: seq<KeyValue>, k: string) returns (i: int)
    requires k in KeySet(kvs)
    ensures 0 <= i < |kvs| && Lower(kvs[i].key) == k
  {
    if k == Lower(kvs[0].key) { i := 0; } else { i := InKeySet(kvs[1..], k); i := i + 1; }
  }

  lemma {:induction false} NotLater(kvs: seq<KeyValue>, i: int)
    requires 0 <= i < |kvs| && forall j :: i < j < |kvs| ==> Lower(kvs[i].key) != Lower(kvs[j].key)
    ensures Lower(kvs[i].key) !in KeySet(kvs[i + 1..])
  {
    var later := kvs[i + 1..];
    assert forall j :: 0 <= j < |later| ==> later[j] == kvs[i + 1 + j];
    if Lower(kvs[i].key) in KeySet(later) { var j := InKeySet(later, Lower(kvs[i].key)); }
  }
}
