/** A lazily connected, seekable reader over an HTTP resource. */
module HttpReader {
  import opened Text
  import opened Numerals
  import opened Seeking

  // ---- the pattern for Content-Range headers ----

  /** The three groups of the pattern: the two ends of the range and its total. */
  datatype Groups = Groups(start: string, end: string, total: string)

  function DigitRun(s: string): (n: nat)
    ensures n <= |s| && AllDigits(s[..n]) && (n < |s| ==> !IsDigit(s[n]))
  {
    if s == [] || !IsDigit(s[0]) then 0 else 1 + DigitRun(s[1..])
  }

  function BackslashRun(s: string): (n: nat)
    ensures n <= |s| && forall i :: 0 <= i < n ==> s[i] == '\\'
  {
    if s == [] || s[0] != '\\' then 0 else 1 + BackslashRun(s[1..])
  }

  /**
   The third group is meant to take digits or a star; what it takes are digits or, if there are none, any number of
   backslashes.
   */
  function Total(s: string): (t: string)
    ensures (t != [] && AllDigits(t)) || forall i :: 0 <= i < |t| ==> t[i] == '\\'
  {
    if DigitRun(s) > 0 then s[..DigitRun(s)] else s[..BackslashRun(s)]
  }

  /** Digits up to the mark, and what follows it. */
  function DigitsBefore(s: string, mark: char): Option<(string, string)> {
    var n := DigitRun(s);
    if n == 0 || n == |s| || s[n] != mark then None else Some((s[..n], s[n + 1..]))
  }

  const PREFIX := "bytes "

  function MatchAt(s: string): Option<Groups> {
    if !(PREFIX <= s) then None
    else
      var first := DigitsBefore(s[|PREFIX|..], '-');
      if first.None? then None
      else
        var second := DigitsBefore(first.value.1, '/');
        if second.None? then None else Some(Groups(first.value.0, second.value.0, Total(second.value.1)))
  }

  /** The groups of the first match; the pattern is not anchored. */
  function FindSubmatch(s: string): Option<Groups> {
    if MatchAt(s).Some? || s == [] then MatchAt(s) else FindSubmatch(s[1..])
  }

  lemma {:induction false} DigitsBeforeMark(d: string, mark: char, rest: string)
    requires d != [] && AllDigits(d) && !IsDigit(mark)
    ensures DigitsBefore(d + ([mark] + rest), mark) == Some((d, rest))
  {
    var s := d + ([mark] + rest);
    assert s[|d|] == mark && s[..|d|] == d && s[|d| + 1..] == rest;
    RunOfDigits(s, |d|);
  }

  lemma {:induction false} RunOfDigits(s: string, n: nat)
    requires n <= |s| && AllDigits(s[..n]) && (n < |s| ==> !IsDigit(s[n]))
    ensures DigitRun(s) == n
  { }

  /** A Content-Range header (section 4.2 of RFC 7233); an unknown total is sent as a star. */
  function ContentRange(start: nat, end: nat, total: Option<nat>): string {
    PREFIX + (Decimal(start) + (['-'] + (Decimal(end) + (['/'] + (if total.Some? then Decimal(total.value) else "*")))))
  }

  /** Every such header matches, but for a star the group of the total is empty. */
  lemma {:induction false} RangeMatches(start: nat, end: nat, total: Option<nat>)
    ensures FindSubmatch(ContentRange(start, end, total))
         == Some(Groups(Decimal(start), Decimal(end), if total.Some? then Decimal(total.value) else ""))
  {
    TotalOf(total);
    TextMatches(Decimal(start), Decimal(end), if total.Some? then Decimal(total.value) else "*");
  }

  lemma {:induction false} TextMatches(a: string, b: string, t: string)
    requires a != [] && b != [] && AllDigits(a) && AllDigits(b)
    ensures FindSubmatch(PREFIX + (a + (['-'] + (b + (['/'] + t))))) == Some(Groups(a, b, Total(t)))
  {
    var second := b + (['/'] + t);
    var first := a + (['-'] + second);
    DigitsBeforeMark(b, '/', t);
    DigitsBeforeMark(a, '-', second);
    PrefixCut(PREFIX, first);
    assert MatchAt(PREFIX + first) == Some(Groups(a, b, Total(t)));
  }

  lemma {:induction false} PrefixCut(prefix: string, rest: string)
    ensures prefix <= prefix + rest && (prefix + rest)[|prefix|..] == rest
  { }

  lemma {:induction false} TotalOf(total: Option<nat>)
    ensures if total.Some? then Total(Decimal(total.value)) == Decimal(total.value) else Total("*") == ""
  {
    if total.Some? {
      var d := Decimal(total.value);
      RunOfDigits(d, |d|);
    } else {
      RunOfDigits("*", 0);
    }
  }

  // ---- the server ----

  /** `contentRange` is empty when there is no such header, and `length` -1 when the content length is unknown. */
  datatype Response = Unreachable | Response(status: nat, contentRange: string, length: int, body: Bytes)

  /** A range and its total, as far as it is a number, describe the body within the content. */
  predicate Truthful(content: Bytes, g: Groups, body: Bytes) {
    var start, end := Number(g.start), Number(g.end);
    && 0 <= start <= end < |content| && body == content[start..end + 1]
    && (g.total != [] && AllDigits(g.total) ==> Number(g.total) == |content|)
  }

  /**
   A server that serves `content` and describes what it sends: a 206 answers a Range header and
   carries exactly the bytes its Content-Range names (sections 4.1 and 4.2 of RFC 7233), any other
   success carries the whole content. It may ignore ranges, send part of one, or fail.
   */
  predicate Honest(content: Bytes, from: nat, resp: Response) {
    resp.Response? ==>
      if resp.status == 206 then
        var g := FindSubmatch(resp.contentRange);
        from > 0 && (g.Some? ==> Truthful(content, g.value, resp.body))
      else if 200 <= resp.status <= 399 then
        resp.body == content && (resp.length == -1 || resp.length == |content|)
      else true
  }

  /** The answer to a request without a Range header (`from` zero) or for the bytes from `from` on. */
  type Server = nat -> Response

  ghost predicate HonestServer(content: Bytes, server: Server) {
    forall from: nat :: Honest(content, from, server(from))
  }

  /** A server that answers every satisfiable request in full. */
  ghost predicate Serves(content: Bytes, server: Server) {
    forall from: nat :: from == 0 || from < |content| ==> Accept(from, server(from)).Opened?
  }

  datatype Error =
    | Closed | ConnectionFailed | UnexpectedStatus | WrongCode | NoRange | UnparsableRange
    | WrongStart | UnparsableTotal | ShortRange | UnknownTotal | NegativeSeek | EndOfFile | Broken

  /** An open body and how much of it was consumed. */
  datatype Body = Body(data: Bytes, pos: nat)

  datatype Opened = Opened(data: Bytes, size: int) | Refused(error: Error)

  /** What the reader makes of a range that the pattern found; a star as total is provided for. */
  function AcceptRange(offset: int, g: Groups, body: Bytes): Opened {
    if Number(g.start) != offset then Refused(WrongStart)
    else if g.total == "*" then Opened(body, -1)
    else if g.total == [] || !AllDigits(g.total) then Refused(UnparsableTotal)
    else if Number(g.end) + 1 != Number(g.total) then Refused(ShortRange)
    else Opened(body, Number(g.total))
  }

  /** What the reader makes of the answer to a request at `offset`. */
  function Accept(offset: int, resp: Response): (o: Opened)
    ensures o.Refused? ==> o.error != EndOfFile && o.error != NegativeSeek && o.error != Closed
  {
    if resp.Unreachable? then Refused(ConnectionFailed)
    else if !(200 <= resp.status <= 399) then Refused(UnexpectedStatus)
    else if offset > 0 then
      if resp.status != 206 then Refused(WrongCode)
      else if resp.contentRange == [] then Refused(NoRange)
      else
        var g := FindSubmatch(resp.contentRange);
        if g.None? then Refused(UnparsableRange) else AcceptRange(offset, g.value, resp.body)
    else Opened(resp.body, if resp.status == 200 then resp.length else -1)
  }

  function AtLeastZero(offset: int): nat {
    if offset < 0 then 0 else offset
  }

  lemma {:induction false} TotalsFound(s: string)
    requires FindSubmatch(s).Some?
    ensures FindSubmatch(s).value.total != "*"
  {
    if MatchAt(s).None? { TotalsFound(s[1..]); }
  }

  /** An accepted body is the content from the requested offset to its end, whatever the server chose to send. */
  lemma AcceptedBody(content: Bytes, offset: int, resp: Response)
    requires Honest(content, AtLeastZero(offset), resp) && Accept(offset, resp).Opened?
    ensures AtLeastZero(offset) <= |content| && Accept(offset, resp).data == content[AtLeastZero(offset)..]
    ensures Accept(offset, resp).size == -1 || Accept(offset, resp).size == |content|
  {
    if offset > 0 { TotalsFound(resp.contentRange); }
  }

  /** The branch for an unknown total is never taken: whatever header is sent, an accepted range has a known size. */
  lemma RangesHaveTotals(offset: int, resp: Response)
    requires offset > 0 && Accept(offset, resp).Opened?
    ensures resp.Response? && FindSubmatch(resp.contentRange).Some?
    ensures Accept(offset, resp).size == Number(FindSubmatch(resp.contentRange).value.total)
  {
    TotalsFound(resp.contentRange);
  }

  /**
   A well-formed 206 that carries the rest of the content from the requested offset is accepted
   if and only if it names the total; with a star it is refused although its body is right.
   */
  lemma StarIsRefused(content: Bytes, offset: nat, total: Option<nat>, resp: Response)
    requires 0 < offset < |content| && resp.Response? && resp.status == 206 && Honest(content, offset, resp)
    requires resp.contentRange == ContentRange(offset, |content| - 1, total)
    ensures resp.body == content[offset..]
    ensures Accept(offset, resp).Opened? <==> total.Some?
    ensures total.None? ==> Accept(offset, resp) == Refused(UnparsableTotal)
  {
    RangeMatches(offset, |content| - 1, total);
    NumberOfDecimal(offset);
    NumberOfDecimal(|content| - 1);
    if total.Some? { NumberOfDecimal(total.value); }
    var g := Groups(Decimal(offset), Decimal(|content| - 1), if total.Some? then Decimal(total.value) else "");
    assert FindSubmatch(resp.contentRange) == Some(g) && resp.contentRange != [];
    assert Accept(offset, resp) == AcceptRange(offset, g, resp.body);
    AcceptGroups(content, offset, g, resp.body);
  }

  /** What becomes of a truthful range from the offset to the end. */
  lemma AcceptGroups(content: Bytes, offset: nat, g: Groups, body: Bytes)
    requires Truthful(content, g, body) && AllDigits(g.total)
    requires Number(g.start) == offset && Number(g.end) + 1 == |content|
    ensures body == content[offset..]
    ensures AcceptRange(offset, g, body) == if g.total == "" then Refused(UnparsableTotal) else Opened(body, |content|)
  { }

  /** For example, the second half of ten bytes, sent as bytes 5 to 9 of a star. */
  lemma StarExample(body: Bytes)
    ensures Accept(5, Response(206, ContentRange(5, 9, None), -1, body)) == Refused(UnparsableTotal)
  {
    RangeMatches(5, 9, None);
    NumberOfDecimal(5);
  }

  /** Two tails that agree go on agreeing after `k` bytes. */
  lemma SliceStep(a: Bytes, i: nat, b: Bytes, j: nat, k: nat)
    requires i <= |a| && j <= |b| && a[i..] == b[j..] && k <= |a| - i
    ensures |a| - i == |b| - j && a[i..i + k] == b[j..j + k] && a[i + k..] == b[j + k..]
  { }

  class HttpReadSeeker {
    ghost const content: Bytes
    var size: int
    var rc: Option<Body>
    var readerOffset: int
    var seekOffset: int
    var closed: bool

    constructor (ghost content: Bytes)
      ensures Valid() && this.content == content && seekOffset == 0 && !closed
    {
      this.content := content;
      size, rc, readerOffset, seekOffset, closed := 0, None, 0, 0, false;
    }

    /** An open body stands at the reader offset; the logical offset is the seek offset. */
    ghost predicate Valid()
      reads this
    {
      && seekOffset >= 0 && (closed ==> rc.None?)
      && (rc.Some? ==>
            && AtLeastZero(readerOffset) <= |content|
            && rc.value.pos <= |rc.value.data| && rc.value.data[rc.value.pos..] == content[AtLeastZero(readerOffset)..]
            && (size == -1 || size == |content|))
    }

    method Reset()
      requires Valid()
      modifies this`rc
      ensures Valid() && (if closed then rc == old(rc) else rc.None?)
    {
      if closed { return; }
      rc := None;
    }

    /** Connects at the reader offset unless a body is open. */
    method Reader(server: Server) returns (err: Option<Error>)
      requires Valid() && HonestServer(content, server)
      modifies this`rc, this`size
      ensures err.None? ==> Valid() && rc.Some? && !closed && (old(rc.Some?) ==> rc == old(rc) && size == old(size))
      ensures err.Some? ==> rc == old(rc) && size == old(size) && (closed || rc.None?)
      ensures err != Some(EndOfFile) && err != Some(NegativeSeek)
      ensures !closed && Serves(content, server) && AtLeastZero(readerOffset) < |content| ==> err.None?
    {
      if closed { return Some(Closed); }
      if rc.Some? { return None; }
      var from := AtLeastZero(readerOffset);
      var answer := Accept(readerOffset, server(from));
      assert readerOffset < 0 ==> Accept(readerOffset, server(from)) == Accept(from, server(from));
      if answer.Refused? { return Some(answer.error); }
      AcceptedBody(content, readerOffset, server(from));
      rc, size := Some(Body(answer.data, 0)), answer.size;
      return None;
    }

    /**
     Reads up to `n` bytes; the transport delivers up to `chunk` of them, then fails when `broken`,
     and reports the end together with the last bytes when `eager`. Whatever was sought or refused
     before, the bytes are those of the content at the logical offset, which moves by their number;
     a server that answers in full never fails.
     */
    method Read(n: nat, server: Server, chunk: nat, broken: bool, eager: bool) returns (data: Bytes, err: Option<Error>)
      requires Valid() && HonestServer(content, server)
      modifies this
      ensures Valid() && closed == old(closed) && |data| <= n
      ensures seekOffset == old(seekOffset) + |data|
      ensures data != [] ==> seekOffset <= |content| && data == content[old(seekOffset)..seekOffset]
      ensures err == Some(EndOfFile) ==> seekOffset == |content| && (data == [] || eager)
      ensures closed ==> err == Some(Closed) && data == []
      ensures !closed && !broken && n > 0 && chunk > 0 && Serves(content, server) && old(seekOffset) < |content| ==>
                data != [] && (err.None? || (err == Some(EndOfFile) && eager))
    {
      if closed { return [], Some(Closed); }
      if readerOffset != seekOffset { Reset(); }
      readerOffset := seekOffset;
      err := Reader(server);
      if err.Some? { return [], err; }
      var end;
      data, end := Take(n, chunk);
      err := if broken then Some(Broken) else if n > 0 && (end || (eager && AtEnd())) then Some(EndOfFile) else None;
    }

    /** Nothing is left of the open body. */
    predicate AtEnd()
      requires rc.Some?
      reads this
    {
      rc.value.pos >= |rc.value.data|
    }

    /** Takes up to `n` and `chunk` bytes from the open body; `end` tells that none were left. */
    method Take(n: nat, chunk: nat) returns (data: Bytes, end: bool)
      requires Valid() && rc.Some? && readerOffset == seekOffset
      modifies this`rc, this`seekOffset, this`readerOffset
      ensures Valid() && rc.Some? && |data| <= n && seekOffset == readerOffset == old(seekOffset) + |data| <= |content|
      ensures data == content[old(seekOffset)..seekOffset]
      ensures end <==> old(seekOffset) == |content|
      ensures !end && n > 0 && chunk > 0 ==> data != []
    {
      var body := rc.value;
      var left := |body.data| - body.pos;
      var k := if n < chunk then n else chunk;
      if left < k { k := left; }
      SliceStep(body.data, body.pos, content, seekOffset, k);
      data := body.data[body.pos..body.pos + k];
      rc := Some(Body(body.data, body.pos + k));
      seekOffset := seekOffset + k;
      readerOffset := readerOffset + k;
      end := left == 0;
    }

    /** Moves the logical offset and keeps an open connection; an error of any kind leaves the offset where it was. */
    method Seek(offset: int, whence: Whence, server: Server) returns (pos: int, err: Option<Error>)
      requires Valid() && HonestServer(content, server)
      modifies this
      ensures Valid() && closed == old(closed)
      ensures err.Some? ==> seekOffset == old(seekOffset)
      ensures err.None? ==> pos == seekOffset == Target(old(seekOffset), |content|, offset, whence) && seekOffset >= 0
      ensures err == Some(NegativeSeek) ==> Target(old(seekOffset), |content|, offset, whence) < 0
      ensures closed ==> err == Some(Closed)
      ensures old(rc.Some?) ==> rc == old(rc) && readerOffset == old(readerOffset)
    {
      if closed { return 0, Some(Closed); }
      var lastReaderOffset := readerOffset;
      if whence == FromStart && rc.None? { readerOffset := offset; }
      err := Reader(server);
      if err.Some? {
        readerOffset := lastReaderOffset;
        return 0, err;
      }
      var newOffset := seekOffset;
      match whence {
        case FromCurrent => newOffset := newOffset + offset;
        case FromEnd =>
          if size < 0 { return 0, Some(UnknownTotal); }
          newOffset := size + offset;
        case FromStart => newOffset := offset;
      }
      if newOffset < 0 { err := Some(NegativeSeek); }
      else { seekOffset := newOffset; }
      pos := seekOffset;
    }

    method Close() returns (err: Option<Error>)
      requires Valid()
      modifies this
      ensures Valid() && closed && seekOffset == old(seekOffset) && (err.Some? <==> old(closed))
    {
      if closed { return Some(Closed); }
      rc, closed := None, true;
      return None;
    }

    /**
     Any sequence of reads and seeks, against a server that may answer differently each time:
     every reply is that of reading the content at the logical offset.
     */
    method Replay(calls: seq<Call>, server: nat -> Server, chunk: nat -> nat, broken: nat -> bool, eager: nat -> bool)
      returns (replies: seq<Reply>, ghost ats: seq<nat>)
      requires Valid() && forall i: nat :: HonestServer(content, server(i))
      modifies this
      ensures Valid() && FaithfulRun(content, |content|, calls, replies, ats)
      ensures ats[0] == old(seekOffset) && ats[|calls|] == seekOffset
    {
      replies, ats := [], [seekOffset];
      var i := 0;
      while i < |calls|
        invariant 0 <= i <= |calls| && Valid() && FaithfulRun(content, |content|, calls[..i], replies, ats)
        invariant ats[0] == old(seekOffset) && ats[i] == seekOffset
      {
        ghost var before, done := replies, ats;
        var reply;
        match calls[i] {
          case ReadCall(n) =>
            var data, err := Read(n, server(i), chunk(i), broken(i), eager(i));
            reply := ReadReply(data, err.Some?);
          case SeekCall(delta, whence) =>
            var pos, err := Seek(delta, whence, server(i));
            reply := SeekReply(pos, err.Some?);
        }
        FaithfulStep(content, |content|, calls, i, before, done, reply, seekOffset);
        replies, ats := replies + [reply], ats + [seekOffset];
        i := i + 1;
      }
      assert calls[..|calls|] == calls;
    }
  }
}
