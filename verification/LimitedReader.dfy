/** Reading a whole stream, but no more than a limit. */
module LimitedReader {
  import opened Seeking

  datatype End = EndOfFile | Failed | LimitExceeded
  datatype Status = More | Ended(end: End)

  /** A stream: what is still to come, how it ends, and how it will be cut into reads. */
  class Source {
    var rest: Bytes
    const end: End
    var plan: seq<Cut>

    constructor (rest: Bytes, end: End, plan: seq<Cut>)
      requires end != LimitExceeded
      ensures this.rest == rest && this.end == end && this.plan == plan
    {
      this.rest, this.end, this.plan := rest, end, plan;
    }

    /** Any reader: it may deliver fewer bytes than asked for, none at all, or its end together with the last bytes. */
    method Read(n: nat) returns (data: Bytes, status: Status)
      requires n > 0
      modifies this
      ensures |data| <= n && old(rest) == data + rest
      ensures status.Ended? ==> rest == [] && status.end == end
      ensures plan == if old(plan) == [] then [] else old(plan)[1..]
      ensures old(plan) == [] && old(rest) == [] ==> status.Ended?
      ensures old(plan) == [] && old(rest) != [] ==> data != []
    {
      var most, eager := n, false;
      if plan != [] {
        if plan[0].bytes < n { most := plan[0].bytes; }
        eager := plan[0].eager;
        plan := plan[1..];
        if most == 0 && rest == [] && !eager { return [], More; }
      }
      var k := if most < |rest| then most else |rest|;
      data := rest[..k];
      ghost var before := rest;
      rest := rest[k..];
      assert before == data + rest;
      status := if rest == [] && (eager || k == 0) then Ended(end) else More;
    }
  }

  datatype Cut = Cut(bytes: nat, eager: bool)

  /** What a limited reader delivers of a stream, and how it then ends. */
  function Limited(content: Bytes, limit: nat, end: End): (Bytes, End) {
    if |content| <= limit then (content, end) else (content[..limit], LimitExceeded)
  }

  class Reader {
    const source: Source
    var left: nat
    var stopped: Status

    constructor (source: Source, limit: nat)
      ensures this.source == source && left == limit && stopped == More
    {
      this.source, left, stopped := source, limit, More;
    }

    /**
     Asks for one byte more than is left, so that reaching the limit and passing it can be told
     apart; once it has ended it stays ended.
     */
    method Read(n: nat) returns (data: Bytes, status: Status)
      modifies this, source
      ensures |data| <= n && status == stopped
      ensures old(stopped.Ended?) || n == 0 ==>
                data == [] && stopped == old(stopped) && left == old(left) && source.rest == old(source.rest) &&
                    source.plan == old(source.plan)
      ensures stopped.More? ==> left == old(left) - |data| && old(source.rest) == data + source.rest
      ensures old(stopped.More?) && stopped.Ended? ==>
        (data, stopped.end) == Limited(old(source.rest), old(left), source.end)
      ensures old(stopped.More?) && n > 0 ==>
        source.plan == if old(source.plan) == [] then [] else old(source.plan)[1..]
      ensures n > 0 && old(source.plan) == [] && stopped.More? ==> |source.rest| < |old(source.rest)|
    {
      if stopped.Ended? { return [], stopped; }
      if n == 0 { return [], More; }
      var ask := if n > left + 1 then left + 1 else n;
      data, status := source.Read(ask);
      if |data| <= left {
        left, stopped := left - |data|, status;
        if status.Ended? { assert data + [] == data; }
        return;
      }
      assert old(source.rest)[..left] == data[..left];
      data := data[..left];
      left, stopped := 0, Ended(LimitExceeded);
      status := stopped;
    }
  }

  datatype Result = Whole(data: Bytes) | Error(data: Bytes, end: End)

  /**
   The whole content if and only if it fits the limit and the stream ends well, however the stream
   is cut into reads and whatever buffer sizes are asked for.
   */
  method ReadAllLimited(source: Source, limit: nat, room: nat -> nat) returns (r: Result)
    requires source.end != LimitExceeded
    modifies source
    ensures r == var (data, end) := Limited(old(source.rest), limit, source.end);
                 if end == EndOfFile then Whole(data) else Error(data, end)
    ensures r.Whole? <==> |old(source.rest)| <= limit && source.end == EndOfFile
    ensures r.Whole? ==> r.data == old(source.rest)
  {
    var reader := new Reader(source, limit);
    var all: Bytes := [];
    ghost var content := source.rest;
    while reader.stopped.More?
      invariant reader.source == source && fresh(reader)
      invariant reader.stopped.More? ==> |all| <= limit && reader.left == limit - |all| && content == all + source.rest
      invariant reader.stopped.Ended? ==> (all, reader.stopped.end) == Limited(content, limit, source.end)
      decreases reader.stopped.More?, |source.plan|, |source.rest|
    {
      ghost var rest := source.rest;
      ghost var before := all;
      var data, status := reader.Read(room(|all|) + 1);
      all := all + data;
      LimitedStep(content, before, rest, limit, source.end);
      assert content == before + (data + source.rest) == before + data + source.rest || reader.stopped.Ended?;
    }
    return if reader.stopped.end == EndOfFile then Whole(all) else Error(all, reader.stopped.end);
  }

  /** Limiting the rest of a stream after `before` limits the stream. */
  lemma LimitedStep(content: Bytes, before: Bytes, rest: Bytes, limit: nat, end: End)
    requires content == before + rest && |before| <= limit
    ensures Limited(content, limit, end)
         == (before + Limited(rest, limit - |before|, end).0, Limited(rest, limit - |before|, end).1)
  {
    if |content| > limit { assert content[..limit] == before + rest[..limit - |before|]; }
  }
}
