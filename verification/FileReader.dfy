/** A buffered, seekable reader over a file of the storage driver that is opened on demand. */
module FileReader {
  import opened Text
  import opened Seeking

  datatype Error = Closed | DriverFailed | NegativeSeek | EndOfFile

  /** What opening the file does: it may be missing, or fail; otherwise it reads the content from an offset on. */
  datatype Access = Found | NotFound | Failing

  /**
   What one read from the driver yields: up to `bytes` bytes, then an error when it `fails`; the end
   may be reported together with the last bytes (`eager`).
   */
  datatype Feed = Feed(bytes: nat, fails: bool, eager: bool)

  const BUFFER_SIZE := 4194304

  function From(content: Bytes, offset: nat): Bytes {
    if offset <= |content| then content[offset..] else []
  }

  lemma FromStep(content: Bytes, offset: nat, k: nat)
    requires k <= |From(content, offset)|
    ensures From(content, offset)[k..] == From(content, offset + k)
    ensures k > 0 ==> offset + k <= |content| && From(content, offset)[..k] == content[offset..offset + k]
  { }

  lemma BufferStep(buffer: Bytes, rest: Bytes, all: Bytes, m: nat)
    requires buffer + rest == all && m <= |buffer|
    ensures buffer[..m] == all[..m] && buffer[m..] + rest == all[m..]
  { }

  lemma SplitAt(s: Bytes, k: nat)
    requires k <= |s|
    ensures s[..k] + s[k..] == s
  { }

  function Min(a: nat, b: nat): nat {
    if a < b then a else b
  }

  /**
   `content` is the file as the driver holds it, and `size` what it was said to be when the reader was
   made. An error that came with bytes is `pending` until these are read.
   */
  class FileReader {
    const content: Bytes
    const size: nat
    var rc: Option<Bytes>
    var buffer: Bytes
    var pending: bool
    var offset: nat
    var closed: bool

    constructor (content: Bytes, size: nat)
      ensures Valid() && this.content == content && this.size == size && offset == 0 && !closed
    {
      this.content, this.size := content, size;
      rc, buffer, pending, offset, closed := None, [], false, 0, false;
    }

    /** While the file is open, the buffer and what the driver has not delivered are the content at the offset. */
    ghost predicate Valid()
      reads this
    {
      (rc.Some? ==> buffer + rc.value == From(content, offset)) && (closed ==> rc.None?)
    }

    /** Closes the file; the buffer keeps its stale bytes until the file is opened again. */
    method Reset()
      requires Valid()
      modifies this`rc
      ensures Valid() && rc.None?
    {
      rc := None;
    }

    /** Opens the file at the offset and drops what the buffer held; a missing file is not remembered. */
    method Reader(access: Access) returns (open: bool, err: Option<Error>)
      requires Valid()
      modifies this`rc, this`buffer, this`pending
      ensures Valid() && (open ==> rc.Some? && err.None?) && (!open ==> rc == old(rc) && buffer == old(buffer))
      ensures open <==> !closed && (old(rc.Some?) || access.Found?)
      ensures if open && old(rc.None?) then !pending else pending == old(pending)
      ensures err == (if closed then Some(Closed) else if old(rc.None?) &&
        access.Failing? then Some(DriverFailed) else None)
    {
      if closed { return false, Some(Closed); }
      if rc.Some? { return true, None; }
      if access.NotFound? { return false, None; }
      if access.Failing? { return false, Some(DriverFailed); }
      rc, buffer, pending := Some(From(content, offset)), [], false;
      assert buffer + rc.value == rc.value;
      return true, None;
    }

    /** Reports and forgets a pending error. */
    method TakePending() returns (failed: bool)
      modifies this`pending
      ensures failed == old(pending) && !pending
    {
      failed, pending := pending, false;
    }

    /** Fills an empty buffer from the driver; `end` tells that nothing is left. */
    method Fill(feed: Feed) returns (end: bool, failed: bool)
      requires Valid() && rc.Some? && !pending
      modifies this`rc, this`buffer, this`pending
      ensures Valid() && rc.Some? && (end || failed ==> buffer == [])
      ensures (end ==> From(content, offset) == []) && (failed ==> feed.fails)
      ensures feed.bytes > 0 && From(content, offset) != [] ==> buffer != []
    {
      if buffer != [] { return false, false; }
      var rest := rc.value;
      assert buffer + rest == rest;
      var k := Min(feed.bytes, |rest|);
      if k == 0 { return !feed.fails && rest == [], feed.fails; }
      SplitAt(rest, k);
      buffer, rc, pending := rest[..k], Some(rest[k..]), feed.fails;
      return false, false;
    }

    /** A large read goes past the empty buffer, and then bytes and error come together. */
    method DirectRead(n: nat, feed: Feed) returns (data: Bytes, end: bool, failed: bool)
      requires Valid() && rc.Some? && buffer == []
      modifies this`rc, this`offset
      ensures Valid() && |data| <= n && offset == old(offset) + |data|
      ensures |data| <= |From(content, old(offset))| && data == From(content, old(offset))[..|data|]
      ensures (end ==> From(content, offset) == []) && (failed ==> feed.fails)
      ensures n > 0 && feed.bytes > 0 && From(content, old(offset)) != [] ==> data != []
    {
      assert rc.value == From(content, offset);
      var k := Min(n, Min(feed.bytes, |rc.value|));
      FromStep(content, offset, k);
      data, failed := rc.value[..k], feed.fails;
      end := !failed && (rc.value == [] || (feed.eager && k == |rc.value|));
      rc, offset := Some(rc.value[k..]), offset + k;
      assert buffer + rc.value == rc.value;
    }

    /** Reads from the buffer, which is filled from the driver when it is empty. */
    method BufferedRead(n: nat, feed: Feed) returns (data: Bytes, end: bool, failed: bool)
      requires Valid() && rc.Some?
      modifies this`rc, this`buffer, this`pending, this`offset
      ensures Valid() && |data| <= n && offset == old(offset) + |data|
      ensures |data| <= |From(content, old(offset))| && data == From(content, old(offset))[..|data|]
      ensures (end ==> From(content, offset) == []) && (failed ==> feed.fails || old(pending))
      ensures n > 0 && feed.bytes > 0 && !old(pending) && From(content, old(offset)) != [] ==> data != []
    {
      data, end, failed := [], false, false;
      if buffer == [] && pending {
        failed := TakePending();
        return;
      }
      if n == 0 { return; }
      if buffer == [] {
        if n >= BUFFER_SIZE {
          data, end, failed := DirectRead(n, feed);
          return;
        }
        end, failed := Fill(feed);
        if buffer == [] { return; }
      }
      data := TakeBuffered(n);
    }

    method TakeBuffered(n: nat) returns (data: Bytes)
      requires Valid() && rc.Some?
      modifies this`buffer, this`offset
      ensures Valid() && |data| == Min(n, |old(buffer)|) && offset == old(offset) + |data|
      ensures |data| <= |From(content, old(offset))| && data == From(content, old(offset))[..|data|]
    {
      var m := Min(n, |buffer|);
      BufferStep(buffer, rc.value, From(content, offset), m);
      FromStep(content, offset, m);
      data, buffer := buffer[..m], buffer[m..];
      offset := offset + m;
    }

    /**
     Reads up to `n` bytes of the content at the offset. End of file is reported at the end of the
     content or once the offset has reached the declared size, and for a file that is not there;
     an error only when opening or a read from the driver failed, now or earlier.
     */
    method Read(n: nat, access: Access, feed: Feed) returns (data: Bytes, err: Option<Error>)
      requires Valid()
      modifies this
      ensures Valid() && closed == old(closed) && |data| <= n && offset == old(offset) + |data|
      ensures data != [] ==> offset <= |content| && data == content[old(offset)..offset]
      ensures err == Some(EndOfFile) ==> 
        offset >= |content| || offset >= size || (old(rc.None?) && access.NotFound?)
      ensures
        (&& !closed && (old(rc.Some?) || access.Found?) && n > 0 && feed.bytes > 0
         && !old(pending) && old(offset) < |content|) ==> data != []
      ensures err.None? ==> offset < size
      ensures err == Some(Closed) <==> closed
      ensures !closed && old(rc.None?) && access.Failing? ==> err == Some(DriverFailed) && data == []
      ensures err == Some(DriverFailed) ==> (old(rc.None?) && access.Failing?) || feed.fails || old(pending)
    {
      if closed { return [], Some(Closed); }
      var open;
      open, err := Reader(access);
      if err.Some? { return [], err; }
      if !open { return [], Some(EndOfFile); }
      var end, failed;
      data, end, failed := BufferedRead(n, feed);
      FromStep(content, old(offset), |data|);
      err := if failed then Some(DriverFailed) else if end || offset >= size then Some(EndOfFile) else None;
    }

    /** Moves the offset, and drops the open file only when the offset changes. */
    method Seek(delta: int, whence: Whence) returns (pos: nat, err: Option<Error>)
      requires Valid()
      modifies this
      ensures Valid() && closed == old(closed)
      ensures err == if closed then Some(Closed) else if Target(old(offset), size, delta, whence) < 0
        then Some(NegativeSeek) else None
      ensures offset == if err.None? then Target(old(offset), size, delta, whence) else old(offset)
      ensures !closed ==> pos == offset
      ensures offset == old(offset) ==> rc == old(rc) && buffer == old(buffer)
    {
      if closed { return 0, Some(Closed); }
      var newOffset := Target(offset, size, delta, whence);
      if newOffset < 0 { return offset, Some(NegativeSeek); }
      if offset != newOffset { Reset(); }
      offset := newOffset;
      return offset, None;
    }

    method Close() returns (err: Error)
      requires Valid()
      modifies this
      ensures Valid() && closed && err == Closed && offset == old(offset)
    {
      closed, rc, buffer, pending := true, None, [], false;
      return Closed;
    }

    /** Any sequence of reads and seeks, with the file missing and the driver failing whenever it likes. */
    method Replay(calls: seq<Call>, access: nat -> Access, feed: nat -> Feed)
      returns (replies: seq<Reply>, ghost ats: seq<nat>)
      requires Valid()
      modifies this
      ensures Valid() && FaithfulRun(content, size, calls, replies, ats)
      ensures ats[0] == old(offset) && ats[|calls|] == offset
    {
      replies, ats := [], [offset];
      var i := 0;
      while i < |calls|
        invariant 0 <= i <= |calls| && Valid() && FaithfulRun(content, size, calls[..i], replies, ats)
        invariant ats[0] == old(offset) && ats[i] == offset
      {
        ghost var before, done := replies, ats;
        var reply;
        match calls[i] {
          case ReadCall(n) =>
            var data, err := Read(n, access(i), feed(i));
            reply := ReadReply(data, err.Some?);
          case SeekCall(delta, whence) =>
            var pos, err := Seek(delta, whence);
            reply := SeekReply(pos, err.Some?);
        }
        FaithfulStep(content, size, calls, i, before, done, reply, offset);
        replies, ats := replies + [reply], ats + [offset];
        i := i + 1;
      }
      assert calls[..|calls|] == calls;
    }
  }
}
