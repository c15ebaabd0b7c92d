/** What the readers of byte streams share. */
module Seeking {

  type Bytes = seq<int>

  datatype Whence = FromStart | FromCurrent | FromEnd

  /** The offset that a seek from `at` in a stream of `size` bytes asks for; it may be negative. */
  function Target(at: int, size: nat, delta: int, whence: Whence): int {
    match whence
    case FromStart => delta
    case FromCurrent => at + delta
    case FromEnd => size + delta
  }

  datatype Call = ReadCall(n: nat) | SeekCall(delta: int, whence: Whence)

  datatype Reply = ReadReply(data: Bytes, failed: bool) | SeekReply(pos: int, failed: bool)

  /**
   One reply of a reader that stands for "read `content` from offset `at`": bytes are those at the
   offset, which moves by their number; a seek moves it where it was asked to, or fails and does not.
   */
  ghost predicate Faithful(content: Bytes, size: nat, at: nat, call: Call, reply: Reply, next: nat) {
    match call
    case ReadCall(n) =>
      && reply.ReadReply? && |reply.data| <= n && next == at + |reply.data|
      && (reply.data != [] ==> next <= |content| && reply.data == content[at..next])
    case SeekCall(delta, whence) =>
      reply.SeekReply? && if reply.failed then next == at else next == reply.pos == Target(at, size, delta, whence)
  }

  /** The replies to a sequence of calls, with the offsets before and after each. */
  ghost predicate FaithfulRun(content: Bytes, size: nat, calls: seq<Call>, replies: seq<Reply>, ats: seq<nat>) {
    && |replies| == |calls| && |ats| == |calls| + 1
    && forall i {:trigger calls[i]} :: 0 <= i < |calls| ==>
        Faithful(content, size, ats[i], calls[i], replies[i], ats[i + 1])
  }

  /** One more call. */
  lemma FaithfulStep(content: Bytes, size: nat, calls: seq<Call>, i: nat, replies: seq<Reply>, ats: seq<nat>,
                     reply: Reply, next: nat)
    requires i < |calls| && FaithfulRun(content, size, calls[..i], replies, ats)
    requires Faithful(content, size, ats[i], calls[i], reply, next)
    ensures FaithfulRun(content, size, calls[..i + 1], replies + [reply], ats + [next])
  { }
}
