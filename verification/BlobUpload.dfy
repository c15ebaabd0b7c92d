/**
 Resumable blob uploads and the content-addressed blob store they end in, on
 values: what each operation of a blob writer does to its own variables, to the
 files of its upload, to the blobs and to the links. Any call to the storage
 driver may fail; which ones do is a parameter of each operation.
 */
module BlobUpload {
  import opened Text

  newtype byte = b: int | 0 <= b < 256
  type Bytes = seq<byte>

  datatype Alg = SHA256 | SHA384 | SHA512

  datatype Digest = Digest(alg: Alg, hex: string)

  /** The hash functions, about which nothing is assumed. */
  type Hasher = (Alg, Bytes) -> string

  const CANONICAL := SHA256

  function Sum(hash: Hasher, alg: Alg, data: Bytes): Digest {
    Digest(alg, hash(alg, data))
  }

  /** Calls to the storage driver that can fail. */
  datatype Op =
    | ListStates | GetState | PutState | CloseFile | CommitFile | CancelFile | StatUpload | ReadBack
    | StatBlob | StatSource | PutBlob | Move | LinkCanonical | LinkAlias | RemoveDir

  /** The files of one upload: its data, if the driver made a file for it yet, and the saved hash states by offset. */
  datatype Upload = Upload(data: Option<Bytes>, states: map<nat, Bytes>)

  /** The variables of a blob writer. A hash state is represented by the bytes that were absorbed to reach it. */
  datatype Writer = Writer(written: nat, absorbed: Bytes, committed: bool)

  /** Whether hash states are saved, and whether blobs are linked into the repository on the file system. */
  datatype Config = Config(resumable: bool, mirror: bool)

  datatype Error =
    | DriverError | ClientGone | EmptyDigest | InvalidLength | InvalidDigest | AlreadyCommitted | SourceMissing

  datatype Result<+T> = Ok(value: T) | Err(error: Error)

  /** A descriptor: a size, with zero or less for unknown, and a digest, if one was given. */
  datatype Descriptor = Descriptor(size: int, digest: Option<Digest>)

  function Content(u: Upload): Bytes {
    if u.data.Some? then u.data.value else []
  }

  function Size(u: Upload): nat {
    |Content(u)|
  }

  function Append(u: Upload, p: Bytes): (v: Upload)
    ensures Content(v) == Content(u) + p && v.states == u.states
  {
    if p == [] then u else u.(data := Some(Content(u) + p))
  }

  const FreshWriter := Writer(0, [], false)

  // ---- resuming and storing the digest ----

  datatype Resumed = Ready | NotAvailable | Failed

  datatype ResumeOutcome = ResumeOutcome(writer: Writer, status: Resumed)

  /** Restores the hash state saved for the current size, or resets the hash and reports the gap. */
  function ResumeDigest(c: Config, w: Writer, u: Upload, faults: set<Op>): ResumeOutcome {
    if !c.resumable then ResumeOutcome(w, NotAvailable)
    else if Size(u) == w.written then ResumeOutcome(w, Ready)
    else if ListStates in faults then ResumeOutcome(w, Failed)
    else if Size(u) == 0 || Size(u) !in u.states then
      ResumeOutcome(w.(absorbed := []), if w.written < Size(u) then NotAvailable else Ready)
    else if GetState in faults then ResumeOutcome(w, Failed)
    else ResumeOutcome(w.(written := Size(u), absorbed := u.states[Size(u)]), Ready)
  }

  function StoreHashState(c: Config, w: Writer, u: Upload): Upload {
    if c.resumable then u.(states := u.states[w.written := w.absorbed]) else u
  }

  // ---- writing ----

  datatype WriteOutcome = WriteOutcome(writer: Writer, upload: Upload, result: Result<nat>)

  /** Where the driver fails while it takes `p`: after some first part of it, or after all of it. */
  predicate FailsWithin(fails: Option<nat>, p: Bytes) {
    fails.Some? ==> fails.value <= |p|
  }

  /** Writes `p`; when the driver fails, the hash sees none of it although the file has taken a part. */
  function Write(c: Config, w: Writer, u: Upload, p: Bytes, fails: Option<nat>, faults: set<Op>): WriteOutcome
    requires FailsWithin(fails, p)
  {
    var r := ResumeDigest(c, w, u, faults);
    if r.status == Failed then WriteOutcome(r.writer, u, Err(DriverError))
    else if fails.Some? then WriteOutcome(r.writer, Append(u, p[..fails.value]), Err(DriverError))
    else
      WriteOutcome(r.writer.(written := r.writer.written + |p|, absorbed := r.writer.absorbed + p), Append(u, p),
          Ok(|p|))
  }

  /** A piece delivered by the client, how much of it the file accepts, and the error with which copying ends there. */
  datatype Chunk = Chunk(bytes: Bytes, accepted: nat, fault: Option<Error>)

  /** The file accepts less only when it fails; the client's reader may fail with or after any piece. */
  predicate ValidChunk(k: Chunk) {
    k.accepted <= |k.bytes| && (k.fault == None || k.fault == Some(ClientGone) ==> k.accepted == |k.bytes|)
  }

  predicate ValidChunks(chunks: seq<Chunk>) {
    forall i :: 0 <= i < |chunks| ==> ValidChunk(chunks[i])
  }

  /** What reaches both the file and the hash, up to the first chunk with an error. */
  function Delivered(chunks: seq<Chunk>): Bytes
    requires ValidChunks(chunks)
  {
    if chunks == [] then []
    else if chunks[0].fault.Some? then chunks[0].bytes[..chunks[0].accepted]
    else chunks[0].bytes + Delivered(chunks[1..])
  }

  function FirstFault(chunks: seq<Chunk>): Option<Error> {
    if chunks == [] then None else if chunks[0].fault.Some? then chunks[0].fault else FirstFault(chunks[1..])
  }

  function Copied(chunks: seq<Chunk>): Result<nat>
    requires ValidChunks(chunks)
  {
    var fault := FirstFault(chunks);
    if fault.Some? then Err(fault.value) else Ok(|Delivered(chunks)|)
  }

  function ReadFrom(c: Config, w: Writer, u: Upload, chunks: seq<Chunk>, faults: set<Op>): WriteOutcome
    requires ValidChunks(chunks)
  {
    var r := ResumeDigest(c, w, u, faults);
    if r.status == Failed then WriteOutcome(r.writer, u, Err(DriverError))
    else
      var p := Delivered(chunks);
      WriteOutcome(r.writer.(written := r.writer.written + |p|, absorbed := r.writer.absorbed + p), Append(u, p),
          Copied(chunks))
  }

  datatype CloseOutcome = CloseOutcome(upload: Upload, result: Result<()>)

  function Close(c: Config, w: Writer, u: Upload, faults: set<Op>): CloseOutcome {
    if w.committed then CloseOutcome(u, Err(AlreadyCommitted))
    else if c.resumable && PutState in faults then CloseOutcome(u, Err(DriverError))
    else CloseOutcome(StoreHashState(c, w, u), if CloseFile in faults then Err(DriverError) else Ok(()))
  }

  // ---- validating ----

  datatype ValidateOutcome = ValidateOutcome(writer: Writer, result: Result<Descriptor>)

  /** Decides from the restored digest or the bytes written, or reads the file back when neither will do. */
  function Validate(hash: Hasher, c: Config, w: Writer, u: Upload, desc: Descriptor,
                    faults: set<Op>): (v: ValidateOutcome)
    ensures v.result.Ok? ==> v.result.value.digest.Some? && desc.digest.Some?
  {
    if desc.digest.None? then ValidateOutcome(w, Err(EmptyDigest))
    else if StatUpload in faults then ValidateOutcome(w, Err(DriverError))
    else
      var dgst := desc.digest.value;
      var wanted := if u.data.None? then 0 else desc.size;
      if wanted > 0 && wanted != Size(u) then ValidateOutcome(w, Err(InvalidLength))
      else
        var r := ResumeDigest(c, w, u, faults);
        var quick := Sum(hash, CANONICAL, r.writer.absorbed);
        if r.status == Failed then ValidateOutcome(r.writer, Err(DriverError))
        else if r.status == Ready && dgst.alg == CANONICAL then
          ValidateOutcome(r.writer, if dgst == quick then Ok(Descriptor(Size(u), Some(quick))) else Err(InvalidDigest))
        else if r.writer.written == Size(u) && dgst.alg == CANONICAL && dgst == quick then
          ValidateOutcome(r.writer, Ok(Descriptor(Size(u), Some(quick))))
        else if ReadBack in faults then ValidateOutcome(r.writer, Err(DriverError))
        else ValidateOutcome(r.writer, Rehash(hash, u, dgst))
  }

  /** The plain way to decide: hash the stored file under the given algorithm and under the canonical one. */
  function Rehash(hash: Hasher, u: Upload, dgst: Digest): Result<Descriptor> {
    if Sum(hash, dgst.alg, Content(u)) == dgst
    then Ok(Descriptor(Size(u), Some(Sum(hash, CANONICAL, Content(u)))))
    else Err(InvalidDigest)
  }

  // ---- moving and linking ----

  datatype MoveOutcome = MoveOutcome(blobs: map<Digest, Bytes>, upload: Upload, result: Result<()>)

  /**
   Moves the data to the path of its digest, unless a blob is there already; only the empty blob may be made from
   nothing.
   */
  function MoveBlob(hash: Hasher, blobs: map<Digest, Bytes>, u: Upload, d: Digest, faults: set<Op>): MoveOutcome {
    if StatBlob in faults then MoveOutcome(blobs, u, Err(DriverError))
    else if d in blobs then MoveOutcome(blobs, u, Ok(()))
    else if StatSource in faults then MoveOutcome(blobs, u, Err(DriverError))
    else if u.data.None? then
      if d != Sum(hash, CANONICAL, []) then MoveOutcome(blobs, u, Err(SourceMissing))
      else if PutBlob in faults then MoveOutcome(blobs, u, Err(DriverError))
      else MoveOutcome(blobs[d := []], u, Ok(()))
    else if Move in faults then MoveOutcome(blobs, u, Err(DriverError))
    else MoveOutcome(blobs[d := u.data.value], u.(data := None), Ok(()))
  }

  datatype LinkKey = LinkKey(repo: string, digest: Digest)

  datatype LinkOutcome = LinkOutcome(links: map<LinkKey, Digest>, result: Result<()>)

  /** Links the canonical digest and, if it is another one, the digest the client used. */
  function LinkBlob(links: map<LinkKey, Digest>, repo: string, canonical: Digest, alias: Digest,
                    faults: set<Op>): LinkOutcome {
    if LinkCanonical in faults then LinkOutcome(links, Err(DriverError))
    else
      var linked := links[LinkKey(repo, canonical) := canonical];
      if alias == canonical then LinkOutcome(linked, Ok(()))
      else if LinkAlias in faults then LinkOutcome(linked, Err(DriverError))
      else LinkOutcome(linked[LinkKey(repo, alias) := canonical], Ok(()))
  }

  /** What a commit or a cancellation leaves: the upload is gone when its directory was removed. */
  datatype EndOutcome =
    EndOutcome(writer: Writer, upload: Option<Upload>, blobs: map<Digest, Bytes>, links: map<LinkKey, Digest>,
        result: Result<Descriptor>)

  /** The second half of a commit, once the canonical digest is known. */
  function Finish(hash: Hasher, c: Config, repo: string, w: Writer, u: Upload, blobs: map<Digest, Bytes>,
                  links: map<LinkKey, Digest>, canonical: Digest, dgst: Digest, faults: set<Op>): EndOutcome {
    var m := MoveBlob(hash, blobs, u, canonical, faults);
    if m.result.Err? then EndOutcome(w, Some(m.upload), m.blobs, links, Err(m.result.error))
    else
      var l := if c.mirror then LinkBlob(links, repo, canonical, dgst, faults) else LinkOutcome(links, Ok(()));
      if l.result.Err? then EndOutcome(w, Some(m.upload), m.blobs, l.links, Err(l.result.error))
      else if RemoveDir in faults then EndOutcome(w, Some(m.upload), m.blobs, l.links, Err(DriverError))
      else EndOutcome(w.(committed := true), None, m.blobs, l.links, Ok(Descriptor(Size(u), Some(canonical))))
  }

  function Commit(hash: Hasher, c: Config, repo: string, w: Writer, u: Upload, blobs: map<Digest, Bytes>,
                  links: map<LinkKey, Digest>, dgst: Option<Digest>, faults: set<Op>): EndOutcome {
    if CommitFile in faults then EndOutcome(w, Some(u), blobs, links, Err(DriverError))
    else
      var closed := Close(c, w, u, faults).upload;
      var v := Validate(hash, c, w, closed, Descriptor(Size(closed), dgst), faults);
      if v.result.Err? then EndOutcome(v.writer, Some(closed), blobs, links, Err(v.result.error))
      else Finish(hash, c, repo, v.writer, closed, blobs, links, v.result.value.digest.value, dgst.value, faults)
  }

  /** Drops the data, then closes, then removes the directory; only the first and the last can make it fail. */
  function Cancel(c: Config, w: Writer, u: Upload, faults: set<Op>): (Option<Upload>, Result<()>) {
    if CancelFile in faults then (Some(u), Err(DriverError))
    else
      var closed := Close(c, w, u.(data := None), faults).upload;
      if RemoveDir in faults then (Some(closed), Err(DriverError)) else (None, Ok(()))
  }

  /** Stores small content under its canonical digest unless it is there already. */
  function Put(hash: Hasher, blobs: map<Digest, Bytes>, p: Bytes, faults: set<Op>)
    : (map<Digest, Bytes>, Result<Digest>)
  {
    var d := Sum(hash, CANONICAL, p);
    if StatBlob in faults then (blobs, Err(DriverError))
    else if d in blobs then (blobs, Ok(d))
    else if PutBlob in faults then (blobs, Err(DriverError))
    else (blobs[d := p], Ok(d))
  }

  // ---- the invariants of one upload ----

  /**
   Every saved state is for an offset within the file, and the one for the
   current size, if any, is the state of the whole file. States for smaller
   offsets need not be the states of those prefixes.
   */
  ghost predicate Clean(u: Upload) {
    forall o :: o in u.states ==> o <= Size(u) && |u.states[o]| <= o && (o == Size(u) ==> u.states[o] == Content(u))
  }

  /** The writer is never ahead of the file, and in step with it only when its hash has absorbed the whole file. */
  ghost predicate InStep(w: Writer, u: Upload) {
    && w.written <= Size(u) && |w.absorbed| <= w.written
    && (w.written == Size(u) ==> w.absorbed == Content(u))
  }

  lemma ResumeKeepsInStep(c: Config, w: Writer, u: Upload, faults: set<Op>)
    requires Clean(u) && InStep(w, u)
    ensures var r := ResumeDigest(c, w, u, faults);
      && InStep(r.writer, u) && r.writer.committed == w.committed
      && (r.status == Ready ==> r.writer.written == Size(u) && r.writer.absorbed == Content(u))
      && (r.status == NotAvailable && c.resumable ==> r.writer.written < Size(u) && r.writer.absorbed == [])
  { }

  lemma WriteKeepsInStep(c: Config, w: Writer, u: Upload, p: Bytes, fails: Option<nat>, faults: set<Op>)
    requires Clean(u) && InStep(w, u) && FailsWithin(fails, p)
    ensures var o := Write(c, w, u, p, fails, faults); Clean(o.upload) && InStep(o.writer, o.upload)
  {
    ResumeKeepsInStep(c, w, u, faults);
    AppendKeepsClean(u, if fails.Some? then p[..fails.value] else p);
  }

  lemma AppendKeepsClean(u: Upload, p: Bytes)
    requires Clean(u)
    ensures Clean(Append(u, p))
  {
    if p == [] { assert Content(u) + p == Content(u); }
  }

  lemma ReadFromKeepsInStep(c: Config, w: Writer, u: Upload, chunks: seq<Chunk>, faults: set<Op>)
    requires Clean(u) && InStep(w, u) && ValidChunks(chunks)
    ensures var o := ReadFrom(c, w, u, chunks, faults); Clean(o.upload) && InStep(o.writer, o.upload)
  {
    ResumeKeepsInStep(c, w, u, faults);
    AppendKeepsClean(u, Delivered(chunks));
  }

  lemma CloseKeepsClean(c: Config, w: Writer, u: Upload, faults: set<Op>)
    requires Clean(u) && InStep(w, u)
    ensures var o := Close(c, w, u, faults); Clean(o.upload) && InStep(w, o.upload) && o.upload.data == u.data
  { }

  /**
   Both shortcuts decide as a full re-hash of the stored file would, and return
   the same canonical digest and the true length.
   */
  lemma ValidateIsRehash(hash: Hasher, c: Config, w: Writer, u: Upload, desc: Descriptor, faults: set<Op>)
    requires Clean(u) && InStep(w, u) && desc.digest.Some?
    ensures var v := Validate(hash, c, w, u, desc, faults);
      || v.result == Err(DriverError)
      || v.result == if u.data.Some? && desc.size > 0 && desc.size != Size(u) then Err(InvalidLength)
                     else Rehash(hash, u, desc.digest.value)
    ensures faults == {} ==> Validate(hash, c, w, u, desc, faults).result != Err(DriverError)
  {
    ResumeKeepsInStep(c, w, u, faults);
  }

  // ---- when saved states are states of prefixes ----

  /** Every saved state is that of the prefix it is named for. */
  ghost predicate Exact(u: Upload) {
    forall o :: o in u.states ==> o <= Size(u) && u.states[o] == Content(u)[..o]
  }

  /** The writer has hashed exactly the bytes it has counted. */
  ghost predicate PrefixHashed(w: Writer, u: Upload) {
    w.written <= Size(u) && w.absorbed == Content(u)[..w.written]
  }

  /** Resuming resets the hash without resetting the count of written bytes. */
  predicate Gap(c: Config, w: Writer, u: Upload) {
    c.resumable && Size(u) != w.written && (Size(u) == 0 || Size(u) !in u.states)
  }

  lemma ResumeKeepsPrefix(c: Config, w: Writer, u: Upload, faults: set<Op>)
    requires Exact(u) && PrefixHashed(w, u) && !Gap(c, w, u)
    ensures var r := ResumeDigest(c, w, u, faults);
      PrefixHashed(r.writer, u) && (c.resumable && r.status != Failed ==> r.writer.written == Size(u))
  { }

  lemma AppendKeepsExact(w: Writer, u: Upload, p: Bytes)
    requires Exact(u)
    ensures Exact(Append(u, p)) && (PrefixHashed(w, u) ==> PrefixHashed(w, Append(u, p)))
  {
    var v := Append(u, p);
    assert forall o :: 0 <= o <= Size(u) ==> Content(v)[..o] == Content(u)[..o];
  }

  /** Writing keeps every state exact in any case, and without a gap the writer too. */
  lemma WriteKeepsExact(c: Config, w: Writer, u: Upload, p: Bytes, fails: Option<nat>, faults: set<Op>)
    requires Exact(u) && FailsWithin(fails, p)
    ensures var o := Write(c, w, u, p, fails, faults);
      Exact(o.upload) && (c.resumable && PrefixHashed(w, u) && !Gap(c, w, u) ==> PrefixHashed(o.writer, o.upload))
  {
    var r := ResumeDigest(c, w, u, faults);
    if c.resumable && PrefixHashed(w, u) && !Gap(c, w, u) { ResumeKeepsPrefix(c, w, u, faults); }
    AppendKeepsExact(r.writer, u, if fails.Some? then p[..fails.value] else p);
  }

  lemma ReadFromKeepsExact(c: Config, w: Writer, u: Upload, chunks: seq<Chunk>, faults: set<Op>)
    requires Exact(u) && ValidChunks(chunks)
    ensures var o := ReadFrom(c, w, u, chunks, faults);
      Exact(o.upload) && (c.resumable && PrefixHashed(w, u) && !Gap(c, w, u) ==> PrefixHashed(o.writer, o.upload))
  {
    var r := ResumeDigest(c, w, u, faults);
    if c.resumable && PrefixHashed(w, u) && !Gap(c, w, u) { ResumeKeepsPrefix(c, w, u, faults); }
    AppendKeepsExact(r.writer, u, Delivered(chunks));
  }

  /** Closing keeps the states exact, for a writer that has hashed what it counted. */
  lemma CloseKeepsExact(c: Config, w: Writer, u: Upload, faults: set<Op>)
    requires Exact(u) && (c.resumable ==> PrefixHashed(w, u))
    ensures Exact(Close(c, w, u, faults).upload)
  { }

  /** Writing `p` and closing, with no failures. */
  function WrittenAndClosed(c: Config, w: Writer, u: Upload, p: Bytes): Upload {
    var o := Write(c, w, u, p, None, {});
    Close(c, o.writer, o.upload, {}).upload
  }

  /** Some byte other than the first of a text. */
  function OtherByte(text: Bytes): byte {
    if text != [] && text[0] == 0 then 1 else 0
  }

  /**
   Writing and closing keeps saved states the states of their prefixes, whatever is written,
   if and only if resuming meets no gap.
   */
  lemma ExactIffNoGap(c: Config, w: Writer, u: Upload)
    requires c.resumable && !w.committed && Exact(u) && PrefixHashed(w, u)
    ensures Gap(c, w, u) <==> exists p :: !Exact(WrittenAndClosed(c, w, u, p))
  {
    if Gap(c, w, u) {
      var p := [OtherByte(Content(u))];
      var o, v := Write(c, w, u, p, None, {}), WrittenAndClosed(c, w, u, p);
      assert o.writer.written == w.written + 1 && o.writer.absorbed == [] + p == p;
      assert w.written + 1 in v.states && v.states[w.written + 1] == p;
      assert w.written == 0 ==> Content(v)[..1] == [Content(u)[0]];
    } else {
      forall p ensures Exact(WrittenAndClosed(c, w, u, p)) {
        var o := Write(c, w, u, p, None, {});
        WriteKeepsExact(c, w, u, p, None, {});
        CloseKeepsExact(c, o.writer, o.upload, {});
      }
    }
  }

  /**
   A saved state need not be the state of the prefix it is named for. After a
   gap the hash is reset but the count of written bytes is not: here a file
   holding `x`, whose state was never saved, is resumed and `y` is written, and
   closing then saves the state of `y` alone under offset one.
   */
  lemma GapStateIsNoPrefix(x: byte, y: byte)
    requires x != y
    ensures var c, u := Config(true, true), Upload(Some([x]), map[]);
      var o := Write(c, FreshWriter, u, [y], None, {});
      var v := Close(c, o.writer, o.upload, {}).upload;
      && Clean(u) && InStep(FreshWriter, u) && Clean(v)
      && Content(v) == [x, y] && 1 in v.states && v.states[1] != Content(v)[..1]
  {
    var c, u := Config(true, true), Upload(Some([x]), map[]);
    var o := Write(c, FreshWriter, u, [y], None, {});
    assert o.writer.written == 1 && o.writer.absorbed == [y];
    WriteKeepsInStep(c, FreshWriter, u, [y], None, {});
    CloseKeepsClean(c, o.writer, o.upload, {});
  }
}
