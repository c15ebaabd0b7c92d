/** Every interleaving of uploads over one content-addressed store. */
module UploadRuns {
  import opened Text
  import opened BlobUpload

  datatype UploadId = UploadId(repo: string, id: string)

  /**
   A writer in use, or one whose data was taken away by a failed commit or cancellation: it may only be closed or
   cancelled.
   */
  datatype Handle = Open(writer: Writer) | Ended(writer: Writer)

  /** The stored blobs, links and upload files, and the live writers, at most one per upload. */
  datatype System = System(
    blobs: map<Digest, Bytes>, links: map<LinkKey, Digest>, uploads: map<UploadId, Upload>,
        writers: map<UploadId, Handle>)

  const Empty := System(map[], map[], map[], map[])

  /**
   One operation. Drivers differ on whether opening a writer makes an empty file (`eager`). A writer outlives
   being closed and is dropped, without notice, when its request ends.
   */
  datatype Step =
    | Create(id: UploadId, eager: bool, success: bool)
    | Resume(id: UploadId, eager: bool)
    | WriteBytes(id: UploadId, p: Bytes, fails: Option<nat>, faults: set<Op>)
    | ReadChunks(id: UploadId, chunks: seq<Chunk>, faults: set<Op>)
    | CloseWriter(id: UploadId, faults: set<Op>)
    | CommitUpload(id: UploadId, dgst: Option<Digest>, faults: set<Op>)
    | CancelUpload(id: UploadId, faults: set<Op>)
    | Drop(id: UploadId)
    | PutBlob(repo: string, p: Bytes, faults: set<Op>)

  predicate InUse(s: System, id: UploadId) {
    id in s.writers && id in s.uploads && s.writers[id].Open?
  }

  /** Upload ids are fresh when created, and an upload is resumed only while no writer is live on it. */
  predicate Enabled(s: System, a: Step) {
    match a
    case Create(id, _, _) => id !in s.uploads && id !in s.writers
    case Resume(id, _) => id in s.uploads && id !in s.writers
    case WriteBytes(id, p, fails, _) => InUse(s, id) && FailsWithin(fails, p)
    case ReadChunks(id, chunks, _) => InUse(s, id) && ValidChunks(chunks)
    case CloseWriter(id, _) => id in s.writers && id in s.uploads
    case CommitUpload(id, _, _) => InUse(s, id)
    case CancelUpload(id, _) => id in s.writers && id in s.uploads
    case Drop(id) => id in s.writers
    case PutBlob(_, _, _) => true
  }

  function OpenFile(u: Upload, eager: bool): Upload {
    if eager && u.data.None? then u.(data := Some([])) else u
  }

  function SetUpload(uploads: map<UploadId, Upload>, id: UploadId, u: Option<Upload>): map<UploadId, Upload> {
    if u.Some? then uploads[id := u.value] else uploads - {id}
  }

  /** A writer stays in use after a failure that left its data alone. */
  function AfterFailure(h: Handle, before: Upload, after: Upload, w: Writer): Handle {
    if h.Open? && after.data == before.data then Open(w) else Ended(w)
  }

  /** What a commit or a cancellation leaves of its upload and writer: nothing, or both after a failure. */
  function EndWith(s: System, id: UploadId, u: Option<Upload>, w: Writer): System
    requires id in s.uploads && id in s.writers
  {
    s.(uploads := SetUpload(s.uploads, id, u),
       writers := if u.Some? then s.writers[id := AfterFailure(s.writers[id], s.uploads[id], u.value, w)]
                  else s.writers - {id})
  }

  function Apply(hash: Hasher, c: Config, s: System, a: Step): System
    requires Enabled(s, a)
  {
    match a
    case Create(id, eager, success) =>
      var u := Upload(None, map[]);
      if success then s.(uploads := s.uploads[id := OpenFile(u, eager)], writers := s.writers[id := Open(FreshWriter)])
      else s.(uploads := s.uploads[id := u])
    case Resume(id, eager) =>
      s.(uploads := s.uploads[id := OpenFile(s.uploads[id], eager)], writers := s.writers[id := Open(FreshWriter)])
    case WriteBytes(id, p, fails, faults) =>
      var o := Write(c, s.writers[id].writer, s.uploads[id], p, fails, faults);
      s.(uploads := s.uploads[id := o.upload], writers := s.writers[id := Open(o.writer)])
    case ReadChunks(id, chunks, faults) =>
      var o := ReadFrom(c, s.writers[id].writer, s.uploads[id], chunks, faults);
      s.(uploads := s.uploads[id := o.upload], writers := s.writers[id := Open(o.writer)])
    case CloseWriter(id, faults) =>
      s.(uploads := s.uploads[id := Close(c, s.writers[id].writer, s.uploads[id], faults).upload])
    case CommitUpload(id, dgst, faults) =>
      var o := Commit(hash, c, id.repo, s.writers[id].writer, s.uploads[id], s.blobs, s.links, dgst, faults);
      EndWith(s.(blobs := o.blobs, links := o.links), id, o.upload, o.writer)
    case CancelUpload(id, faults) =>
      EndWith(s, id, Cancel(c, s.writers[id].writer, s.uploads[id], faults).0, s.writers[id].writer)
    case Drop(id) => s.(writers := s.writers - {id})
    case PutBlob(repo, p, faults) =>
      var o := Put(hash, s.blobs, p, faults);
      s.(blobs := o.0,
         links := if o.1.Ok? then LinkBlob(s.links, repo, o.1.value, o.1.value, faults).links else s.links)
  }

  /** A saved state for an offset beyond the file: its data was taken away and the directory left behind. */
  ghost predicate Stale(u: Upload) {
    exists o :: o in u.states && o > Size(u)
  }

  /** A run in which every operation is possible and no stale upload is resumed. */
  ghost predicate Run(hash: Hasher, c: Config, s: System, steps: seq<Step>)
    decreases |steps|
  {
    steps != [] ==>
      && Enabled(s, steps[0])
      && (steps[0].Resume? ==> !Stale(s.uploads[steps[0].id]))
      && Run(hash, c, Apply(hash, c, s, steps[0]), steps[1..])
  }

  ghost function Final(hash: Hasher, c: Config, s: System, steps: seq<Step>): System
    requires Run(hash, c, s, steps)
    decreases |steps|
  {
    if steps == [] then s else Final(hash, c, Apply(hash, c, s, steps[0]), steps[1..])
  }

  /** Every blob is stored under its own digest. */
  ghost predicate WellAddressed(hash: Hasher, blobs: map<Digest, Bytes>) {
    forall d :: d in blobs ==> Sum(hash, d.alg, blobs[d]) == d
  }

  ghost predicate LinksResolve(blobs: map<Digest, Bytes>, links: map<LinkKey, Digest>) {
    forall k :: k in links ==> links[k] in blobs
  }

  ghost predicate Live(w: Writer, u: Upload) {
    Clean(u) && InStep(w, u) && !w.committed
  }

  /** The data is gone; what states are left are not longer than their offsets. */
  ghost predicate Emptied(w: Writer, u: Upload) {
    Content(u) == [] && |w.absorbed| <= w.written && !w.committed && forall o :: o in u.states ==> |u.states[o]| <= o
  }

  ghost predicate HandleOk(h: Handle, u: Upload) {
    Live(h.writer, u) || (h.Ended? && Emptied(h.writer, u))
  }

  /** Taking the data away leaves an upload that is clean, or recognisably stale. */
  lemma EmptiedUpload(w: Writer, u: Upload)
    requires Emptied(w, u)
    ensures Clean(u) || Stale(u)
  { }

  ghost predicate Invariant(hash: Hasher, s: System) {
    && WellAddressed(hash, s.blobs) && LinksResolve(s.blobs, s.links)
    && (forall id :: id in s.writers ==> id in s.uploads && HandleOk(s.writers[id], s.uploads[id]))
    && (forall id :: id in s.uploads ==> Clean(s.uploads[id]) || Stale(s.uploads[id]))
  }

  // ---- the operations that end an upload ----

  lemma MoveKeepsAddressed(hash: Hasher, blobs: map<Digest, Bytes>, links: map<LinkKey, Digest>, w: Writer, u: Upload,
                           faults: set<Op>)
    requires WellAddressed(hash, blobs) && LinksResolve(blobs, links) && Live(w, u)
    ensures var d := Sum(hash, CANONICAL, Content(u));
      var m := MoveBlob(hash, blobs, u, d, faults);
      && WellAddressed(hash, m.blobs) && LinksResolve(m.blobs, links) && (m.result.Ok? ==> d in m.blobs)
      && HandleOk(AfterFailure(Open(w), u, m.upload, w), m.upload)
  { }

  lemma LinkKeepsResolving(blobs: map<Digest, Bytes>, links: map<LinkKey, Digest>, repo: string, d: Digest,
                           alias: Digest, faults: set<Op>)
    requires LinksResolve(blobs, links) && d in blobs
    ensures LinksResolve(blobs, LinkBlob(links, repo, d, alias, faults).links)
  { }

  lemma FinishKeepsInvariant(hash: Hasher, c: Config, repo: string, w: Writer, u: Upload, blobs: map<Digest, Bytes>,
                             links: map<LinkKey, Digest>, dgst: Digest, faults: set<Op>)
    requires WellAddressed(hash, blobs) && LinksResolve(blobs, links) && Live(w, u)
    ensures var o := Finish(hash, c, repo, w, u, blobs, links, Sum(hash, CANONICAL, Content(u)), dgst, faults);
      && WellAddressed(hash, o.blobs) && LinksResolve(o.blobs, o.links)
      && (o.upload.Some? ==> HandleOk(AfterFailure(Open(w), u, o.upload.value, o.writer), o.upload.value))
  {
    var d := Sum(hash, CANONICAL, Content(u));
    var m := MoveBlob(hash, blobs, u, d, faults);
    MoveKeepsAddressed(hash, blobs, links, w, u, faults);
    if m.result.Ok? { LinkKeepsResolving(m.blobs, links, repo, d, dgst, faults); }
  }

  /** The second half of a commit of the bytes in `u`, with the digest they have. */
  ghost predicate Finished(hash: Hasher, c: Config, repo: string, u: Upload, blobs: map<Digest, Bytes>,
                           links: map<LinkKey, Digest>,
                           dgst: Digest, faults: set<Op>, w: Writer, o: EndOutcome) {
    Live(w, u) && o == Finish(hash, c, repo, w, u, blobs, links, Sum(hash, CANONICAL, Content(u)), dgst, faults)
  }

  /** An early error: neither blobs nor links are touched, and the writer is as good as before. */
  ghost predicate NothingDone(u: Upload, blobs: map<Digest, Bytes>, links: map<LinkKey, Digest>, o: EndOutcome) {
    && o.blobs == blobs && o.links == links && o.result.Err?
    && o.upload.Some? && o.upload.value.data == u.data && Live(o.writer, o.upload.value)
  }

  /**
   Where a commit gets to: an early error that touches neither blobs nor links, or the second half with the true
   digest.
   */
  lemma CommitDecides(hash: Hasher, c: Config, repo: string, w: Writer, u: Upload, blobs: map<Digest, Bytes>,
                      links: map<LinkKey, Digest>, dgst: Option<Digest>, faults: set<Op>)
    requires Live(w, u)
    ensures var o := Commit(hash, c, repo, w, u, blobs, links, dgst, faults);
      var closed := Close(c, w, u, faults).upload;
      var matches := dgst.Some? && Sum(hash, dgst.value.alg, Content(u)) == dgst.value;
      && closed.data == u.data
      && (|| NothingDone(u, blobs, links, o)
          || (matches && exists w' :: Finished(hash, c, repo, closed, blobs, links, dgst.value, faults, w', o)))
      && (faults == {} && matches ==>
            exists w' :: Finished(hash, c, repo, closed, blobs, links, dgst.value, faults, w', o))
  {
    CloseKeepsClean(c, w, u, faults);
    var closed := Close(c, w, u, faults).upload;
    if dgst.Some? { ValidateIsRehash(hash, c, w, closed, Descriptor(Size(closed), dgst), faults); }
    var v := Validate(hash, c, w, closed, Descriptor(Size(closed), dgst), faults);
    ValidateKeepsLive(hash, c, w, closed, Descriptor(Size(closed), dgst), faults);
    var o := Commit(hash, c, repo, w, u, blobs, links, dgst, faults);
    if CommitFile !in faults && v.result.Ok? {
      assert Finished(hash, c, repo, closed, blobs, links, dgst.value, faults, v.writer, o);
    }
  }

  lemma ValidateKeepsLive(hash: Hasher, c: Config, w: Writer, u: Upload, desc: Descriptor, faults: set<Op>)
    requires Live(w, u)
    ensures Live(Validate(hash, c, w, u, desc, faults).writer, u)
  {
    ResumeKeepsInStep(c, w, u, faults);
  }

  lemma CommitKeepsInvariant(hash: Hasher, c: Config, repo: string, w: Writer, u: Upload, blobs: map<Digest, Bytes>,
                             links: map<LinkKey, Digest>, dgst: Option<Digest>, faults: set<Op>)
    requires WellAddressed(hash, blobs) && LinksResolve(blobs, links) && Live(w, u)
    ensures var o := Commit(hash, c, repo, w, u, blobs, links, dgst, faults);
      && WellAddressed(hash, o.blobs) && LinksResolve(o.blobs, o.links)
      && (o.upload.Some? ==> HandleOk(AfterFailure(Open(w), u, o.upload.value, o.writer), o.upload.value))
  {
    CommitDecides(hash, c, repo, w, u, blobs, links, dgst, faults);
    var o := Commit(hash, c, repo, w, u, blobs, links, dgst, faults);
    var closed := Close(c, w, u, faults).upload;
    if !NothingDone(u, blobs, links, o) {
      var w' :| Finished(hash, c, repo, closed, blobs, links, dgst.value, faults, w', o);
      FinishKeepsInvariant(hash, c, repo, w', closed, blobs, links, dgst.value, faults);
    }
  }

  /** The second half of a commit adds the upload's bytes under their digest and disturbs no other blob. */
  lemma FinishStores(hash: Hasher, c: Config, repo: string, w: Writer, u: Upload, blobs: map<Digest, Bytes>,
                     links: map<LinkKey, Digest>, dgst: Digest, faults: set<Op>)
    ensures var d := Sum(hash, CANONICAL, Content(u));
      var o := Finish(hash, c, repo, w, u, blobs, links, d, dgst, faults);
      && (forall e :: e in blobs ==> e in o.blobs && o.blobs[e] == blobs[e])
      && (o.result.Ok? ==>
        && o.result == Ok(Descriptor(Size(u), Some(d))) && o.upload == None
        && d in o.blobs && (d !in blobs ==> o.blobs[d] == Content(u))
        && (c.mirror ==> o.links == links[LinkKey(repo, d) := d][LinkKey(repo, dgst) := d]))
      && (faults == {} ==> o.result.Ok?)
  { }

  /** What a commit of bytes `data` against the client's digest must achieve when it reports success. */
  ghost predicate Committed(hash: Hasher, c: Config, repo: string, data: Bytes, dgst: Option<Digest>,
                            blobs: map<Digest, Bytes>,
                            links: map<LinkKey, Digest>, o: EndOutcome) {
    var d := Sum(hash, CANONICAL, data);
    && dgst.Some? && Sum(hash, dgst.value.alg, data) == dgst.value
    && o.result == Ok(Descriptor(|data|, Some(d))) && o.upload == None
    && d in o.blobs && (d !in blobs ==> o.blobs[d] == data)
    && (forall e :: e in blobs ==> e in o.blobs && o.blobs[e] == blobs[e])
    && (c.mirror ==> o.links == links[LinkKey(repo, d) := d][LinkKey(repo, dgst.value) := d])
  }

  /**
   A commit reports success only then, and without driver failures it does whenever the digest is that of the bytes.
   */
  lemma CommitStores(hash: Hasher, c: Config, repo: string, w: Writer, u: Upload, blobs: map<Digest, Bytes>,
                     links: map<LinkKey, Digest>, dgst: Option<Digest>, faults: set<Op>)
    requires Live(w, u)
    ensures var o := Commit(hash, c, repo, w, u, blobs, links, dgst, faults);
      && (o.result.Ok? ==> Committed(hash, c, repo, Content(u), dgst, blobs, links, o))
      && (faults == {} ==> (o.result.Ok? <==> dgst.Some? && Sum(hash, dgst.value.alg, Content(u)) == dgst.value))
  {
    CommitDecides(hash, c, repo, w, u, blobs, links, dgst, faults);
    var o := Commit(hash, c, repo, w, u, blobs, links, dgst, faults);
    var closed := Close(c, w, u, faults).upload;
    if o.result.Ok? || (faults == {} && dgst.Some? && Sum(hash, dgst.value.alg, Content(u)) == dgst.value) {
      var w' :| Finished(hash, c, repo, closed, blobs, links, dgst.value, faults, w', o);
      FinishStores(hash, c, repo, w', closed, blobs, links, dgst.value, faults);
    }
  }

  /** A cancelled upload is gone, or may be cancelled again; this holds of ended writers too. */
  lemma CancelLeaves(c: Config, h: Handle, u: Upload, faults: set<Op>)
    requires HandleOk(h, u)
    ensures var o := Cancel(c, h.writer, u, faults).0;
      o.Some? ==> HandleOk(AfterFailure(h, u, o.value, h.writer), o.value)
  {
    if u.data.None? && Live(h.writer, u) { CloseKeepsClean(c, h.writer, u, faults); }
  }

  lemma CloseKeepsHandle(c: Config, h: Handle, u: Upload, faults: set<Op>)
    requires HandleOk(h, u)
    ensures HandleOk(h, Close(c, h.writer, u, faults).upload)
  {
    if Live(h.writer, u) { CloseKeepsClean(c, h.writer, u, faults); }
  }

  lemma OpenKeepsLive(u: Upload, eager: bool)
    requires Clean(u)
    ensures Live(FreshWriter, OpenFile(u, eager)) && Clean(OpenFile(u, eager))
  { }

  // ---- whole runs ----

  /** A step on one upload that leaves its writer in order. */
  lemma KeepHandle(hash: Hasher, s: System, id: UploadId, h: Handle, u: Upload)
    requires Invariant(hash, s) && HandleOk(h, u)
    ensures Invariant(hash, s.(uploads := s.uploads[id := u], writers := s.writers[id := h]))
  {
    if !Live(h.writer, u) { EmptiedUpload(h.writer, u); }
  }

  /** A step that ends a commit or a cancellation. */
  lemma EndKeeps(hash: Hasher, s: System, id: UploadId, u: Option<Upload>, w: Writer)
    requires Invariant(hash, s) && id in s.writers
    requires u.Some? ==> HandleOk(AfterFailure(s.writers[id], s.uploads[id], u.value, w), u.value)
    ensures Invariant(hash, EndWith(s, id, u, w))
  {
    if u.Some? { KeepHandle(hash, s, id, AfterFailure(s.writers[id], s.uploads[id], u.value, w), u.value); }
  }

  lemma PutKeepsAddressed(hash: Hasher, s: System, repo: string, p: Bytes, faults: set<Op>)
    requires Invariant(hash, s)
    ensures var o := Put(hash, s.blobs, p, faults);
      && WellAddressed(hash, o.0)
      && LinksResolve(o.0, if o.1.Ok? then LinkBlob(s.links, repo, o.1.value, o.1.value, faults).links else s.links)
  { }

  /** Writing and reading keep a writer live, whatever part of the bytes the file took. */
  lemma LiveStep(c: Config, w: Writer, u: Upload, a: Step)
    requires Live(w, u)
    requires (a.WriteBytes? && FailsWithin(a.fails, a.p)) || (a.ReadChunks? && ValidChunks(a.chunks))
    ensures var o := if a.WriteBytes? then Write(c, w, u, a.p, a.fails, a.faults)
      else ReadFrom(c, w, u, a.chunks, a.faults);
      Live(o.writer, o.upload)
  {
    if a.WriteBytes? { WriteKeepsInStep(c, w, u, a.p, a.fails, a.faults); }
    else { ReadFromKeepsInStep(c, w, u, a.chunks, a.faults); }
  }

  lemma StepKeepsInvariant(hash: Hasher, c: Config, s: System, a: Step)
    requires Invariant(hash, s) && Enabled(s, a) && (a.Resume? ==> !Stale(s.uploads[a.id]))
    ensures Invariant(hash, Apply(hash, c, s, a))
  {
    match a
    case Create(id, eager, success) =>
      OpenKeepsLive(Upload(None, map[]), eager);
      KeepHandle(hash, s, id, Open(FreshWriter), OpenFile(Upload(None, map[]), eager));
    case Resume(id, eager) =>
      OpenKeepsLive(s.uploads[id], eager);
      KeepHandle(hash, s, id, Open(FreshWriter), OpenFile(s.uploads[id], eager));
    case WriteBytes(id, p, fails, faults) =>
      var o := Write(c, s.writers[id].writer, s.uploads[id], p, fails, faults);
      LiveStep(c, s.writers[id].writer, s.uploads[id], a);
      KeepHandle(hash, s, id, Open(o.writer), o.upload);
    case ReadChunks(id, chunks, faults) =>
      var o := ReadFrom(c, s.writers[id].writer, s.uploads[id], chunks, faults);
      LiveStep(c, s.writers[id].writer, s.uploads[id], a);
      KeepHandle(hash, s, id, Open(o.writer), o.upload);
    case CloseWriter(id, faults) =>
      CloseKeepsHandle(c, s.writers[id], s.uploads[id], faults);
      KeepHandle(hash, s, id, s.writers[id], Close(c, s.writers[id].writer, s.uploads[id], faults).upload);
      assert s.writers[id := s.writers[id]] == s.writers;
    case CommitUpload(id, dgst, faults) =>
      var o := Commit(hash, c, id.repo, s.writers[id].writer, s.uploads[id], s.blobs, s.links, dgst, faults);
      CommitKeepsInvariant(hash, c, id.repo, s.writers[id].writer, s.uploads[id], s.blobs, s.links, dgst, faults);
      assert s.writers[id] == Open(s.writers[id].writer);
      EndKeeps(hash, s.(blobs := o.blobs, links := o.links), id, o.upload, o.writer);
    case CancelUpload(id, faults) =>
      CancelLeaves(c, s.writers[id], s.uploads[id], faults);
      EndKeeps(hash, s, id, Cancel(c, s.writers[id].writer, s.uploads[id], faults).0, s.writers[id].writer);
    case Drop(id) =>
    case PutBlob(repo, p, faults) => PutKeepsAddressed(hash, s, repo, p, faults);
  }

  lemma {:induction false} RunKeepsInvariant(hash: Hasher, c: Config, s: System, steps: seq<Step>)
    requires Invariant(hash, s) && Run(hash, c, s, steps)
    ensures Invariant(hash, Final(hash, c, s, steps))
    decreases |steps|
  {
    if steps != [] {
      StepKeepsInvariant(hash, c, s, steps[0]);
      RunKeepsInvariant(hash, c, Apply(hash, c, s, steps[0]), steps[1..]);
    }
  }

  /**
   From the empty store, whatever operations are interleaved on however many
   uploads and whichever driver calls fail, every blob hashes to the digest it
   is stored under, every link leads to a blob, and every live writer that is
   level with its file has hashed the whole file.
   */
  lemma BlobsStayAddressed(hash: Hasher, c: Config, steps: seq<Step>)
    requires Run(hash, c, Empty, steps)
    ensures var s := Final(hash, c, Empty, steps);
      && WellAddressed(hash, s.blobs) && LinksResolve(s.blobs, s.links)
      && (forall id :: id in s.writers ==>
          id in s.uploads && (s.writers[id].Open? ==> Live(s.writers[id].writer, s.uploads[id])))
  {
    RunKeepsInvariant(hash, c, Empty, steps);
  }

  // ---- runs without a gap ----

  /** The operation resumes the digest and meets a gap. */
  ghost predicate MeetsGap(c: Config, s: System, a: Step) {
    (a.WriteBytes? || a.ReadChunks? || a.CommitUpload?) && InUse(s, a.id) &&
        Gap(c, s.writers[a.id].writer, s.uploads[a.id])
  }

  ghost predicate GaplessRun(hash: Hasher, c: Config, s: System, steps: seq<Step>)
    requires Run(hash, c, s, steps)
    decreases |steps|
  {
    steps != [] ==> !MeetsGap(c, s, steps[0]) && GaplessRun(hash, c, Apply(hash, c, s, steps[0]), steps[1..])
  }

  ghost predicate HandleExact(c: Config, h: Handle, u: Upload) {
    || (Exact(u) && !h.writer.committed && (c.resumable ==> PrefixHashed(h.writer, u)))
    || (h.Ended? && Emptied(h.writer, u))
  }

  ghost predicate StatesExact(c: Config, s: System) {
    && (forall id :: id in s.uploads ==> Exact(s.uploads[id]) || Stale(s.uploads[id]))
    && (forall id :: id in s.writers ==> id in s.uploads && HandleExact(c, s.writers[id], s.uploads[id]))
  }

  lemma EmptiedExact(w: Writer, u: Upload)
    requires Emptied(w, u)
    ensures Exact(u) || Stale(u)
  {
    if !Stale(u) { assert forall o :: o in u.states ==> o == 0; }
  }

  lemma KeepExact(c: Config, s: System, id: UploadId, h: Handle, u: Upload)
    requires StatesExact(c, s) && HandleExact(c, h, u)
    ensures StatesExact(c, s.(uploads := s.uploads[id := u], writers := s.writers[id := h]))
  {
    if !Exact(u) { EmptiedExact(h.writer, u); }
  }

  lemma EndKeepsExact(c: Config, s: System, id: UploadId, u: Option<Upload>, w: Writer)
    requires StatesExact(c, s) && id in s.writers
    requires u.Some? ==> HandleExact(c, AfterFailure(s.writers[id], s.uploads[id], u.value, w), u.value)
    ensures StatesExact(c, EndWith(s, id, u, w))
  {
    if u.Some? { KeepExact(c, s, id, AfterFailure(s.writers[id], s.uploads[id], u.value, w), u.value); }
  }

  lemma CloseExact(c: Config, h: Handle, u: Upload, faults: set<Op>)
    requires HandleExact(c, h, u)
    ensures HandleExact(c, h, Close(c, h.writer, u, faults).upload)
  {
    if !(h.Ended? && Emptied(h.writer, u)) { CloseKeepsExact(c, h.writer, u, faults); }
  }

  /** Dropping the data of an exact upload empties it. */
  lemma EmptiedBy(w: Writer, u: Upload)
    requires HandleOk(Ended(w), u)
    ensures Emptied(w, u.(data := None))
  { }

  lemma CancelExact(c: Config, h: Handle, u: Upload, faults: set<Op>)
    requires HandleOk(h, u) && HandleExact(c, h, u)
    ensures var o := Cancel(c, h.writer, u, faults).0;
      o.Some? ==> HandleExact(c, AfterFailure(h, u, o.value, h.writer), o.value)
  {
    EmptiedBy(h.writer, u);
    if u.data.None? { CloseExact(c, h, u, faults); }
  }

  lemma CommitExact(hash: Hasher, c: Config, repo: string, w: Writer, u: Upload, blobs: map<Digest, Bytes>,
                    links: map<LinkKey, Digest>, dgst: Option<Digest>, faults: set<Op>)
    requires Live(w, u) && HandleExact(c, Open(w), u) && !Gap(c, w, u)
    ensures var o := Commit(hash, c, repo, w, u, blobs, links, dgst, faults);
      o.upload.Some? ==> HandleExact(c, AfterFailure(Open(w), u, o.upload.value, o.writer), o.upload.value)
  {
    var closed := Close(c, w, u, faults).upload;
    var v := Validate(hash, c, w, closed, Descriptor(Size(closed), dgst), faults);
    CloseKeepsHandle(c, Open(w), u, faults);
    CloseExact(c, Open(w), u, faults);
    ValidateExact(hash, c, w, closed, Descriptor(Size(closed), dgst), faults);
    ValidateKeepsLive(hash, c, w, closed, Descriptor(Size(closed), dgst), faults);
    if CommitFile !in faults && v.result.Ok? {
      FinishExact(hash, c, repo, v.writer, closed, blobs, links, v.result.value.digest.value, dgst.value, faults);
    }
  }

  lemma FinishExact(hash: Hasher, c: Config, repo: string, w: Writer, u: Upload, blobs: map<Digest, Bytes>,
                    links: map<LinkKey, Digest>, canonical: Digest, dgst: Digest, faults: set<Op>)
    requires Live(w, u) && HandleExact(c, Open(w), u)
    ensures var o := Finish(hash, c, repo, w, u, blobs, links, canonical, dgst, faults);
      o.upload.Some? ==> HandleExact(c, AfterFailure(Open(w), u, o.upload.value, o.writer), o.upload.value)
  {
    EmptiedBy(w, u);
  }

  lemma ValidateExact(hash: Hasher, c: Config, w: Writer, u: Upload, desc: Descriptor, faults: set<Op>)
    requires HandleExact(c, Open(w), u) && !Gap(c, w, u)
    ensures HandleExact(c, Open(Validate(hash, c, w, u, desc, faults).writer), u)
  {
    if c.resumable { ResumeKeepsPrefix(c, w, u, faults); }
  }

  lemma WriteExact(c: Config, w: Writer, u: Upload, a: Step)
    requires HandleExact(c, Open(w), u) && !Gap(c, w, u)
    requires (a.WriteBytes? && FailsWithin(a.fails, a.p)) || (a.ReadChunks? && ValidChunks(a.chunks))
    ensures var o := if a.WriteBytes? then Write(c, w, u, a.p, a.fails, a.faults)
      else ReadFrom(c, w, u, a.chunks, a.faults);
      HandleExact(c, Open(o.writer), o.upload)
  {
    if a.WriteBytes? { WriteKeepsExact(c, w, u, a.p, a.fails, a.faults); }
    else { ReadFromKeepsExact(c, w, u, a.chunks, a.faults); }
  }

  lemma OpenExact(c: Config, u: Upload, eager: bool)
    requires Exact(u)
    ensures HandleExact(c, Open(FreshWriter), OpenFile(u, eager))
  { }

  lemma StepKeepsExact(hash: Hasher, c: Config, s: System, a: Step)
    requires Invariant(hash, s) && StatesExact(c, s) && Enabled(s, a) && !MeetsGap(c, s, a)
    requires a.Resume? ==> !Stale(s.uploads[a.id])
    ensures StatesExact(c, Apply(hash, c, s, a))
  {
    match a
    case Create(id, eager, success) =>
      OpenExact(c, Upload(None, map[]), eager);
      KeepExact(c, s, id, Open(FreshWriter), OpenFile(Upload(None, map[]), eager));
    case Resume(id, eager) =>
      OpenExact(c, s.uploads[id], eager);
      KeepExact(c, s, id, Open(FreshWriter), OpenFile(s.uploads[id], eager));
    case WriteBytes(id, p, fails, faults) =>
      var o := Write(c, s.writers[id].writer, s.uploads[id], p, fails, faults);
      WriteExact(c, s.writers[id].writer, s.uploads[id], a);
      KeepExact(c, s, id, Open(o.writer), o.upload);
    case ReadChunks(id, chunks, faults) =>
      var o := ReadFrom(c, s.writers[id].writer, s.uploads[id], chunks, faults);
      WriteExact(c, s.writers[id].writer, s.uploads[id], a);
      KeepExact(c, s, id, Open(o.writer), o.upload);
    case CloseWriter(id, faults) =>
      CloseExact(c, s.writers[id], s.uploads[id], faults);
      KeepExact(c, s, id, s.writers[id], Close(c, s.writers[id].writer, s.uploads[id], faults).upload);
      assert s.writers[id := s.writers[id]] == s.writers;
    case CommitUpload(id, dgst, faults) =>
      var o := Commit(hash, c, id.repo, s.writers[id].writer, s.uploads[id], s.blobs, s.links, dgst, faults);
      CommitExact(hash, c, id.repo, s.writers[id].writer, s.uploads[id], s.blobs, s.links, dgst, faults);
      assert s.writers[id] == Open(s.writers[id].writer);
      EndKeepsExact(c, s.(blobs := o.blobs, links := o.links), id, o.upload, o.writer);
    case CancelUpload(id, faults) =>
      CancelExact(c, s.writers[id], s.uploads[id], faults);
      EndKeepsExact(c, s, id, Cancel(c, s.writers[id].writer, s.uploads[id], faults).0, s.writers[id].writer);
    case Drop(id) =>
    case PutBlob(repo, p, faults) =>
  }

  lemma {:induction false} GaplessKeepsExact(hash: Hasher, c: Config, s: System, steps: seq<Step>)
    requires Invariant(hash, s) && StatesExact(c, s) && Run(hash, c, s, steps) && GaplessRun(hash, c, s, steps)
    ensures StatesExact(c, Final(hash, c, s, steps))
    decreases |steps|
  {
    if steps != [] {
      StepKeepsInvariant(hash, c, s, steps[0]);
      StepKeepsExact(hash, c, s, steps[0]);
      GaplessKeepsExact(hash, c, Apply(hash, c, s, steps[0]), steps[1..]);
    }
  }

  /**
   From the empty store, in every run that meets no gap, every saved hash state is that of the prefix
   it is named for, in every upload that has not lost its data.
   */
  lemma StatesArePrefixes(hash: Hasher, c: Config, steps: seq<Step>)
    requires Run(hash, c, Empty, steps) && GaplessRun(hash, c, Empty, steps)
    ensures var s := Final(hash, c, Empty, steps);
      forall id :: id in s.uploads ==> Exact(s.uploads[id]) || Stale(s.uploads[id])
  {
    GaplessKeepsExact(hash, c, Empty, steps);
  }

  // ---- why stale uploads must not be resumed ----

  /** Runs with no regard for stale uploads. */
  ghost predicate AnyRun(hash: Hasher, c: Config, s: System, steps: seq<Step>, end: System)
    decreases |steps|
  {
    if steps == [] then s == end
    else Enabled(s, steps[0]) && AnyRun(hash, c, Apply(hash, c, s, steps[0]), steps[1..], end)
  }

  lemma {:induction false} RunsConcat(hash: Hasher, c: Config, s: System, a: seq<Step>, mid: System, b: seq<Step>,
                                      end: System)
    requires AnyRun(hash, c, s, a, mid) && AnyRun(hash, c, mid, b, end)
    ensures AnyRun(hash, c, s, a + b, end)
    decreases |a|
  {
    if a == [] { assert a + b == b; }
    else {
      RunsConcat(hash, c, Apply(hash, c, s, a[0]), a[1..], mid, b, end);
      assert (a + b)[1..] == a[1..] + b;
    }
  }

  /**
   A text that continues the upload up to the offset of a stale state, other than the one that state was made from.
   */
  lemma StaleText(u: Upload, o: nat) returns (b: Bytes)
    requires o in u.states && o > Size(u)
    ensures |b| == o - Size(u) && Content(u) + b != u.states[o]
  {
    var zeros: Bytes, ones: Bytes := seq(o - Size(u), _ => 0), seq(o - Size(u), _ => 1);
    b := if u.states[o] == Content(u) + zeros then ones else zeros;
    assert (Content(u) + zeros)[Size(u)] == 0 && (Content(u) + ones)[Size(u)] == 1;
  }

  /** Resume, write, lose the writer, resume, write on and commit: no driver call fails. */
  function UnsafeSteps(id: UploadId, b: Bytes, x: Bytes, d: Digest): seq<Step> {
    [Resume(id, false), WriteBytes(id, b, None, {}), Drop(id)]
    + [Resume(id, false), WriteBytes(id, x, None, {}), CommitUpload(id, Some(d), {})]
  }

  lemma {:induction false} ThreeSteps(hash: Hasher, c: Config, s: System, x: Step, y: Step, z: Step)
    requires Enabled(s, x) && Enabled(Apply(hash, c, s, x), y)
    requires Enabled(Apply(hash, c, Apply(hash, c, s, x), y), z)
    ensures AnyRun(hash, c, s, [x, y, z], Apply(hash, c, Apply(hash, c, Apply(hash, c, s, x), y), z))
  {
    var s1 := Apply(hash, c, s, x);
    var s2 := Apply(hash, c, s1, y);
    var end := Apply(hash, c, s2, z);
    assert [z][1..] == [] && AnyRun(hash, c, end, [], end);
    assert [y, z][1..] == [z] && AnyRun(hash, c, s2, [z], end);
    assert [x, y, z][1..] == [y, z] && AnyRun(hash, c, s1, [y, z], end);
  }

  lemma ResumedWrite(hash: Hasher, c: Config, s: System, id: UploadId, b: Bytes)
    requires id in s.uploads && id !in s.writers
    ensures AnyRun(hash, c, s, [Resume(id, false), WriteBytes(id, b, None, {}), Drop(id)],
                   s.(uploads := s.uploads[id := Append(s.uploads[id], b)]))
  {
    var s1 := Apply(hash, c, s, Resume(id, false));
    assert s1.uploads == s.uploads;
    var s2 := Apply(hash, c, s1, WriteBytes(id, b, None, {}));
    assert s2.uploads == s.uploads[id := Append(s.uploads[id], b)];
    assert s2.writers - {id} == s.writers;
    ThreeSteps(hash, c, s, Resume(id, false), WriteBytes(id, b, None, {}), Drop(id));
  }

  lemma ResumedCommit(hash: Hasher, c: Config, s: System, id: UploadId, x: Bytes, d: Digest) returns (end: System)
    requires id in s.uploads && id !in s.writers
    ensures AnyRun(hash, c, s, [Resume(id, false), WriteBytes(id, x, None, {}), CommitUpload(id, Some(d), {})], end)
    ensures var o := Write(c, FreshWriter, s.uploads[id], x, None, {});
      end.blobs == Commit(hash, c, id.repo, o.writer, o.upload, s.blobs, s.links, Some(d), {}).blobs
  {
    var s1 := Apply(hash, c, s, Resume(id, false));
    assert s1.uploads == s.uploads;
    var s2 := Apply(hash, c, s1, WriteBytes(id, x, None, {}));
    end := Apply(hash, c, s2, CommitUpload(id, Some(d), {}));
    ThreeSteps(hash, c, s, Resume(id, false), WriteBytes(id, x, None, {}), CommitUpload(id, Some(d), {}));
  }

  /** Writing on trusts the state saved for the length of the file. */
  lemma StaleWrite(c: Config, v: Upload, x: Bytes)
    requires c.resumable && v.data.Some? && Size(v) > 0 && Size(v) in v.states
    ensures var o, t := Write(c, FreshWriter, v, x, None, {}), v.states[Size(v)] + x;
      && o.writer == Writer(Size(v) + |x|, t, false) && o.upload.data == Some(Content(v) + x)
  {
    assert Content(v) + [] == Content(v);
  }

  /** A commit by a writer level with its file trusts what the writer has hashed. */
  lemma LevelCommit(hash: Hasher, c: Config, repo: string, w: Writer, v: Upload, blobs: map<Digest, Bytes>,
                    links: map<LinkKey, Digest>)
    requires c.resumable && v.data.Some? && w.written == Size(v) && !w.committed
    requires Sum(hash, CANONICAL, w.absorbed) !in blobs
    ensures var d := Sum(hash, CANONICAL, w.absorbed);
      Commit(hash, c, repo, w, v, blobs, links, Some(d), {}).blobs == blobs[d := Content(v)]
  {
    var d := Sum(hash, CANONICAL, w.absorbed);
    var closed := Close(c, w, v, {}).upload;
    assert closed.data == v.data && Size(closed) == w.written;
    var o := Validate(hash, c, w, closed, Descriptor(Size(closed), Some(d)), {});
    assert o.result == Ok(Descriptor(Size(v), Some(d)));
  }

  /**
   An idle stale upload corrupts the store in a run in which no driver call fails: whatever text continues it
   up to the offset of the stale state, and whatever is written after that, is stored under the digest of the
   text that state was made from, continued in the same way.
   */
  lemma StaleIsUnsafe(hash: Hasher, c: Config, s: System, id: UploadId, o: nat, b: Bytes, x: Bytes)
    returns (end: System)
    requires c.resumable && id in s.uploads && id !in s.writers
    requires o in s.uploads[id].states && |b| == o - Size(s.uploads[id]) > 0
    requires Sum(hash, CANONICAL, s.uploads[id].states[o] + x) !in s.blobs
    ensures AnyRun(hash, c, s, UnsafeSteps(id, b, x, Sum(hash, CANONICAL, s.uploads[id].states[o] + x)), end)
    ensures end.blobs == s.blobs[Sum(hash, CANONICAL, s.uploads[id].states[o] + x) := Content(s.uploads[id]) + b + x]
  {
    var u, d := s.uploads[id], Sum(hash, CANONICAL, s.uploads[id].states[o] + x);
    var v := Append(u, b);
    var mid := s.(uploads := s.uploads[id := v]);
    ResumedWrite(hash, c, s, id, b);
    end := ResumedCommit(hash, c, mid, id, x, d);
    var steps := UnsafeSteps(id, b, x, d);
    RunsConcat(hash, c, s, steps[..3], mid, steps[3..], end);
    assert steps[..3] + steps[3..] == steps;
    StaleWrite(c, v, x);
    var w := Write(c, FreshWriter, v, x, None, {});
    LevelCommit(hash, c, id.repo, w.writer, w.upload, s.blobs, s.links);
  }

  /** A hash that tells all texts apart. */
  ghost predicate Tells(hash: Hasher) {
    forall a, b :: hash(CANONICAL, a) == hash(CANONICAL, b) ==> a == b
  }

  function Zeros(k: nat): Bytes {
    seq(k, _ => 0)
  }

  /** Of the texts that continue one, only finitely many can have a stored digest. */
  lemma {:induction false} UnstoredText(hash: Hasher, ds: set<Digest>, t: Bytes, from: nat) returns (k: nat)
    requires Tells(hash)
    ensures k >= from && Sum(hash, CANONICAL, t + Zeros(k)) !in ds
    decreases |ds|
  {
    var d := Sum(hash, CANONICAL, t + Zeros(from));
    if d !in ds { k := from; }
    else {
      k := UnstoredText(hash, ds - {d}, t, from + 1);
      assert |t + Zeros(k)| != |t + Zeros(from)|;
    }
  }

  lemma {:induction false} SameEnd(a: Bytes, b: Bytes, x: Bytes)
    requires a + x == b + x
    ensures a == b
  {
    assert |a| == |b|;
    assert a == (a + x)[..|a|] && b == (b + x)[..|b|];
  }

  /** However good the hash and whatever is stored already, every idle stale upload can corrupt the store. */
  lemma EveryStaleCorrupts(hash: Hasher, c: Config, s: System, id: UploadId) returns (steps: seq<Step>, end: System)
    requires c.resumable && Tells(hash) && id in s.uploads && id !in s.writers && Stale(s.uploads[id])
    ensures AnyRun(hash, c, s, steps, end) && !WellAddressed(hash, end.blobs)
  {
    var u := s.uploads[id];
    var o :| o in u.states && o > Size(u);
    var b := StaleText(u, o);
    var k := UnstoredText(hash, s.blobs.Keys, u.states[o], 0);
    var x := Zeros(k);
    var d := Sum(hash, CANONICAL, u.states[o] + x);
    end := StaleIsUnsafe(hash, c, s, id, o, b, x);
    steps := UnsafeSteps(id, b, x, d);
    if Content(u) + b + x == u.states[o] + x { SameEnd(Content(u) + b, u.states[o], x); }
    assert d in end.blobs && Sum(hash, CANONICAL, end.blobs[d]) != d;
  }

  /**
   The two ways in which an upload becomes stale, both with the directory left behind: a cancellation drops the
   data, and a commit moves it away, after which the stale state names a stored blob.
   */
  lemma FailuresLeaveStale(hash: Hasher, c: Config, repo: string, w: Writer, u: Upload, blobs: map<Digest, Bytes>,
                           links: map<LinkKey, Digest>)
    requires c.resumable && Live(w, u) && w.written == Size(u) > 0
    ensures var v := Cancel(c, w, u, {RemoveDir}).0; v.Some? && Stale(v.value) && v.value.data.None?
    ensures var d := Sum(hash, CANONICAL, Content(u));
      d !in blobs ==>
        var o := Commit(hash, c, repo, w, u, blobs, links, Some(d), {RemoveDir});
        && o.upload.Some? && Stale(o.upload.value) && o.upload.value.data.None?
        && Size(u) in o.upload.value.states
        && Sum(hash, CANONICAL, o.upload.value.states[Size(u)]) == d && d in o.blobs
  {
    assert Size(u) in Cancel(c, w, u, {RemoveDir}).0.value.states;
    var d := Sum(hash, CANONICAL, Content(u));
    if d !in blobs {
      var closed := Close(c, w, u, {RemoveDir}).upload;
      var v := Validate(hash, c, w, closed, Descriptor(Size(closed), Some(d)), {RemoveDir});
      assert v.result == Ok(Descriptor(Size(u), Some(d)));
      assert Size(u) in Commit(hash, c, repo, w, u, blobs, links, Some(d), {RemoveDir}).upload.value.states;
    }
  }

  /** An upload whose cancellation takes the data away but not the directory. */
  function StaleSteps(id: UploadId, a: Bytes): seq<Step> {
    [Create(id, false, true), WriteBytes(id, a, None, {}), CancelUpload(id, {RemoveDir}), Drop(id)]
  }

  /** A store holding one upload and nothing else. */
  function Only(id: UploadId, u: Upload, h: Option<Handle>): System {
    System(map[], map[], map[id := u], if h.Some? then map[id := h.value] else map[])
  }

  lemma MakeStale(hash: Hasher, c: Config, id: UploadId, a: Bytes)
    requires c.resumable && |a| > 0
    ensures AnyRun(hash, c, Empty, StaleSteps(id, a), Only(id, Upload(None, map[|a| := a]), None))
  {
    forall i: nat | i < 4 ensures StaleLink(hash, c, id, a, i) { StaleLinks(hash, c, id, a, i); }
    StaleRun(hash, c, id, a, 0);
    assert StaleSteps(id, a)[0..] == StaleSteps(id, a);
  }

  /** The states that run goes through. */
  function StaleState(id: UploadId, a: Bytes, i: nat): System {
    var u, w := Upload(None, map[|a| := a]), Writer(|a|, a, false);
    if i == 0 then Empty
    else if i == 1 then Only(id, Upload(None, map[]), Some(Open(FreshWriter)))
    else if i == 2 then Only(id, Upload(Some(a), map[]), Some(Open(w)))
    else if i == 3 then Only(id, u, Some(Ended(w)))
    else Only(id, u, None)
  }

  ghost predicate StaleLink(hash: Hasher, c: Config, id: UploadId, a: Bytes, i: nat)
    requires i < 4
  {
    var step := StaleSteps(id, a)[i];
    Enabled(StaleState(id, a, i), step) && Apply(hash, c, StaleState(id, a, i), step) == StaleState(id, a, i + 1)
  }

  lemma StaleLinks(hash: Hasher, c: Config, id: UploadId, a: Bytes, i: nat)
    requires c.resumable && |a| > 0 && i < 4
    ensures StaleLink(hash, c, id, a, i)
  {
    var none: Bytes := [];
    assert none + a == a;
  }

  lemma {:induction false} StaleRun(hash: Hasher, c: Config, id: UploadId, a: Bytes, i: nat)
    requires i <= 4 && forall k: nat :: k < 4 ==> StaleLink(hash, c, id, a, k)
    ensures AnyRun(hash, c, StaleState(id, a, i), StaleSteps(id, a)[i..], StaleState(id, a, 4))
    decreases 4 - i
  {
    if i < 4 {
      assert StaleLink(hash, c, id, a, i);
      StaleRun(hash, c, id, a, i + 1);
      assert StaleSteps(id, a)[i..][1..] == StaleSteps(id, a)[i + 1..];
    }
  }

  /**
   Hence the store can be corrupted from nothing: for any two equally long texts with different
   digests, this run stores the second under the digest of the first.
   */
  lemma StaleResumeCorrupts(hash: Hasher, mirror: bool, id: UploadId, a: Bytes, b: Bytes) returns (end: System)
    requires |a| == |b| > 0 && Sum(hash, CANONICAL, a) != Sum(hash, CANONICAL, b)
    ensures var steps := StaleSteps(id, a) + UnsafeSteps(id, b, [], Sum(hash, CANONICAL, a));
      AnyRun(hash, Config(true, mirror), Empty, steps, end) && !WellAddressed(hash, end.blobs)
  {
    var c, mid := Config(true, mirror), Only(id, Upload(None, map[|a| := a]), None);
    MakeStale(hash, c, id, a);
    assert Content(mid.uploads[id]) + b + [] == b && a + [] == a;
    end := StaleIsUnsafe(hash, c, mid, id, |a|, b, []);
    RunsConcat(hash, c, Empty, StaleSteps(id, a), mid, UnsafeSteps(id, b, [], Sum(hash, CANONICAL, a)), end);
    assert end.blobs[Sum(hash, CANONICAL, a)] == b;
  }
}
