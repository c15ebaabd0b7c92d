/** The blob writer as it runs: an object whose methods change its fields and the files of the store. */
module BlobWriter {
  import opened Text
  import opened Numerals
  import opened BlobUpload
  import opened UploadRuns

  /** The files of the storage driver, by what their paths stand for. */
  class Storage {
    var blobs: map<Digest, Bytes>
    var links: map<LinkKey, Digest>
    var uploads: map<UploadId, Upload>

    constructor ()
      ensures blobs == map[] && links == map[] && uploads == map[]
    {
      blobs, links, uploads := map[], map[], map[];
    }
  }

  /** The driver lists the files of saved states, named by their offsets, in an order of its own. */
  method ListNames(u: Upload) returns (names: seq<string>)
    ensures forall o :: o in u.states ==> Decimal(o) in names
    ensures forall i :: 0 <= i < |names| ==> Number(names[i]) in u.states
  {
    names := [];
    var left := u.states.Keys;
    while left != {}
      invariant left <= u.states.Keys
      invariant forall o :: o in u.states && o !in left ==> Decimal(o) in names
      invariant forall i :: 0 <= i < |names| ==> Number(names[i]) in u.states
      decreases left
    {
      var o :| o in left;
      NumberOfDecimal(o);
      names := names + [Decimal(o)];
      left := left - {o};
    }
  }

  /** The offsets read from those names. */
  method ListOffsets(u: Upload) returns (offsets: seq<int>)
    ensures forall o: nat :: o in offsets <==> o in u.states
  {
    var names := ListNames(u);
    offsets := ReadOffsets(names);
    NamedOffsets(u, names, offsets);
  }

  method ReadOffsets(names: seq<string>) returns (offsets: seq<int>)
    ensures |offsets| == |names| && forall k :: 0 <= k < |names| ==> offsets[k] == Number(names[k])
  {
    offsets := [];
    var i := 0;
    while i < |names|
      invariant 0 <= i == |offsets| <= |names| && forall k :: 0 <= k < i ==> offsets[k] == Number(names[k])
    {
      var offset := Number(names[i]);
      offsets := offsets + [offset];
      i := i + 1;
    }
  }

  lemma {:induction false} NamedOffsets(u: Upload, names: seq<string>, offsets: seq<int>)
    requires |offsets| == |names| && forall k :: 0 <= k < |names| ==> offsets[k] == Number(names[k])
    requires forall o :: o in u.states ==> Decimal(o) in names
    requires forall i :: 0 <= i < |names| ==> Number(names[i]) in u.states
    ensures forall o: nat :: o in offsets <==> o in u.states
  {
    forall o | o in u.states ensures o in offsets { OffsetOf(o, names, offsets); }
  }

  lemma {:induction false} OffsetOf(o: nat, names: seq<string>, offsets: seq<int>)
    requires |offsets| == |names| && (forall k :: 0 <= k < |names| ==>
      offsets[k] == Number(names[k])) && Decimal(o) in names
    ensures o in offsets
  {
    var name := Decimal(o);
    NumberOfDecimal(o);
    var k :| 0 <= k < |names| && names[k] == name;
    assert offsets[k] == o;
  }

  class Writing {
    const hash: Hasher
    const config: Config
    const id: UploadId
    const store: Storage
    var written: nat
    var absorbed: Bytes
    var committed: bool

    ghost function View(): Writer
      reads this
    {
      Writer(written, absorbed, committed)
    }

    constructor (hash: Hasher, config: Config, id: UploadId, store: Storage)
      ensures this.hash == hash && this.config == config && this.id == id && this.store == store &&
        View() == FreshWriter
    {
      this.hash, this.config, this.id, this.store := hash, config, id, store;
      written, absorbed, committed := 0, [], false;
    }

    method ResumeDigest(faults: set<Op>) returns (status: Resumed)
      requires id in store.uploads
      modifies this
      ensures ResumeOutcome(View(), status) == BlobUpload.ResumeDigest(config, old(View()), store.uploads[id], faults)
    {
      if !config.resumable { return NotAvailable; }
      var u := store.uploads[id];
      var offset := Size(u);
      if offset == written { return Ready; }
      if ListStates in faults { return Failed; }
      var offsets := ListOffsets(u);
      var found := 0;
      var i := 0;
      while i < |offsets|
        invariant 0 <= i <= |offsets|
        invariant found == 0 && forall k :: 0 <= k < i ==> offsets[k] != offset
      {
        if offsets[i] == offset { found := offset; break; }
        i := i + 1;
      }
      assert i == |offsets| ==> offset !in offsets;
      if found == 0 {
        absorbed := [];
      } else {
        if GetState in faults { return Failed; }
        absorbed, written := u.states[found], found;
      }
      return if offset - written > 0 then NotAvailable else Ready;
    }

    method StoreHashState()
      requires id in store.uploads
      modifies store`uploads
      ensures var u := BlobUpload.StoreHashState(config, View(), old(store.uploads[id]));
        store.uploads == old(store.uploads)[id := u]
    {
      if config.resumable {
        var u := store.uploads[id];
        store.uploads := store.uploads[id := u.(states := u.states[written := absorbed])];
      }
    }

    method Write(p: Bytes, fails: Option<nat>, faults: set<Op>) returns (r: Result<nat>)
      requires id in store.uploads && FailsWithin(fails, p)
      modifies this, store`uploads
      ensures var o := BlobUpload.Write(config, old(View()), old(store.uploads[id]), p, fails, faults);
        View() == o.writer && r == o.result && store.uploads == old(store.uploads)[id := o.upload]
    {
      var status := ResumeDigest(faults);
      if status == Failed { return Err(DriverError); }
      if fails.Some? {
        store.uploads := store.uploads[id := Append(store.uploads[id], p[..fails.value])];
        return Err(DriverError);
      }
      store.uploads := store.uploads[id := Append(store.uploads[id], p)];
      absorbed, written := absorbed + p, written + |p|;
      return Ok(|p|);
    }

    /** The file holds the upload `u` and then `delivered`, and the hash has absorbed as much after `before`. */
    ghost predicate Holds(u: Upload, delivered: Bytes, before: Bytes)
      reads this, store
    {
      id in store.uploads && store.uploads[id] == Append(u, delivered) && absorbed == before + delivered
    }

    /** Writes to the file first, and what the file took to the hash. */
    method Tee(q: Bytes, ghost u: Upload, ghost delivered: Bytes, ghost before: Bytes)
      requires Holds(u, delivered, before)
      modifies this`absorbed, store`uploads
      ensures Holds(u, delivered + q, before) && store.uploads == old(store.uploads)[id := Append(u, delivered + q)]
    {
      AppendTwice(u, delivered, q);
      store.uploads := store.uploads[id := Append(store.uploads[id], q)];
      absorbed := absorbed + q;
    }

    /** Copies chunk after chunk to the file and, as far as the file took it, to the hash, until an error or the end. */
    method CopyChunks(chunks: seq<Chunk>) returns (nn: nat, err: Option<Error>)
      requires id in store.uploads && ValidChunks(chunks)
      modifies this`absorbed, store`uploads
      ensures absorbed == old(absorbed) + Delivered(chunks) && nn == |Delivered(chunks)| && err == FirstFault(chunks)
      ensures store.uploads == old(store.uploads)[id := Append(old(store.uploads[id]), Delivered(chunks))]
    {
      ghost var u, before := store.uploads[id], absorbed;
      ghost var delivered: Bytes := [];
      var i := 0;
      nn, err := 0, None;
      CopyStart(u, chunks);
      while i < |chunks| && err.None?
        invariant 0 <= i <= |chunks| && nn == |delivered| && Holds(u, delivered, before)
        invariant store.uploads == old(store.uploads)[id := Append(u, delivered)]
        invariant err.None? ==> CopiedUpTo(chunks, i, delivered)
        invariant err.Some? ==> err == FirstFault(chunks) && Delivered(chunks) == delivered
        decreases |chunks| - i, err.None?
      {
        var k := chunks[i];
        var q := k.bytes[..k.accepted];
        CopyNext(chunks, i, delivered);
        Tee(q, u, delivered, before);
        nn, delivered := nn + |q|, delivered + q;
        err := k.fault;
        if err.None? { i := i + 1; }
      }
      if err.None? { CopyEnd(chunks, delivered); }
    }

    method ReadFrom(chunks: seq<Chunk>, faults: set<Op>) returns (r: Result<nat>)
      requires id in store.uploads && ValidChunks(chunks)
      modifies this, store`uploads
      ensures var o := BlobUpload.ReadFrom(config, old(View()), old(store.uploads[id]), chunks, faults);
        View() == o.writer && r == o.result && store.uploads == old(store.uploads)[id := o.upload]
    {
      var status := ResumeDigest(faults);
      if status == Failed { return Err(DriverError); }
      var nn, err := CopyChunks(chunks);
      written := written + nn;
      return if err.Some? then Err(err.value) else Ok(nn);
    }

    method Close(faults: set<Op>) returns (r: Result<()>)
      requires id in store.uploads
      modifies store`uploads
      ensures var o := BlobUpload.Close(config, View(), old(store.uploads[id]), faults);
        r == o.result && store.uploads == old(store.uploads)[id := o.upload]
    {
      if committed { return Err(AlreadyCommitted); }
      if config.resumable && PutState in faults { return Err(DriverError); }
      StoreHashState();
      return if CloseFile in faults then Err(DriverError) else Ok(());
    }

    method ValidateBlob(desc: Descriptor, faults: set<Op>) returns (r: Result<Descriptor>)
      requires id in store.uploads
      modifies this
      ensures ValidateOutcome(View(), r) == Validate(hash, config, old(View()), store.uploads[id], desc, faults)
    {
      if desc.digest.None? { return Err(EmptyDigest); }
      var dgst, u := desc.digest.value, store.uploads[id];
      var wanted, size := desc.size, 0;
      if StatUpload in faults { return Err(DriverError); }
      if u.data.None? { wanted := 0; } else { size := |u.data.value|; }
      if wanted > 0 {
        if wanted != size { return Err(InvalidLength); }
      } else {
        wanted := size;
      }
      var verified, fullHash := false, false;
      var canonical := Sum(hash, CANONICAL, []);
      var status := ResumeDigest(faults);
      if status == Ready {
        canonical := Sum(hash, CANONICAL, absorbed);
        if canonical.alg == dgst.alg { verified := dgst == canonical; } else { fullHash := true; }
      } else if status == NotAvailable {
        fullHash := true;
      } else {
        return Err(DriverError);
      }
      if fullHash {
        if written == size && dgst.alg == CANONICAL {
          canonical := Sum(hash, CANONICAL, absorbed);
          verified := dgst == canonical;
        }
        if !verified {
          if ReadBack in faults { return Err(DriverError); }
          canonical := Sum(hash, CANONICAL, Content(u));
          verified := Sum(hash, dgst.alg, Content(u)) == dgst;
        }
      }
      if !verified { return Err(InvalidDigest); }
      return Ok(Descriptor(wanted, Some(canonical)));
    }

    method MoveBlob(d: Digest, faults: set<Op>) returns (r: Result<()>)
      requires id in store.uploads
      modifies store`blobs, store`uploads
      ensures var m := BlobUpload.MoveBlob(hash, old(store.blobs), old(store.uploads[id]), d, faults);
        r == m.result && store.blobs == m.blobs && store.uploads == old(store.uploads)[id := m.upload]
    {
      if StatBlob in faults { return Err(DriverError); }
      if d in store.blobs { return Ok(()); }
      if StatSource in faults { return Err(DriverError); }
      var u := store.uploads[id];
      if u.data.None? {
        if d == Sum(hash, CANONICAL, []) {
          if BlobUpload.Op.PutBlob in faults { return Err(DriverError); }
          store.blobs := store.blobs[d := []];
          return Ok(());
        }
        return Err(SourceMissing);
      }
      if Move in faults { return Err(DriverError); }
      store.blobs := store.blobs[d := u.data.value];
      store.uploads := store.uploads[id := u.(data := None)];
      return Ok(());
    }

    /** Links the canonical digest and the aliases, skipping digests seen already. */
    method LinkBlob(canonical: Digest, alias: Digest, faults: set<Op>) returns (r: Result<()>)
      modifies store`links
      ensures var l := BlobUpload.LinkBlob(old(store.links), id.repo, canonical, alias, faults);
        r == l.result && store.links == l.links
    {
      var dgsts, seen: set<Digest> := [canonical, alias], {};
      var i := 0;
      while i < |dgsts|
        invariant 0 <= i <= 2
        invariant i == 0 ==> seen == {} && store.links == old(store.links)
        invariant i >= 1 ==> LinkCanonical !in faults && canonical in seen
        invariant i == 1 ==>
          seen == {canonical} && store.links == old(store.links)[LinkKey(id.repo, canonical) := canonical]
        invariant i == 2 ==>
          BlobUpload.LinkBlob(old(store.links), id.repo, canonical, alias, faults) == LinkOutcome(store.links, Ok(()))
      {
        var d := dgsts[i];
        if d !in seen {
          seen := seen + {d};
          if (if i == 0 then LinkCanonical in faults else LinkAlias in faults) { return Err(DriverError); }
          store.links := store.links[LinkKey(id.repo, d) := canonical];
        }
        i := i + 1;
      }
      return Ok(());
    }

    /** Moves, links and cleans up, once the canonical digest is known. */
    method Finish(canonical: Digest, dgst: Digest, faults: set<Op>) returns (r: Result<Descriptor>)
      requires id in store.uploads
      modifies this, store
      ensures var o := BlobUpload.Finish(hash, config, id.repo, old(View()), old(store.uploads[id]), old(store.blobs),
        old(store.links), canonical, dgst, faults);
        && r == o.result && View() == o.writer && store.blobs == o.blobs && store.links == o.links
        && store.uploads == SetUpload(old(store.uploads), id, o.upload)
    {
      var size := Size(store.uploads[id]);
      var m := MoveBlob(canonical, faults);
      if m.Err? { return Err(m.error); }
      if config.mirror {
        var l := LinkBlob(canonical, dgst, faults);
        if l.Err? { return Err(l.error); }
      }
      if RemoveDir in faults { return Err(DriverError); }
      store.uploads := store.uploads - {id};
      committed := true;
      return Ok(Descriptor(size, Some(canonical)));
    }

    method Commit(dgst: Option<Digest>, faults: set<Op>) returns (r: Result<Descriptor>)
      requires id in store.uploads
      modifies this, store
      ensures var o := BlobUpload.Commit(hash, config, id.repo, old(View()), old(store.uploads[id]), old(store.blobs),
        old(store.links), dgst, faults);
        && r == o.result && View() == o.writer && store.blobs == o.blobs && store.links == o.links
        && store.uploads == SetUpload(old(store.uploads), id, o.upload)
    {
      if CommitFile in faults {
        assert store.uploads == store.uploads[id := store.uploads[id]];
        return Err(DriverError);
      }
      var _ := Close(faults);
      var desc := Descriptor(Size(store.uploads[id]), dgst);
      var v := ValidateBlob(desc, faults);
      if v.Err? { return Err(v.error); }
      r := Finish(v.value.digest.value, dgst.value, faults);
    }

    method Cancel(faults: set<Op>) returns (r: Result<()>)
      requires id in store.uploads
      modifies store`uploads
      ensures var o := BlobUpload.Cancel(config, View(), old(store.uploads[id]), faults);
        r == o.1 && store.uploads == SetUpload(old(store.uploads), id, o.0)
    {
      if CancelFile in faults {
        assert store.uploads == store.uploads[id := store.uploads[id]];
        return Err(DriverError);
      }
      store.uploads := store.uploads[id := store.uploads[id].(data := None)];
      var _ := Close(faults);
      if RemoveDir in faults { return Err(DriverError); }
      store.uploads := store.uploads - {id};
      return Ok(());
    }
  }

  /** The first `i` chunks were taken whole and were delivered. */
  ghost predicate CopiedUpTo(chunks: seq<Chunk>, i: nat, delivered: Bytes)
    requires ValidChunks(chunks)
  {
    && i <= |chunks| && Delivered(chunks) == delivered + Delivered(chunks[i..])
    && FirstFault(chunks) == FirstFault(chunks[i..])
  }

  lemma CopyStart(u: Upload, chunks: seq<Chunk>)
    requires ValidChunks(chunks)
    ensures CopiedUpTo(chunks, 0, []) && Append(u, []) == u
  {
    assert chunks[0..] == chunks;
  }

  lemma CopyNext(chunks: seq<Chunk>, i: nat, delivered: Bytes)
    requires ValidChunks(chunks) && i < |chunks| && CopiedUpTo(chunks, i, delivered)
    ensures var q := chunks[i].bytes[..chunks[i].accepted];
      if chunks[i].fault.Some? then FirstFault(chunks) == chunks[i].fault && Delivered(chunks) == delivered + q
      else CopiedUpTo(chunks, i + 1, delivered + q)
  {
    var rest := chunks[i..];
    assert rest[0] == chunks[i] && rest[1..] == chunks[i + 1..];
    if chunks[i].fault.None? {
      assert delivered + (rest[0].bytes + Delivered(rest[1..])) == delivered + rest[0].bytes + Delivered(rest[1..]);
    }
  }

  lemma CopyEnd(chunks: seq<Chunk>, delivered: Bytes)
    requires ValidChunks(chunks) && CopiedUpTo(chunks, |chunks|, delivered)
    ensures FirstFault(chunks) == None && Delivered(chunks) == delivered
  { }

  lemma AppendTwice(u: Upload, p: Bytes, q: Bytes)
    ensures Append(Append(u, p), q) == Append(u, p + q)
  {
    assert Content(u) + p + q == Content(u) + (p + q);
    if p == [] { assert p + q == q; }
    if q == [] { assert p + q == p; }
  }
}
