/** The importer as it runs: loops of upserts against a database that is updated in place. */
module ImportSession {
  import opened Text
  import RepositoryTree
  import opened Importer

  class Session {
    var db: Database
    const w: World
    const r: Repo

    constructor (w: World, r: Repo, db: Database)
      ensures this.w == w && this.r == r && this.db == db
    {
      this.w, this.r, this.db := w, r, db;
    }

    /** Fails when the digest cannot be stored or the media type is unknown; finds an existing blob otherwise. */
    method CreateOrFindBlob(d: Descriptor) returns (b: Option<Blob>)
      modifies this
      ensures !Good(w, d) ==> b == None && db == old(db)
      ensures Good(w, d) ==>
        db == old(db).(tables := AddBlob(old(db).tables, d)) && b == Some(db.tables.blobs[d.digest])
    {
      if !w.storable(d.digest) || d.mediaType !in w.mediaTypes { return None; }
      if d.digest !in db.tables.blobs {
        db := db.(tables := db.tables.(blobs := db.tables.blobs[d.digest := Blob(d.mediaType, d.size)]));
      }
      b := Some(db.tables.blobs[d.digest]);
    }

    method ImportOneLayer(m: Digest, l: Descriptor)
      modifies this
      ensures db == old(db).(tables := ImportLayer(w, r, m, old(db).tables, l))
    {
      var b := CreateOrFindBlob(l);
      if b.None? { return; }
      db := db.(tables := AssociateLayer(db.tables, r, m, l.digest, b.value));
      db := db.(tables := LinkBlob(db.tables, r, l.digest));
    }

    /** A layer that fails is logged and skipped. */
    method ImportAllLayers(m: Digest, ls: seq<Descriptor>)
      modifies this
      ensures db == old(db).(tables := ImportLayers(w, r, m, old(db).tables, ls))
    {
      var i := 0;
      assert ls[0..] == ls;
      while i < |ls|
        invariant 0 <= i <= |ls|
        invariant db.repos == old(db).repos && db.tags == old(db).tags
        invariant ImportLayers(w, r, m, old(db).tables, ls) == ImportLayers(w, r, m, db.tables, ls[i..])
      {
        assert ls[i..][1..] == ls[i + 1..];
        ImportOneLayer(m, ls[i]);
        i := i + 1;
      }
    }

    /** Fails when the digest cannot be stored, or when the manifest is missing and its media type is unknown. */
    method FindOrCreateManifest(d: Digest, row: Row) returns (ok: bool)
      modifies this
      ensures ok <==> w.storable(d) && ((r, d) in old(db).tables.manifests || row.mediaType in w.mediaTypes)
      ensures db == if ok then old(db).(tables := CreateManifest(old(db).tables, r, d, row)) else old(db)
    {
      if !w.storable(d) { return false; }
      if (r, d) in db.tables.manifests { return true; }
      if row.mediaType !in w.mediaTypes { return false; }
      db := db.(tables := db.tables.(manifests := db.tables.manifests[(r, d) := row]));
      return true;
    }

    method ImportV2Manifest(m: Manifest, d: Digest) returns (ok: bool)
      requires m.Image?
      modifies this
      ensures Outcome(db.tables, ok) == ImportImage(w, r, old(db).tables, m, d)
      ensures db.repos == old(db).repos && db.tags == old(db).tags
    {
      if m.config.digest !in w.payloads { return false; }
      var b := CreateOrFindBlob(m.config);
      if b.None? { return false; }
      db := db.(tables := LinkBlob(db.tables, r, m.config.digest));
      var config := Config(b.value.mediaType, m.config.digest, w.payloads[m.config.digest]);
      ok := FindOrCreateManifest(d, Row(MediaType(m), m, Some(config)));
      if !ok { return; }
      ImportAllLayers(d, m.layers);
    }

    /** A child that cannot be read or imported is logged and skipped. */
    method ImportListEntry(list: Digest, c: Digest)
      modifies this
      ensures db.tables == ImportChild(w, r, list, old(db).tables, c)
      ensures db.repos == old(db).repos && db.tags == old(db).tags
    {
      if c !in w.manifests || !w.manifests[c].Image? { return; }
      var ok := ImportV2Manifest(w.manifests[c], c);
      if ok && c != list { db := db.(tables := db.tables.(refs := db.tables.refs + {(r, list, c)})); }
    }

    method ImportManifestList(m: Manifest, d: Digest) returns (ok: bool)
      requires m.List?
      modifies this
      ensures Outcome(db.tables, ok) == ImportList(w, r, old(db).tables, m, d)
      ensures db.repos == old(db).repos && db.tags == old(db).tags
    {
      ok := FindOrCreateManifest(d, Row(MediaType(m), m, None));
      if !ok { return; }
      ghost var t := db.tables;
      var i := 0;
      assert m.children[0..] == m.children;
      while i < |m.children|
        invariant 0 <= i <= |m.children|
        invariant db.repos == old(db).repos && db.tags == old(db).tags
        invariant ImportChildren(w, r, d, t, m.children) == ImportChildren(w, r, d, db.tables, m.children[i..])
      {
        assert m.children[i..][1..] == m.children[i + 1..];
        ImportListEntry(d, m.children[i]);
        i := i + 1;
      }
    }

    method FindOrImport(d: Digest) returns (ok: bool)
      modifies this
      ensures Outcome(db.tables, ok) == EnsureManifest(w, r, old(db).tables, d)
      ensures db.repos == old(db).repos && db.tags == old(db).tags
    {
      if !w.storable(d) { return false; }
      if (r, d) in db.tables.manifests { return true; }
      if d !in w.manifests { return false; }
      match w.manifests[d]
      case SchemaOne => return false;
      case Image(_, _, _, _) => ok := ImportV2Manifest(w.manifests[d], d);
      case List(_, _) => ok := ImportManifestList(w.manifests[d], d);
    }

    /** A tag whose target cannot be read, found or imported is logged and skipped. */
    method ImportAllTags(names: seq<string>)
      modifies this
      ensures db == ImportTags(w, r, old(db), names)
    {
      var i := 0;
      assert names[0..] == names;
      while i < |names|
        invariant 0 <= i <= |names|
        invariant ImportTags(w, r, old(db), names) == ImportTags(w, r, db, names[i..])
      {
        assert names[i..][1..] == names[i + 1..];
        if names[i] in w.targets {
          var d := w.targets[names[i]];
          var ok := FindOrImport(d);
          if ok { db := db.(tags := db.tags[(r, names[i]) := d]); }
        }
        i := i + 1;
      }
    }

    method PreImportTaggedManifests(names: seq<string>)
      modifies this
      ensures db == old(db).(tables := PreImportTags(w, r, old(db).tables, names))
    {
      var i := 0;
      assert names[0..] == names;
      while i < |names|
        invariant 0 <= i <= |names|
        invariant db.repos == old(db).repos && db.tags == old(db).tags
        invariant PreImportTags(w, r, old(db).tables, names) == PreImportTags(w, r, db.tables, names[i..])
      {
        assert names[i..][1..] == names[i + 1..];
        if names[i] in w.targets {
          var ok := FindOrImport(w.targets[names[i]]);
        }
        i := i + 1;
      }
    }

    method CreateRepository()
      modifies this
      ensures db == old(db).(repos := AddRepo(old(db).repos, r))
    {
      var levels: set<Repo> := set k | 1 <= k <= |r| :: r[..k];
      db := db.(repos := db.repos + levels);
    }

    /** The whole import is one transaction. */
    method ImportRepository() returns (ok: bool)
      modifies this
      ensures Run(db, ok) == Import(w, r, old(db))
    {
      var begin := db;
      CreateRepository();
      if w.tags.None? {
        db := begin;
        return false;
      }
      ImportAllTags(w.tags.value);
      return true;
    }

    method PreImportRepository() returns (ok: bool)
      modifies this
      ensures Run(db, ok) == PreImport(w, r, old(db))
    {
      if r !in db.repos { CreateRepository(); }
      if w.tags.None? { return false; }
      PreImportTaggedManifests(w.tags.value);
      return true;
    }
  }
}
