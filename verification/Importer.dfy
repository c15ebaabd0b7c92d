/**
 Importing one repository from the storage backend into the metadata database. Tables are keyed by
 their natural keys, so results are compared modulo row ids. The database itself does not fail;
 what can go wrong is in the data: digests the database cannot store, unknown media types, missing
 manifests, configurations, tags or tag directories.
 */
module Importer {
  import opened Text
  import RepositoryTree

  type Digest = string
  type Repo = RepositoryTree.Path

  // ---- the storage backend ----

  datatype Descriptor = Descriptor(digest: Digest, mediaType: string, size: nat)

  datatype Manifest =
    | SchemaOne
    | Image(oci: bool, mediaType: string, config: Descriptor, layers: seq<Descriptor>)
    | List(mediaType: string, children: seq<Digest>)

  /**
   What the importer reads: which digests and media types the database can store, the tags (none
   when the tag directory cannot be listed), their targets, and the readable manifests and blobs.
   */
  datatype World = World(
    storable: Digest -> bool,
    mediaTypes: set<string>,
    tags: Option<seq<string>>,
    targets: map<string, Digest>,
    manifests: map<Digest, Manifest>,
    payloads: map<Digest, string>
  )

  // ---- the tables ----

  datatype Blob = Blob(mediaType: string, size: nat)
  datatype Config = Config(mediaType: string, digest: Digest, payload: string)
  datatype Row = Row(mediaType: string, content: Manifest, config: Option<Config>)

  /** Blobs, their links to repositories, manifests with their layers, and the children of lists. */
  datatype Tables = Tables(
    blobs: map<Digest, Blob>,
    links: set<(Repo, Digest)>,
    manifests: map<(Repo, Digest), Row>,
    layers: map<(Repo, Digest, Digest), Blob>,
    refs: set<(Repo, Digest, Digest)>
  )

  datatype Database = Database(repos: set<Repo>, tables: Tables, tags: map<(Repo, string), Digest>)

  // ---- upserts ----

  predicate Good(w: World, d: Descriptor) {
    w.storable(d.digest) && d.mediaType in w.mediaTypes
  }

  /** An existing blob keeps the media type and size it was first recorded with. */
  function AddBlob(t: Tables, d: Descriptor): Tables {
    if d.digest in t.blobs then t else t.(blobs := t.blobs[d.digest := Blob(d.mediaType, d.size)])
  }

  function LinkBlob(t: Tables, r: Repo, d: Digest): Tables {
    t.(links := t.links + {(r, d)})
  }

  function AssociateLayer(t: Tables, r: Repo, m: Digest, d: Digest, b: Blob): Tables {
    if (r, m, d) in t.layers then t else t.(layers := t.layers[(r, m, d) := b])
  }

  function CreateManifest(t: Tables, r: Repo, m: Digest, row: Row): Tables {
    if (r, m) in t.manifests then t else t.(manifests := t.manifests[(r, m) := row])
  }

  // ---- importing manifests ----

  /** A layer that cannot be stored is skipped. */
  function ImportLayer(w: World, r: Repo, m: Digest, t: Tables, l: Descriptor): Tables {
    if !Good(w, l) then t
    else
      var t1 := AddBlob(t, l);
      LinkBlob(AssociateLayer(t1, r, m, l.digest, t1.blobs[l.digest]), r, l.digest)
  }

  function ImportLayers(w: World, r: Repo, m: Digest, t: Tables, ls: seq<Descriptor>): Tables
    decreases |ls|
  {
    if ls == [] then t else ImportLayers(w, r, m, ImportLayer(w, r, m, t, ls[0]), ls[1..])
  }

  const OCI_IMAGE := "application/vnd.oci.image.manifest.v1+json"
  const OCI_INDEX := "application/vnd.oci.image.index.v1+json"

  /** OCI manifests may leave their media type empty. */
  function MediaType(m: Manifest): string {
    match m
    case SchemaOne => ""
    case Image(oci, mt, _, _) => if oci && mt == "" then OCI_IMAGE else mt
    case List(mt, _) => if mt == "" then OCI_INDEX else mt
  }

  datatype Outcome = Outcome(tables: Tables, ok: bool)

  function RecordConfig(t: Tables, r: Repo, c: Descriptor): (t1: Tables)
    ensures c.digest in t1.blobs && t1.manifests == t.manifests
  {
    LinkBlob(AddBlob(t, c), r, c.digest)
  }

  function ImageRow(w: World, t: Tables, m: Manifest): Row
    requires m.Image? && m.config.digest in w.payloads && m.config.digest in t.blobs
  {
    var c := m.config.digest;
    Row(MediaType(m), m, Some(Config(t.blobs[c].mediaType, c, w.payloads[c])))
  }

  /** The configuration blob is recorded and linked before the manifest, and stays when the manifest is refused. */
  function ImportImage(w: World, r: Repo, t: Tables, m: Manifest, d: Digest): Outcome
    requires m.Image?
  {
    if m.config.digest !in w.payloads || !Good(w, m.config) then Outcome(t, false)
    else
      var t1 := RecordConfig(t, r, m.config);
      if !w.storable(d) || ((r, d) !in t.manifests && MediaType(m) !in w.mediaTypes) then Outcome(t1, false)
      else Outcome(ImportLayers(w, r, d, CreateManifest(t1, r, d, ImageRow(w, t1, m)), m.layers), true)
  }

  /** A list may refer to images only; any other child is skipped, as is one that cannot be imported. */
  function ImportChild(w: World, r: Repo, list: Digest, t: Tables, c: Digest): Tables {
    if c !in w.manifests || !w.manifests[c].Image? then t
    else
      var o := ImportImage(w, r, t, w.manifests[c], c);
      if o.ok && c != list then o.tables.(refs := o.tables.refs + {(r, list, c)}) else o.tables
  }

  function ImportChildren(w: World, r: Repo, list: Digest, t: Tables, cs: seq<Digest>): Tables
    decreases |cs|
  {
    if cs == [] then t else ImportChildren(w, r, list, ImportChild(w, r, list, t, cs[0]), cs[1..])
  }

  function ImportList(w: World, r: Repo, t: Tables, m: Manifest, d: Digest): Outcome
    requires m.List?
  {
    if !w.storable(d) || ((r, d) !in t.manifests && MediaType(m) !in w.mediaTypes) then Outcome(t, false)
    else Outcome(ImportChildren(w, r, d, CreateManifest(t, r, d, Row(MediaType(m), m, None)), m.children), true)
  }

  /** Finds the manifest of a tag in the database, or imports it. */
  function EnsureManifest(w: World, r: Repo, t: Tables, d: Digest): Outcome {
    if !w.storable(d) then Outcome(t, false)
    else if (r, d) in t.manifests then Outcome(t, true)
    else if d !in w.manifests then Outcome(t, false)
    else match w.manifests[d]
      case SchemaOne => Outcome(t, false)
      case Image(_, _, _, _) => ImportImage(w, r, t, w.manifests[d], d)
      case List(_, _) => ImportList(w, r, t, w.manifests[d], d)
  }

  // ---- tags ----

  function ImportTag(w: World, r: Repo, db: Database, name: string): Database {
    if name !in w.targets then db
    else
      var d := w.targets[name];
      var o := EnsureManifest(w, r, db.tables, d);
      Database(db.repos, o.tables, if o.ok then db.tags[(r, name) := d] else db.tags)
  }

  function ImportTags(w: World, r: Repo, db: Database, names: seq<string>): Database
    decreases |names|
  {
    if names == [] then db else ImportTags(w, r, ImportTag(w, r, db, names[0]), names[1..])
  }

  function PreImportTag(w: World, r: Repo, t: Tables, name: string): Tables {
    if name !in w.targets then t else EnsureManifest(w, r, t, w.targets[name]).tables
  }

  function PreImportTags(w: World, r: Repo, t: Tables, names: seq<string>): Tables
    decreases |names|
  {
    if names == [] then t else PreImportTags(w, r, PreImportTag(w, r, t, names[0]), names[1..])
  }

  datatype Run = Run(db: Database, ok: bool)

  /** A repository is created together with all levels above it. */
  ghost function AddRepo(repos: set<Repo>, r: Repo): set<Repo> {
    repos + RepositoryTree.Prefixes(r, |r|)
  }

  /** One transaction: when the tags cannot be listed everything is rolled back. */
  ghost function Import(w: World, r: Repo, db: Database): Run {
    if w.tags.None? then Run(db, false)
    else Run(ImportTags(w, r, db.(repos := AddRepo(db.repos, r)), w.tags.value), true)
  }

  /** No tag is written, and the repository is created outside any transaction. */
  ghost function PreImport(w: World, r: Repo, db: Database): Run {
    var db1 := if r in db.repos then db else db.(repos := AddRepo(db.repos, r));
    if w.tags.None? then Run(db1, false) else Run(db1.(tables := PreImportTags(w, r, db1.tables, w.tags.value)), true)
  }

  // ---- nothing is ever taken away, and only storable manifests arrive ----

  /** The manifests that an import of this world can create. */
  predicate Creatable(w: World, d: Digest) {
    && w.storable(d) && d in w.manifests && !w.manifests[d].SchemaOne? && MediaType(w.manifests[d]) in w.mediaTypes
    && (w.manifests[d].Image? ==> w.manifests[d].config.digest in w.payloads && Good(w, w.manifests[d].config))
  }

  ghost predicate MapGrows<K, V>(a: map<K, V>, b: map<K, V>) {
    forall k :: k in a ==> k in b && b[k] == a[k]
  }

  /** `b` holds all of `a`, and manifests that are new could be created. */
  ghost predicate Grows(w: World, r: Repo, a: Tables, b: Tables) {
    && MapGrows(a.blobs, b.blobs) && a.links <= b.links && MapGrows(a.manifests, b.manifests)
    && MapGrows(a.layers, b.layers) && a.refs <= b.refs
    && (forall k :: k in b.manifests && k !in a.manifests ==> k.0 == r && Creatable(w, k.1))
  }

  lemma GrowsTransitive(w: World, r: Repo, a: Tables, b: Tables, c: Tables)
    requires Grows(w, r, a, b) && Grows(w, r, b, c)
    ensures Grows(w, r, a, c)
  { }

  lemma BlobGrows(w: World, r: Repo, t: Tables, d: Descriptor)
    ensures Grows(w, r, t, AddBlob(t, d))
  { }

  lemma LinkGrows(w: World, r: Repo, t: Tables, d: Digest)
    ensures Grows(w, r, t, LinkBlob(t, r, d))
  { }

  lemma AssociateGrows(w: World, r: Repo, t: Tables, m: Digest, d: Digest, b: Blob)
    ensures Grows(w, r, t, AssociateLayer(t, r, m, d, b))
  { }

  lemma CreateGrows(w: World, r: Repo, t: Tables, m: Digest, row: Row)
    requires (r, m) in t.manifests || Creatable(w, m)
    ensures Grows(w, r, t, CreateManifest(t, r, m, row))
  { }

  lemma LayerGrows(w: World, r: Repo, m: Digest, t: Tables, l: Descriptor)
    ensures Grows(w, r, t, ImportLayer(w, r, m, t, l))
  {
    if Good(w, l) {
      var t1 := AddBlob(t, l);
      var t2 := AssociateLayer(t1, r, m, l.digest, t1.blobs[l.digest]);
      var t3 := LinkBlob(t2, r, l.digest);
      BlobGrows(w, r, t, l);
      AssociateGrows(w, r, t1, m, l.digest, t1.blobs[l.digest]);
      LinkGrows(w, r, t2, l.digest);
      GrowsTransitive(w, r, t, t1, t2);
      GrowsTransitive(w, r, t, t2, t3);
    }
  }

  lemma ConfigGrows(w: World, r: Repo, t: Tables, c: Descriptor)
    ensures Grows(w, r, t, RecordConfig(t, r, c))
  {
    BlobGrows(w, r, t, c);
    LinkGrows(w, r, AddBlob(t, c), c.digest);
    GrowsTransitive(w, r, t, AddBlob(t, c), RecordConfig(t, r, c));
  }

  lemma {:induction false} LayersGrow(w: World, r: Repo, m: Digest, t: Tables, ls: seq<Descriptor>)
    ensures Grows(w, r, t, ImportLayers(w, r, m, t, ls))
    decreases |ls|
  {
    if ls != [] {
      var t1 := ImportLayer(w, r, m, t, ls[0]);
      LayerGrows(w, r, m, t, ls[0]);
      LayersGrow(w, r, m, t1, ls[1..]);
      GrowsTransitive(w, r, t, t1, ImportLayers(w, r, m, t, ls));
    }
  }

  lemma ImageGrows(w: World, r: Repo, t: Tables, d: Digest)
    requires d in w.manifests && w.manifests[d].Image?
    ensures var o := ImportImage(w, r, t, w.manifests[d], d);
            Grows(w, r, t, o.tables) && (o.ok ==> (r, d) in o.tables.manifests)
  {
    var m := w.manifests[d];
    if m.config.digest in w.payloads && Good(w, m.config) {
      var t1 := RecordConfig(t, r, m.config);
      ConfigGrows(w, r, t, m.config);
      if ImportImage(w, r, t, m, d).ok {
        var t2 := CreateManifest(t1, r, d, ImageRow(w, t1, m));
        var t3 := ImportLayers(w, r, d, t2, m.layers);
        CreateGrows(w, r, t1, d, ImageRow(w, t1, m));
        LayersGrow(w, r, d, t2, m.layers);
        GrowsTransitive(w, r, t, t1, t2);
        GrowsTransitive(w, r, t, t2, t3);
      }
    }
  }

  lemma ChildGrows(w: World, r: Repo, list: Digest, t: Tables, c: Digest)
    ensures Grows(w, r, t, ImportChild(w, r, list, t, c))
  {
    if c in w.manifests && w.manifests[c].Image? { ImageGrows(w, r, t, c); }
  }

  lemma {:induction false} ChildrenGrow(w: World, r: Repo, list: Digest, t: Tables, cs: seq<Digest>)
    ensures Grows(w, r, t, ImportChildren(w, r, list, t, cs))
    decreases |cs|
  {
    if cs != [] {
      var t1 := ImportChild(w, r, list, t, cs[0]);
      ChildGrows(w, r, list, t, cs[0]);
      ChildrenGrow(w, r, list, t1, cs[1..]);
      GrowsTransitive(w, r, t, t1, ImportChildren(w, r, list, t, cs));
    }
  }

  lemma ListGrows(w: World, r: Repo, t: Tables, d: Digest)
    requires d in w.manifests && w.manifests[d].List?
    ensures var o := ImportList(w, r, t, w.manifests[d], d);
            Grows(w, r, t, o.tables) && (o.ok ==> (r, d) in o.tables.manifests)
  {
    var m := w.manifests[d];
    var o := ImportList(w, r, t, m, d);
    if o.ok {
      var t1 := CreateManifest(t, r, d, Row(MediaType(m), m, None));
      CreateGrows(w, r, t, d, Row(MediaType(m), m, None));
      ChildrenGrow(w, r, d, t1, m.children);
      GrowsTransitive(w, r, t, t1, o.tables);
    }
  }

  /** The manifest of a tag is found or imported exactly when it is in the database afterwards, or could be created. */
  lemma EnsureGrows(w: World, r: Repo, t: Tables, d: Digest)
    ensures var o := EnsureManifest(w, r, t, d);
            Grows(w, r, t, o.tables) && (w.storable(d) ==> (o.ok <==> (r, d) in o.tables.manifests))
    ensures Creatable(w, d) ==> EnsureManifest(w, r, t, d).ok
  {
    if w.storable(d) && (r, d) !in t.manifests && d in w.manifests {
      if w.manifests[d].Image? { ImageGrows(w, r, t, d); }
      if w.manifests[d].List? { ListGrows(w, r, t, d); }
    }
  }

  lemma PreTagGrows(w: World, r: Repo, t: Tables, name: string)
    ensures Grows(w, r, t, PreImportTag(w, r, t, name))
  {
    if name in w.targets { EnsureGrows(w, r, t, w.targets[name]); }
  }

  lemma {:induction false} PreTagsGrow(w: World, r: Repo, t: Tables, names: seq<string>)
    ensures Grows(w, r, t, PreImportTags(w, r, t, names))
    decreases |names|
  {
    if names != [] {
      var t1 := PreImportTag(w, r, t, names[0]);
      PreTagGrows(w, r, t, names[0]);
      PreTagsGrow(w, r, t1, names[1..]);
      GrowsTransitive(w, r, t, t1, PreImportTags(w, r, t, names));
    }
  }

  // ---- trying again changes nothing ----

  /** What a refused image leaves behind is already there the second time. */
  lemma ConfigAgain(r: Repo, t: Tables, c: Descriptor)
    requires c.digest in t.blobs && (r, c.digest) in t.links
    ensures RecordConfig(t, r, c) == t
  {
    assert t.links + {(r, c.digest)} == t.links;
  }

  /** A manifest that was looked for once is found, or is refused without any further effect. */
  lemma EnsureAgain(w: World, r: Repo, t: Tables, d: Digest, t': Tables)
    requires Grows(w, r, EnsureManifest(w, r, t, d).tables, t')
    ensures EnsureManifest(w, r, t', d) == Outcome(t', EnsureManifest(w, r, t, d).ok)
  {
    EnsureGrows(w, r, t, d);
    var o := EnsureManifest(w, r, t, d);
    if w.storable(d) && !o.ok {
      assert !Creatable(w, d);
      assert (r, d) !in t'.manifests;
      if d in w.manifests && w.manifests[d].Image? {
        var c := w.manifests[d].config;
        if c.digest in w.payloads && Good(w, c) {
          assert o.tables == RecordConfig(t, r, c);
          ConfigAgain(r, t', c);
        }
      }
    }
  }

  /** A pre-import of a database that already saw this one changes nothing. */
  lemma {:induction false} PreImportAgain(w: World, r: Repo, t: Tables, names: seq<string>, t': Tables)
    requires Grows(w, r, PreImportTags(w, r, t, names), t')
    ensures PreImportTags(w, r, t', names) == t'
    decreases |names|
  {
    if names != [] {
      var t1 := PreImportTag(w, r, t, names[0]);
      PreTagsGrow(w, r, t1, names[1..]);
      GrowsTransitive(w, r, t1, PreImportTags(w, r, t, names), t');
      PreTagAgain(w, r, t, names[0], t');
      PreImportAgain(w, r, t1, names[1..], t');
    }
  }

  lemma PreTagAgain(w: World, r: Repo, t: Tables, name: string, t': Tables)
    requires Grows(w, r, PreImportTag(w, r, t, name), t')
    ensures PreImportTag(w, r, t', name) == t'
  {
    if name in w.targets { EnsureAgain(w, r, t, w.targets[name], t'); }
  }

  // ---- the main results ----

  /** The tags written when exactly the manifests `present` can be found. */
  function Tagged(w: World, r: Repo, tags: map<(Repo, string), Digest>, names: seq<string>,
                  present: set<(Repo, Digest)>)
    : map<(Repo, string), Digest>
    decreases |names|
  {
    if names == [] then tags
    else Tagged(w, r, if Resolves(w, r, names[0], present) then tags[(r, names[0]) := w.targets[names[0]]] else tags,
        names[1..], present)
  }

  predicate Resolves(w: World, r: Repo, name: string, present: set<(Repo, Digest)>) {
    name in w.targets && w.storable(w.targets[name]) && (r, w.targets[name]) in present
  }

  lemma TagResolves(w: World, r: Repo, t: Tables, name: string, final: Tables)
    requires name in w.targets && Grows(w, r, PreImportTag(w, r, t, name), final)
    ensures EnsureManifest(w, r, t, w.targets[name]).ok <==> Resolves(w, r, name, final.manifests.Keys)
  {
    EnsureAgain(w, r, t, w.targets[name], final);
    EnsureGrows(w, r, final, w.targets[name]);
  }

  /** An import is a pre-import followed by writing the tags whose manifests are there in the end. */
  lemma {:induction false} ImportSplits(w: World, r: Repo, db: Database, names: seq<string>)
    ensures var final := PreImportTags(w, r, db.tables, names);
            ImportTags(w, r, db, names) == Database(db.repos, final, Tagged(w, r, db.tags, names, final.manifests.Keys))
    decreases |names|
  {
    if names != [] {
      var db1 := ImportTag(w, r, db, names[0]);
      var final := PreImportTags(w, r, db.tables, names);
      PreTagsGrow(w, r, db1.tables, names[1..]);
      if names[0] in w.targets { TagResolves(w, r, db.tables, names[0], final); }
      ImportSplits(w, r, db1, names[1..]);
    }
  }

  /** Which tag ends up where. */
  lemma {:induction false} TaggedSpec(w: World, r: Repo, tags: map<(Repo, string), Digest>, names: seq<string>,
                                      present: set<(Repo, Digest)>)
    ensures var out := Tagged(w, r, tags, names, present);
            forall k :: (k in out <==> k in tags || (k.0 == r && k.1 in names && Resolves(w, r, k.1, present)))
    ensures var out := Tagged(w, r, tags, names, present);
            forall k :: k in out ==>
                out[k] == if k.0 == r && k.1 in names && Resolves(w, r, k.1, present) then w.targets[k.1] else tags[k]
    decreases |names|
  {
    if names != [] {
      var tags1 := if Resolves(w, r, names[0], present) then tags[(r, names[0]) := w.targets[names[0]]] else tags;
      TaggedSpec(w, r, tags1, names[1..], present);
      assert names == [names[0]] + names[1..];
    }
  }

  lemma TaggedAgain(w: World, r: Repo, tags: map<(Repo, string), Digest>, names: seq<string>,
                    present: set<(Repo, Digest)>)
    ensures var out := Tagged(w, r, tags, names, present);
            Tagged(w, r, out, names, present) == out
  {
    var out := Tagged(w, r, tags, names, present);
    var again := Tagged(w, r, out, names, present);
    TaggedSpec(w, r, tags, names, present);
    TaggedSpec(w, r, out, names, present);
    assert again.Keys == out.Keys;
    assert forall k :: k in out ==> again[k] == out[k];
  }

  lemma GrowsSelf(w: World, r: Repo, t: Tables)
    ensures Grows(w, r, t, t)
  { }

  /** After a pre-import with readable tags, an import gives what it would have given without it. */
  lemma PreImportIsHarmless(w: World, r: Repo, db: Database)
    requires w.tags.Some?
    ensures Import(w, r, PreImport(w, r, db).db) == Import(w, r, db)
  {
    var names := w.tags.value;
    var pre := PreImport(w, r, db).db;
    var final := PreImportTags(w, r, db.tables, names);
    assert pre.tables == final && pre.tags == db.tags;
    assert AddRepo(AddRepo(db.repos, r), r) == AddRepo(db.repos, r);
    GrowsSelf(w, r, final);
    PreImportAgain(w, r, db.tables, names, final);
    ImportSplits(w, r, db.(repos := AddRepo(db.repos, r)), names);
    ImportSplits(w, r, pre.(repos := AddRepo(pre.repos, r)), names);
  }

  /**
   Pre-import followed by import gives the tables of import alone if and only if the tags can be
   listed or the repository is already there: otherwise the repository created by the failed
   pre-import stays, while the failed import rolls back.
   */
  lemma PreImportThenImport(w: World, r: Repo, db: Database)
    requires r != []
    ensures Import(w, r, PreImport(w, r, db).db).db == Import(w, r, db).db <==> w.tags.Some? || r in db.repos
  {
    if w.tags.Some? { PreImportIsHarmless(w, r, db); }
    else {
      assert r[..|r|] == r;
      assert r in AddRepo(db.repos, r);
    }
  }

  /** A second import changes nothing. */
  lemma ImportTwice(w: World, r: Repo, db: Database)
    ensures Import(w, r, Import(w, r, db).db) == Import(w, r, db)
  {
    if w.tags.Some? {
      var names := w.tags.value;
      var first := Import(w, r, db).db;
      var final := PreImportTags(w, r, db.tables, names);
      ImportSplits(w, r, db.(repos := AddRepo(db.repos, r)), names);
      assert first.tables == final;
      GrowsSelf(w, r, final);
      PreImportAgain(w, r, db.tables, names, final);
      assert AddRepo(AddRepo(db.repos, r), r) == AddRepo(db.repos, r);
      ImportSplits(w, r, first, names);
      TaggedAgain(w, r, db.tags, names, final.manifests.Keys);
    }
  }
}
