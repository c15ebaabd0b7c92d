/** What an import leaves is complete and refers to nothing that is missing. */
module ImportClosure {
  import opened Text
  import opened Importer

  // ---- no dangling references ----

  ghost predicate ConfigsHeld(t: Tables) {
    forall k :: k in t.manifests && t.manifests[k].config.Some? ==>
      t.manifests[k].config.value.digest in t.blobs && (k.0, t.manifests[k].config.value.digest) in t.links
  }

  ghost predicate LayersHeld(t: Tables) {
    forall k :: k in t.layers ==> k.2 in t.blobs && (k.0, k.2) in t.links && (k.0, k.1) in t.manifests
  }

  ghost predicate RefsHeld(t: Tables) {
    forall k :: k in t.refs ==> (k.0, k.1) in t.manifests && (k.0, k.2) in t.manifests
  }

  /** Configurations and layers are recorded blobs linked to the repository; list entries are recorded manifests. */
  ghost predicate Closed(t: Tables) {
    ConfigsHeld(t) && LayersHeld(t) && RefsHeld(t)
  }

  ghost predicate ClosedDatabase(db: Database) {
    Closed(db.tables) && forall k :: k in db.tags ==> (k.0, db.tags[k]) in db.tables.manifests
  }

  lemma ConfigKeepsClosed(t: Tables, r: Repo, c: Descriptor)
    requires Closed(t)
    ensures Closed(RecordConfig(t, r, c)) && (r, c.digest) in RecordConfig(t, r, c).links
  { }

  lemma CreateKeepsClosed(t: Tables, r: Repo, d: Digest, row: Row)
    requires Closed(t) && (row.config.Some? ==>
      row.config.value.digest in t.blobs && (r, row.config.value.digest) in t.links)
    ensures Closed(CreateManifest(t, r, d, row)) && (r, d) in CreateManifest(t, r, d, row).manifests
  { }

  lemma LayerKeepsClosed(w: World, r: Repo, m: Digest, t: Tables, l: Descriptor)
    requires Closed(t) && (r, m) in t.manifests
    ensures Closed(ImportLayer(w, r, m, t, l)) && (r, m) in ImportLayer(w, r, m, t, l).manifests
  { }

  lemma {:induction false} LayersKeepClosed(w: World, r: Repo, m: Digest, t: Tables, ls: seq<Descriptor>)
    requires Closed(t) && (r, m) in t.manifests
    ensures Closed(ImportLayers(w, r, m, t, ls))
    decreases |ls|
  {
    if ls != [] {
      LayerKeepsClosed(w, r, m, t, ls[0]);
      LayersKeepClosed(w, r, m, ImportLayer(w, r, m, t, ls[0]), ls[1..]);
    }
  }

  lemma ImageKeepsClosed(w: World, r: Repo, t: Tables, d: Digest)
    requires Closed(t) && d in w.manifests && w.manifests[d].Image?
    ensures Closed(ImportImage(w, r, t, w.manifests[d], d).tables)
  {
    var m := w.manifests[d];
    if m.config.digest in w.payloads && Good(w, m.config) {
      var t1 := RecordConfig(t, r, m.config);
      ConfigKeepsClosed(t, r, m.config);
      if ImportImage(w, r, t, m, d).ok {
        CreateKeepsClosed(t1, r, d, ImageRow(w, t1, m));
        LayersKeepClosed(w, r, d, CreateManifest(t1, r, d, ImageRow(w, t1, m)), m.layers);
      }
    }
  }

  lemma ChildKeepsClosed(w: World, r: Repo, list: Digest, t: Tables, c: Digest)
    requires Closed(t) && (r, list) in t.manifests
    ensures Closed(ImportChild(w, r, list, t, c)) && (r, list) in ImportChild(w, r, list, t, c).manifests
  {
    if c in w.manifests && w.manifests[c].Image? {
      ImageKeepsClosed(w, r, t, c);
      ImageGrows(w, r, t, c);
    }
  }

  lemma {:induction false} ChildrenKeepClosed(w: World, r: Repo, list: Digest, t: Tables, cs: seq<Digest>)
    requires Closed(t) && (r, list) in t.manifests
    ensures Closed(ImportChildren(w, r, list, t, cs))
    decreases |cs|
  {
    if cs != [] {
      ChildKeepsClosed(w, r, list, t, cs[0]);
      ChildrenKeepClosed(w, r, list, ImportChild(w, r, list, t, cs[0]), cs[1..]);
    }
  }

  lemma EnsureKeepsClosed(w: World, r: Repo, t: Tables, d: Digest)
    requires Closed(t)
    ensures Closed(EnsureManifest(w, r, t, d).tables)
  {
    if w.storable(d) && (r, d) !in t.manifests && d in w.manifests {
      var m := w.manifests[d];
      if m.Image? { ImageKeepsClosed(w, r, t, d); }
      if m.List? && ImportList(w, r, t, m, d).ok {
        CreateKeepsClosed(t, r, d, Row(MediaType(m), m, None));
        ChildrenKeepClosed(w, r, d, CreateManifest(t, r, d, Row(MediaType(m), m, None)), m.children);
      }
    }
  }

  lemma {:induction false} TagsKeepClosed(w: World, r: Repo, db: Database, names: seq<string>)
    requires ClosedDatabase(db)
    ensures ClosedDatabase(ImportTags(w, r, db, names))
    decreases |names|
  {
    if names != [] {
      if names[0] in w.targets {
        EnsureKeepsClosed(w, r, db.tables, w.targets[names[0]]);
        EnsureGrows(w, r, db.tables, w.targets[names[0]]);
      }
      TagsKeepClosed(w, r, ImportTag(w, r, db, names[0]), names[1..]);
    }
  }

  lemma {:induction false} PreTagsKeepClosed(w: World, r: Repo, t: Tables, names: seq<string>)
    requires Closed(t)
    ensures Closed(PreImportTags(w, r, t, names))
    decreases |names|
  {
    if names != [] {
      if names[0] in w.targets { EnsureKeepsClosed(w, r, t, w.targets[names[0]]); }
      PreTagsKeepClosed(w, r, PreImportTag(w, r, t, names[0]), names[1..]);
    }
  }

  /** Neither import nor pre-import leaves a configuration, layer, list entry or tag dangling. */
  lemma ImportsKeepClosed(w: World, r: Repo, db: Database)
    requires ClosedDatabase(db)
    ensures ClosedDatabase(Import(w, r, db).db) && ClosedDatabase(PreImport(w, r, db).db)
  {
    if w.tags.Some? {
      var names := w.tags.value;
      TagsKeepClosed(w, r, db.(repos := AddRepo(db.repos, r)), names);
      PreTagsKeepClosed(w, r, db.tables, names);
      PreTagsGrow(w, r, db.tables, names);
    }
  }

  // ---- nothing is forgotten ----

  /**
   A manifest is recorded as it was stored, with its configuration, all its storable layers and all images it lists.
   */
  ghost predicate Whole(w: World, r: Repo, t: Tables, d: Digest) {
    && (r, d) in t.manifests && d in w.manifests && t.manifests[(r, d)].content == w.manifests[d]
    && match w.manifests[d]
       case SchemaOne => false
       case Image(_, _, config, layers) =>
         && t.manifests[(r, d)].config.Some? && t.manifests[(r, d)].config.value.digest == config.digest
         && forall i :: 0 <= i < |layers| && Good(w, layers[i]) ==> (r, d, layers[i].digest) in t.layers
       case List(_, children) =>
         forall i :: 0 <= i < |children| && Listed(w, d, children[i]) ==> (r, d, children[i]) in t.refs
  }

  predicate Listed(w: World, list: Digest, c: Digest) {
    c != list && Creatable(w, c) && w.manifests[c].Image?
  }

  ghost predicate NewAreWhole(w: World, r: Repo, before: Tables, after: Tables) {
    forall k :: k in after.manifests && k !in before.manifests ==> k.0 == r && Whole(w, r, after, k.1)
  }

  lemma NewAreWholeTransitive(w: World, r: Repo, a: Tables, b: Tables, c: Tables)
    requires Grows(w, r, b, c) && NewAreWhole(w, r, a, b) && NewAreWhole(w, r, b, c)
    ensures NewAreWhole(w, r, a, c)
  { }

  lemma {:induction false} LayersAreAll(w: World, r: Repo, m: Digest, t: Tables, ls: seq<Descriptor>)
    ensures var t1 := ImportLayers(w, r, m, t, ls);
            t1.manifests == t.manifests && forall i :: 0 <= i < |ls| && Good(w, ls[i]) ==>
                (r, m, ls[i].digest) in t1.layers
    decreases |ls|
  {
    if ls != [] {
      var t1 := ImportLayer(w, r, m, t, ls[0]);
      LayersAreAll(w, r, m, t1, ls[1..]);
      LayersGrow(w, r, m, t1, ls[1..]);
      assert Good(w, ls[0]) ==> (r, m, ls[0].digest) in t1.layers;
      assert forall i :: 1 <= i < |ls| ==> ls[i] == ls[1..][i - 1];
    }
  }

  lemma ImageIsWhole(w: World, r: Repo, t: Tables, d: Digest)
    requires d in w.manifests && w.manifests[d].Image?
    ensures NewAreWhole(w, r, t, ImportImage(w, r, t, w.manifests[d], d).tables)
  {
    var m := w.manifests[d];
    var o := ImportImage(w, r, t, m, d);
    if o.ok {
      var t1 := RecordConfig(t, r, m.config);
      LayersAreAll(w, r, d, CreateManifest(t1, r, d, ImageRow(w, t1, m)), m.layers);
    }
  }

  lemma ChildIsWhole(w: World, r: Repo, list: Digest, t: Tables, c: Digest)
    ensures NewAreWhole(w, r, t, ImportChild(w, r, list, t, c))
    ensures Listed(w, list, c) ==> (r, list, c) in ImportChild(w, r, list, t, c).refs
  {
    if c in w.manifests && w.manifests[c].Image? {
      var o := ImportImage(w, r, t, w.manifests[c], c);
      var t1 := ImportChild(w, r, list, t, c);
      ImageIsWhole(w, r, t, c);
      forall k | k in t1.manifests && k !in t.manifests ensures k.0 == r && Whole(w, r, t1, k.1) {
        assert Whole(w, r, o.tables, k.1);
      }
    }
  }

  lemma {:induction false} ChildrenAreAll(w: World, r: Repo, list: Digest, t: Tables, cs: seq<Digest>)
    ensures var t1 := ImportChildren(w, r, list, t, cs);
            NewAreWhole(w, r, t, t1) && forall i :: 0 <= i < |cs| && Listed(w, list, cs[i]) ==>
                (r, list, cs[i]) in t1.refs
    decreases |cs|
  {
    if cs != [] {
      var t1 := ImportChild(w, r, list, t, cs[0]);
      ChildIsWhole(w, r, list, t, cs[0]);
      ChildrenAreAll(w, r, list, t1, cs[1..]);
      ChildrenGrow(w, r, list, t1, cs[1..]);
      NewAreWholeTransitive(w, r, t, t1, ImportChildren(w, r, list, t, cs));
      assert forall i :: 1 <= i < |cs| ==> cs[i] == cs[1..][i - 1];
    }
  }

  lemma ListIsWhole(w: World, r: Repo, t: Tables, d: Digest)
    requires d in w.manifests && w.manifests[d].List? && (r, d) !in t.manifests
    ensures NewAreWhole(w, r, t, ImportList(w, r, t, w.manifests[d], d).tables)
  {
    var m := w.manifests[d];
    var o := ImportList(w, r, t, m, d);
    if o.ok {
      var t1 := CreateManifest(t, r, d, Row(MediaType(m), m, None));
      ChildrenAreAll(w, r, d, t1, m.children);
      ChildrenGrow(w, r, d, t1, m.children);
      forall k | k in o.tables.manifests && k !in t.manifests ensures k.0 == r && Whole(w, r, o.tables, k.1) {
        if k != (r, d) { assert k !in t1.manifests; }
      }
    }
  }

  lemma EnsureIsWhole(w: World, r: Repo, t: Tables, d: Digest)
    ensures NewAreWhole(w, r, t, EnsureManifest(w, r, t, d).tables)
  {
    if w.storable(d) && (r, d) !in t.manifests && d in w.manifests {
      if w.manifests[d].Image? { ImageIsWhole(w, r, t, d); }
      if w.manifests[d].List? { ListIsWhole(w, r, t, d); }
    }
  }

  lemma {:induction false} PreTagsAreWhole(w: World, r: Repo, t: Tables, names: seq<string>)
    ensures NewAreWhole(w, r, t, PreImportTags(w, r, t, names))
    decreases |names|
  {
    if names != [] {
      var t1 := PreImportTag(w, r, t, names[0]);
      if names[0] in w.targets { EnsureIsWhole(w, r, t, w.targets[names[0]]); }
      PreTagsAreWhole(w, r, t1, names[1..]);
      PreTagsGrow(w, r, t1, names[1..]);
      NewAreWholeTransitive(w, r, t, t1, PreImportTags(w, r, t, names));
    }
  }

  /** Every manifest an import adds is whole, and every tag whose target can be created points to it. */
  lemma ImportIsComplete(w: World, r: Repo, db: Database)
    requires w.tags.Some?
    ensures NewAreWhole(w, r, db.tables, Import(w, r, db).db.tables)
    ensures var names, out := w.tags.value, Import(w, r, db).db;
      forall i :: 0 <= i < |names| && names[i] in w.targets && Creatable(w, w.targets[names[i]]) ==>
        && (r, names[i]) in out.tags && out.tags[(r, names[i])] == w.targets[names[i]]
        && (r, w.targets[names[i]]) in out.tables.manifests
  {
    var names := w.tags.value;
    var final := PreImportTags(w, r, db.tables, names);
    PreTagsAreWhole(w, r, db.tables, names);
    ImportSplits(w, r, db.(repos := AddRepo(db.repos, r)), names);
    GrowsSelf(w, r, final);
    PreImportAgain(w, r, db.tables, names, final);
    TaggedSpec(w, r, db.tags, names, final.manifests.Keys);
    forall i | 0 <= i < |names| && names[i] in w.targets && Creatable(w, w.targets[names[i]])
      ensures (r, w.targets[names[i]]) in final.manifests
    {
      TargetIsThere(w, r, db.tables, names, i);
    }
  }

  lemma {:induction false} TargetIsThere(w: World, r: Repo, t: Tables, names: seq<string>, i: nat)
    requires i < |names| && names[i] in w.targets && Creatable(w, w.targets[names[i]])
    ensures (r, w.targets[names[i]]) in PreImportTags(w, r, t, names).manifests
    decreases |names|
  {
    var t1 := PreImportTag(w, r, t, names[0]);
    if i == 0 {
      EnsureGrows(w, r, t, w.targets[names[0]]);
      PreTagsGrow(w, r, t1, names[1..]);
    } else {
      TargetIsThere(w, r, t1, names[1..], i - 1);
    }
  }
}
