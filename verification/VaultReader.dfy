/** The v2 vault reader: commits, reclamation, garbage collection and reads on
    mutable state, proved against the functions of `VaultWorld`. */
module VaultReader {
  import opened Base
  import opened Aead
  import opened Stream
  import opened RandomAccess
  import opened Paths
  import opened VaultTree
  import opened Manifest
  import opened Batch
  import opened StateChain
  import opened Validation
  import opened VaultBatches
  import opened VaultWorld

  /** The vault directory: the manifest file, the blob directory, and what a crash
      could do to them. */
  class VaultDir {
    const blobDir: BlobDir
    var manifest: ManifestFile
    ghost var possible: set<ManifestFile>
    ghost var durable: set<string>
    ghost var synced: bool

    constructor (blobDir: BlobDir, manifest: ManifestFile)
      ensures this.blobDir == blobDir && this.manifest == manifest
      ensures possible == {manifest} && durable == blobDir.blobs.Keys && synced
    {
      this.blobDir, this.manifest := blobDir, manifest;
      possible, durable, synced := {manifest}, blobDir.blobs.Keys, true;
    }

    /** Best-effort sync of the blob directory. */
    method SyncBlobs(ok: bool)
      modifies this`durable
      ensures durable == if ok then blobDir.blobs.Keys else old(durable)
    {
      if ok {
        durable := blobDir.blobs.Keys;
      }
    }

    /** `write_atomic` of the manifest: `Ok(true)` only if the rename is durable,
        an error only if it did not happen. */
    method WriteManifest(file: ManifestFile, outcome: WriteOutcome, ghost nowSynced: bool) returns (r: Result<bool>)
      modifies this`manifest, this`possible, this`synced
      ensures r == if outcome.Failed? then Err(Io) else Ok(outcome.Durable?)
      ensures outcome.Failed? ==> manifest == old(manifest) && possible == old(possible) && synced == old(synced)
      ensures !outcome.Failed? ==> manifest == file && synced == nowSynced &&
                                   possible == if outcome.Durable? then {file} else old(possible) + {file}
    {
      if outcome.Failed? {
        return Err(Io);
      }
      manifest, synced := file, nowSynced;
      possible := if outcome.Durable? then {file} else possible + {file};
      r := Ok(outcome.Durable?);
    }
  }

  /** One row of the listing shown to callers. */
  datatype Row = Row(path: Path, kind: Kind, size: nat, attr: Attr, digest: Digest)

  function ViewOf(es: Entries): seq<Row>
  {
    seq(|es|, i requires 0 <= i < |es| => Row(es[i].path, es[i].kind, es[i].size, es[i].attr, es[i].digest))
  }

  /** What a row says about the node at its path. */
  predicate Describes(row: Row, n: Node)
  {
    match n
    case DirNode(attr) => row.kind.Dir? && row.attr == attr
    case FileNode(content, attr) =>
      row.kind.File? && row.attr == attr && row.size == |content| && row.digest == Digest(content)
  }

  /** The listing is the tree: one row for each path, with its kind, attributes, length and
      digest. */
  lemma ListingIsTree(es: Entries)
    requires TreeInv(es)
    ensures var rows, t := ViewOf(es), View(es);
            && (forall i :: 0 <= i < |rows| ==> rows[i].path in t && Describes(rows[i], t[rows[i].path]))
            && (forall i, j :: 0 <= i < j < |rows| ==> rows[i].path != rows[j].path)
            && (forall p :: p in t ==> exists i :: 0 <= i < |rows| && rows[i].path == p)
  {
    hide View;
    ViewDenotes(es);
    var rows, t := ViewOf(es), View(es);
    forall i | 0 <= i < |rows|
      ensures rows[i].path in t && Describes(rows[i], t[rows[i].path])
    {
      assert es[i] in es && EntryShape(es[i]);
    }
    forall p | p in t
      ensures exists i :: 0 <= i < |rows| && rows[i].path == p
    {
      var e :| e in es && e.path == p;
      var i :| 0 <= i < |es| && es[i] == e;
      assert rows[i].path == p;
    }
  }

  class VaultReaderV2 {
    const env: Env
    const dir: VaultDir
    var manifest: Entries
    var state: State<Entries>
    var view: seq<Row>
    var pending: seq<string>

    ghost predicate Valid()
      reads this
    {
      view == ViewOf(manifest)
    }

    ghost function World(): World
      reads this, dir, dir.blobDir
    {
      VaultWorld.World(dir.manifest, dir.possible, dir.blobDir.blobs, dir.durable, dir.synced,
                       Some(Reader(manifest, state, pending)))
    }

    /** A reader opened on the manifest in place. */
    constructor (env: Env, dir: VaultDir)
      ensures Valid() && this.env == env && this.dir == dir
      ensures World() == VaultWorld.World(dir.manifest, dir.possible, dir.blobDir.blobs, dir.durable, dir.synced,
                                          Some(Reader(dir.manifest.entries, dir.manifest.state, [])))
    {
      this.env, this.dir := env, dir;
      manifest, state := dir.manifest.entries, dir.manifest.state;
      view, pending := ViewOf(dir.manifest.entries), [];
    }

    /** Queue what the commit superseded; unlink the queue once it is durable. */
    method Reclaim(superseded: seq<string>, durable: bool)
      modifies this`pending, dir.blobDir, dir`durable
      ensures pending == if durable then [] else old(pending) + superseded
      ensures dir.blobDir.blobs == if durable then Unlink(env, old(dir.blobDir.blobs), Elems(old(pending) + superseded))
                                   else old(dir.blobDir.blobs)
      ensures dir.durable == old(dir.durable) * dir.blobDir.blobs.Keys
    {
      pending := pending + superseded;
      if durable {
        var queue := pending;
        pending := [];
        dir.blobDir.RemoveAll(env, queue);
      }
      dir.durable := dir.durable * dir.blobDir.blobs.Keys;
    }

    /** Run the closure of a batch against the editor. */
    method RunEdits(batch: VaultBatch, script: seq<Step>) returns (ok: bool)
      requires batch.Valid() && batch.env == env
      modifies batch, batch.dir
      ensures batch.Valid() && (batch.State(), ok) == RunScript(env, old(batch.State()), script)
    {
      hide Apply;
      var i := 0;
      assert script[0..] == script;
      while i < |script|
        invariant i <= |script| && batch.Valid()
        invariant RunScript(env, old(batch.State()), script) == RunScript(env, batch.State(), script[i..])
      {
        var done := batch.Edit(script[i].op);
        assert script[i..][1..] == script[i + 1..];
        if !done && script[i].must {
          return false;
        }
        i := i + 1;
      }
      ok := true;
    }

    /** `commit_with`: the single commit point of every mutation. */
    method CommitWith(limit: Option<nat>, script: seq<Step>, blobSync: bool, write: WriteOutcome)
      returns (report: Report)
      requires Valid()
      modifies this, dir, dir.blobDir
      ensures Valid()
      ensures (World(), report) == Commit(env, old(World()), limit, script, blobSync, write)
    {
      hide RunScript, Unlink, Next, StateChain.AnchorOf, ViewOf;
      ghost var w := World();
      var batch := new VaultBatch(env, dir.blobDir, manifest, limit);
      assert batch.State() == StartBatch(w, limit);
      var edited := RunEdits(batch, script);
      ghost var s := batch.State();
      if !edited {
        dir.blobDir.RemoveAll(env, batch.staged);
        return Refused;
      }
      if !batch.changed {
        return Unchanged;
      }
      dir.SyncBlobs(blobSync);
      var next := Next(state.obj, state.suite, Some(AnchorOf(state)), batch.entries);
      var written := Err(Io);
      if next.Ok? {
        written := dir.WriteManifest(ManifestFile(next.value, batch.entries), write,
                                     blobSync || (w.synced && batch.staged == []));
      }
      if written.Err? {
        dir.blobDir.RemoveAll(env, batch.staged);
        dir.durable := dir.durable * dir.blobDir.blobs.Keys;
        return Refused;
      }
      manifest, state := batch.entries, next.value;
      view := ViewOf(manifest);
      Reclaim(batch.superseded, written.value);
      report := Committed(written.value);
    }

    /** `collect_garbage`: unlink blobs the durable manifest does not reference. */
    method CollectGarbage(dirSync: bool, blobSync: bool)
      requires Valid() && manifest == dir.manifest.entries  // the caller holds the vault's lock
      modifies this`pending, dir, dir.blobDir
      ensures Valid() && World() == Collect(env, old(World()), dirSync, blobSync)
    {
      if !dirSync {
        return;
      }
      dir.possible := {dir.manifest};
      if !blobSync {
        return;
      }
      var referenced := Referenced(manifest);
      var names := dir.blobDir.blobs.Keys;
      ghost var before := dir.blobDir.blobs;
      ghost var gone := Orphans(before, manifest);
      while names != {}
        invariant names <= before.Keys
        invariant dir.blobDir.blobs == before - ((gone - names) - env.stuck)
        modifies dir.blobDir
        decreases names
      {
        var name :| name in names;
        if ValidBlobId(name) && name !in referenced && name !in env.stuck {
          dir.blobDir.blobs := dir.blobDir.blobs - {name};
        }
        names := names - {name};
      }
      assert gone - names == gone;
      pending := [];
      dir.durable, dir.synced := dir.blobDir.blobs.Keys, true;
    }

    /** `read_entry`: on a sound vault exactly the content the tree names, for every
        file whose chunks can be counted in 32 bits. */
    method ReadEntry(path: string) returns (r: Result<seq<byte>>)
      requires Valid()
      ensures WorldInv(env, World()) ==>
                var p := NormalizeStored(path);
                if p.Err? || p.value !in View(manifest) || View(manifest)[p.value].DirNode? then r == Err(Invalid)
                else r == Ok(View(manifest)[p.value].content) || r == Err(Format)
      ensures WorldInv(env, World()) && LimitsHold(manifest) ==>
                var p := NormalizeStored(path);
                p.Ok? && IsFile(View(manifest), p.value) ==> r == Ok(View(manifest)[p.value].content)
    {
      hide NormalizeStored, View, SealFrom, NumChunks, Ids;
      var norm := NormalizeStored(path);
      if norm.Err? {
        return Err(Invalid);
      }
      var i := 0;
      while i < |manifest| && manifest[i].path != norm.value
        invariant i <= |manifest| && forall j :: 0 <= j < i ==> manifest[j].path != norm.value
      {
        i := i + 1;
      }
      ghost var sound := WorldInv(env, World());
      if sound {
        Located(env, World(), norm.value, i);
      }
      if i == |manifest| || manifest[i].kind.Dir? {
        return Err(Invalid);
      }
      var e := manifest[i];
      assert e in manifest;
      if e.blob.None? {
        return Err(Format);
      }
      if e.blob.value.id !in dir.blobDir.blobs {
        return Err(Io);
      }
      var d := DomainOf(env, e.blob.value);
      ghost var content := if e.digest.Digest? then e.digest.of else [];
      r := ReadBlob(d, dir.blobDir.blobs[e.blob.value.id], e.size, e.digest, content);
      if sound {
        Readable(env, World(), e);
      }
    }
  }

  /** The blob ids a manifest mentions. */
  method Referenced(es: Entries) returns (ids: set<string>)
    ensures ids == Ids(es)
  {
    ids := {};
    for i := 0 to |es|
      invariant ids == Ids(es[..i])
    {
      assert es[..i + 1] == es[..i] + [es[i]];
      IdsSnoc(es[..i], es[i]);
      if es[i].blob.Some? {
        ids := ids + {es[i].blob.value.id};
      }
    }
    assert es[..|es|] == es;
  }

  /** The linear search finds exactly the entry the tree names. */
  lemma Located(env: Env, w: World, p: Path, i: nat)
    requires WorldInv(env, w) && w.reader.Some? && i <= |w.reader.value.entries|
    requires forall j :: 0 <= j < i ==> w.reader.value.entries[j].path != p
    requires i < |w.reader.value.entries| ==> w.reader.value.entries[i].path == p
    ensures var es := w.reader.value.entries;
            && (p in View(es) <==> i < |es|)
            && (i < |es| ==> View(es)[p] == NodeOf(es[i]))
  {
    hide View;
    ViewDenotes(w.reader.value.entries);
    assert i < |w.reader.value.entries| ==> w.reader.value.entries[i] in w.reader.value.entries;
  }

  /** What the invariant says about the blob of a live file. */
  lemma Readable(env: Env, w: World, e: Entry)
    requires WorldInv(env, w) && w.reader.Some? && e in w.reader.value.entries && e.kind.File?
    ensures e.blob.Some? && e.digest.Digest? && e.size == |e.digest.of| && e.blob.value.id in w.blobs
    ensures Admissible(DomainOf(env, e.blob.value))
    ensures w.blobs[e.blob.value.id] == SealFrom(DomainOf(env, e.blob.value), e.digest.of, 0)
    ensures LimitsHold(w.reader.value.entries) ==> NumChunks(e.size, e.blob.value.chunkSize) <= U32_MAX
  {
    hide SealFrom, NumChunks, View;
    var es := w.reader.value.entries;
    var i :| 0 <= i < |es| && es[i] == e;
    assert EntryShape(es[i]);
    assert Stored(env, e, w.blobs);
  }
}
