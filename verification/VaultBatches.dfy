/** The indexed batch editor, proved against the edit functions of `Batch`. */
module VaultBatches {
  import opened Base
  import opened Aead
  import opened Stream
  import opened RandomAccess
  import opened Paths
  import opened VaultTree
  import opened Manifest
  import opened Batch

  /** The blob directory as the code sees it. */
  class BlobDir {
    var blobs: Blobs

    constructor (blobs: Blobs)
      ensures this.blobs == blobs
    {
      this.blobs := blobs;
    }

    /** Unlink each of `ids`, ignoring failures. */
    method RemoveAll(env: Env, ids: seq<string>)
      modifies this
      ensures blobs == Unlink(env, old(blobs), Elems(ids))
    {
      var n := 0;
      while n < |ids|
        invariant n <= |ids| && blobs == Unlink(env, old(blobs), Elems(ids[..n]))
      {
        assert Elems(ids[..n + 1]) == Elems(ids[..n]) + {ids[n]} by {
          assert ids[..n + 1] == ids[..n] + [ids[n]];
        }
        if ids[n] !in env.stuck {
          blobs := blobs - {ids[n]};
        }
        n := n + 1;
      }
      assert ids[..n] == ids;
    }
  }

  class VaultBatch {
    const env: Env
    const dir: BlobDir
    const limit: Option<nat>
    var entries: Entries
    var index: map<Path, nat>
    var staged: seq<string>
    var superseded: seq<string>
    var changed: bool
    var ops: nat

    ghost predicate Valid()
      reads this
    {
      index == Index(entries)
    }

    ghost function State(): St
      reads this, dir
    {
      St(entries, staged, superseded, changed, ops, limit, dir.blobs)
    }

    constructor (env: Env, dir: BlobDir, manifest: Entries, limit: Option<nat>)
      ensures Valid() && this.dir == dir && this.env == env && this.limit == limit
      ensures State() == St(manifest, [], [], false, 0, limit, dir.blobs)
    {
      this.env, this.dir, this.limit := env, dir, limit;
      entries := manifest;
      index := Index(manifest);
      staged, superseded, changed, ops := [], [], false, 0;
    }

    method CountOp() returns (ok: bool)
      requires Valid()
      modifies this
      ensures Valid() && State() == Counted(old(State()), false)
      ensures ok == !OverLimit(State())
    {
      ops := ops + 1;
      ok := limit.None? || ops <= limit.value;
    }

    method EnsureDirs(norm: Path) returns (ok: bool)
      requires Valid()
      modifies this`entries, this`index
      ensures Valid() && (entries, ok) == Manifest.EnsureDirs(old(entries), norm, 1)
    {
      hide Index;
      var k := 1;
      while k < |norm|
        invariant Valid() && 1 <= k
        invariant Manifest.EnsureDirs(entries, norm, k) == Manifest.EnsureDirs(old(entries), norm, 1)
        decreases |norm| - k
      {
        var acc := norm[..k];
        if acc in index {
          if !entries[index[acc]].kind.Dir? {
            return false;
          }
        } else {
          Snoc(entries, DirEntry(acc));
          index := index[acc := |entries|];
          entries := entries + [DirEntry(acc)];
        }
        k := k + 1;
      }
      ok := true;
    }

    method Place(e: Entry) returns (ok: bool)
      requires Valid()
      modifies this
      ensures Valid() && (State(), ok) == Batch.Place(old(State()), e)
    {
      hide Index, Manifest.EnsureDirs;
      staged := staged + IdOf(e);
      if e.path in index {
        var i := index[e.path];
        superseded := superseded + IdOf(entries[i]);
        SameIndex(entries, i, e);
        entries := entries[i := e];
      } else {
        ok := EnsureDirs(e.path);
        if !ok {
          return;
        }
        Snoc(entries, e);
        index := index[e.path := |entries|];
        entries := entries + [e];
      }
      changed := true;
      ok := true;
    }

    /** `write_blob`: encrypt the source into a fresh blob and keep it only if it
        is what was hashed. */
    method WriteBlob(b: BlobRef, claimed: seq<byte>, streamed: seq<byte>, io: bool) returns (ok: bool)
      requires b.chunkSize > 0
      modifies dir
      ensures (dir.blobs, ok) == Batch.WriteBlob(env, old(dir.blobs), b, claimed, streamed, io)
    {
      hide SealFrom, NumChunks;
      if !io {
        return false;
      }
      var src := new Source(streamed);
      var r, ct := EncryptStream(DomainOf(env, b), src);
      if r.Err? {
        return false;
      }
      dir.blobs := dir.blobs[b.id := ct];
      if |streamed| != |claimed| || Digest(streamed) != Digest(claimed) {
        dir.RemoveAll(env, [b.id]);
        assert Elems([b.id]) == {b.id};
        return false;
      }
      ok := true;
    }

    /** `put_file`, `put_bytes` and their builder form. */
    method Put(op: Op) returns (ok: bool)
      requires Valid() && op.Put?
      modifies this, dir
      ensures Valid() && (State(), ok) == ApplyPut(env, old(State()), op)
    {
      hide Index, Batch.WriteBlob, Batch.Place, Rule;
      if !op.trusted {
        var room := CountOp();
        if !room {
          return false;
        }
      }
      var norm := Rule(op.path, op.trusted);
      if norm.Err? {
        return false;
      }
      if norm.value in index && entries[index[norm.value]].kind.Dir? {
        return false;
      }
      var b := BlobRef(op.id, op.key, op.nonce, DEFAULT_CHUNK_SIZE);
      ok := WriteBlob(b, op.claimed, op.streamed, op.io);
      if ok {
        ok := Place(FileEntry(norm.value, b, op.claimed, op.attr));
      }
    }

    /** `mkdir` and `add_dir_trusted`. */
    method Mkdir(path: string, trusted: bool) returns (ok: bool)
      requires Valid()
      modifies this
      ensures Valid() && (State(), ok) == ApplyMkdir(old(State()), path, trusted)
    {
      hide Index, Manifest.EnsureDirs, Rule;
      if !trusted {
        var room := CountOp();
        if !room {
          return false;
        }
      }
      var norm := Rule(path, trusted);
      if norm.Err? {
        return false;
      }
      if norm.value in index {
        return entries[index[norm.value]].kind.Dir?;
      }
      ok := EnsureDirs(norm.value);
      if ok {
        Snoc(entries, DirEntry(norm.value));
        index := index[norm.value := |entries|];
        entries := entries + [DirEntry(norm.value)];
        changed := true;
      }
    }

    method Remove(path: string) returns (ok: bool)
      requires Valid()
      modifies this
      ensures Valid() && (State(), ok) == ApplyRemove(old(State()), path)
    {
      hide Index, NormalizeStored;
      var room := CountOp();
      if !room {
        return false;
      }
      var norm := NormalizeStored(path);
      if norm.Err? {
        return false;
      }
      var kept, removed := [], [];
      for i := 0 to |entries|
        invariant kept == RemoveEntries(entries[..i], norm.value)
        invariant removed == RemovedIds(entries[..i], norm.value)
      {
        var e := entries[i];
        assert entries[..i + 1][..i] == entries[..i] && entries[..i + 1][i] == e;
        if Under(norm.value, e.path) {
          removed := removed + IdOf(e);
        } else {
          kept := kept + [e];
        }
      }
      assert entries[..|entries|] == entries;
      if |kept| != |entries| {
        superseded := superseded + removed;
        changed := true;
        entries := kept;
        index := Index(entries);
      }
      ok := true;
    }

    method Rename(rawFrom: string, rawTo: string) returns (ok: bool)
      requires Valid()
      modifies this
      ensures Valid() && (State(), ok) == ApplyRename(old(State()), rawFrom, rawTo)
    {
      hide Index, NormalizeStored, Normalize, Manifest.EnsureDirs;
      var room := CountOp();
      if !room {
        return false;
      }
      var from, to := NormalizeStored(rawFrom), Normalize(rawTo);
      if from.Err? || to.Err? {
        return false;
      }
      if from.value == to.value {
        return true;
      }
      if Under(from.value, to.value) || from.value !in index || to.value in index {
        return false;
      }
      ok := EnsureDirs(to.value);
      if ok {
        var es := entries;
        for i := 0 to |es|
          invariant |es| == |entries|
          invariant forall j :: 0 <= j < |es| ==>
                      es[j] ==
                      if j < i then entries[j].(path := Moved(from.value, to.value, entries[j].path)) else entries[j]
        {
          es := es[i := es[i].(path := Moved(from.value, to.value, es[i].path))];
        }
        assert es == RenameEntries(entries, from.value, to.value);
        entries := es;
        changed := true;
        index := Index(entries);
      }
    }

    method SetAttr(path: string, attr: Attr) returns (ok: bool)
      requires Valid()
      modifies this
      ensures Valid() && (State(), ok) == ApplySetAttr(old(State()), path, attr)
    {
      hide Index, NormalizeStored;
      var room := CountOp();
      if !room {
        return false;
      }
      var norm := NormalizeStored(path);
      if norm.Err? || norm.value !in index {
        return false;
      }
      var i := index[norm.value];
      SameIndex(entries, i, entries[i].(attr := attr));
      entries := entries[i := entries[i].(attr := attr)];
      changed := true;
      ok := true;
    }

    method Edit(op: Op) returns (ok: bool)
      requires Valid()
      modifies this, dir
      ensures Valid() && (State(), ok) == Apply(env, old(State()), op)
    {
      match op
      case Put(_, _, _, _, _, _, _, _, _) => ok := Put(op);
      case Mkdir(path, trusted) => ok := Mkdir(path, trusted);
      case Remove(path) => ok := Remove(path);
      case Rename(from, to) => ok := Rename(from, to);
      case SetAttr(path, attr) => ok := SetAttr(path, attr);
    }
  }

  /** Replacing an entry without changing its path leaves the index right. */
  lemma {:induction false} SameIndex(es: Entries, i: nat, e: Entry)
    requires i < |es| && e.path == es[i].path
    ensures Index(es[i := e]) == Index(es)
    decreases |es|
  {
    var n := |es| - 1;
    if i < n {
      SameIndex(es[..n], i, e);
      assert es[i := e][..n] == es[..n][i := e];
    } else {
      assert es[i := e][..n] == es[..n];
    }
  }
}
