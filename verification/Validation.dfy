/** The checks a manifest passes when a vault is opened. */
module Validation {
  import opened Base
  import opened Aead
  import opened Stream
  import opened Paths
  import opened RandomAccess
  import opened VaultTree
  import opened Manifest
  import opened Batch

  const MAX_MANIFEST_ENTRIES: nat := 1_000_000

  /** The path validation works with; stored names need not be normalised. */
  function NormOf(e: Entry): Path
  {
    match NormalizeStored(Join(e.path)) case Ok(p) => p case Err(_) => []
  }

  /** No file is a proper ancestor of another entry. */
  predicate TreeShapeOk(es: Entries)
  {
    forall i, j :: 0 <= i < |es| && 0 <= j < |es| && es[i].kind.File? ==> !(NormOf(es[i]) < NormOf(es[j]))
  }

  predicate UniqueNorms(es: Entries)
  {
    forall i, j :: 0 <= i < j < |es| ==> NormOf(es[i]) != NormOf(es[j])
  }

  predicate FileOk(env: Env, e: Entry)
  {
    e.kind.File? ==>
      && e.blob.Some? && ValidBlobId(e.blob.value.id)
      && 0 < e.blob.value.chunkSize <= MAX_CHUNK_SIZE
      && NumChunks(e.size, e.blob.value.chunkSize) <= U32_MAX
      && |e.blob.value.nonce| == StreamNonceLen(env.alg)
  }

  function TotalSize(es: Entries): nat
  {
    if es == [] then 0 else TotalSize(es[..|es| - 1]) + (if es[|es| - 1].kind.File? then es[|es| - 1].size else 0)
  }

  /** `validate_manifest_v2`: what opening demands of a decrypted manifest. */
  predicate ManifestOk(env: Env, es: Entries)
  {
    && |es| <= MAX_MANIFEST_ENTRIES
    && (forall e :: e in es ==> NormalizeStored(Join(e.path)).Ok? && FileOk(env, e))
    && UniqueNorms(es) && TotalSize(es) <= U64_MAX && TreeShapeOk(es)
  }

  /** The resource limits alone. */
  predicate LimitsHold(es: Entries)
  {
    && |es| <= MAX_MANIFEST_ENTRIES && TotalSize(es) <= U64_MAX
    && (forall e :: e in es ==>
          && |e.path| <= MAX_PATH_DEPTH && ByteLen(Join(e.path)) <= MAX_PATH_LEN
          && (e.blob.Some? && e.blob.value.chunkSize > 0 ==> NumChunks(e.size, e.blob.value.chunkSize) <= U32_MAX))
  }

  /** A committed manifest reopens exactly when the resource limits hold: the tree
      invariant gives everything else validation asks for. */
  lemma ValidIffLimits(env: Env, es: Entries, blobs: Blobs)
    requires Sound(env, es, blobs)
    ensures ManifestOk(env, es) <==> LimitsHold(es)
  {
    hide View, NumChunks, ByteLen, Join, NormalizeStored, SealFrom, ValidBlobId, LegalComponent, LegalPath;
    NoFileAncestor(es);
    forall e | e in es
      ensures NormalizeStored(Join(e.path)).Ok? <==> |e.path| <= MAX_PATH_DEPTH && ByteLen(Join(e.path)) <= MAX_PATH_LEN
      ensures NormalizeStored(Join(e.path)).Ok? ==> NormOf(e) == e.path
    {
      var i :| 0 <= i < |es| && es[i] == e;
      assert EntryShape(es[i]);
      LegalNormalizes(e.path);
    }
    forall e | e in es
      ensures FileOk(env, e) <==> (e.blob.Some? && e.blob.value.chunkSize > 0 ==>
                                   NumChunks(e.size, e.blob.value.chunkSize) <= U32_MAX)
    {
      var i :| 0 <= i < |es| && es[i] == e;
      assert EntryShape(es[i]) && Stored(env, e, blobs);
    }
    if LimitsHold(es) {
      assert forall i :: 0 <= i < |es| ==> es[i] in es && NormOf(es[i]) == es[i].path;
    }
  }

  /** What a reader may rely on once a manifest passed, whoever made it: each path leads to one
      entry, each file has a blob whose parameters the stream cipher admits and whose chunks can
      be counted, and no file lies above another entry. */
  lemma ValidatedManifest(env: Env, es: Entries)
    requires ManifestOk(env, es)
    ensures Unique(es) && forall i :: 0 <= i < |es| ==> es[i].path in Index(es) && Index(es)[es[i].path] == i
    ensures forall e :: e in es ==> Canonical(NormOf(e)) && NormalizeStored(Join(e.path)) == Ok(NormOf(e))
    ensures forall e :: e in es && e.kind.File? ==>
              && e.blob.Some? && ValidBlobId(e.blob.value.id) && Admissible(DomainOf(env, e.blob.value))
              && NumChunks(e.size, e.blob.value.chunkSize) <= U32_MAX
    ensures forall i, j :: 0 <= i < |es| && 0 <= j < |es| && es[i].kind.File? ==> !(NormOf(es[i]) < NormOf(es[j]))
  {
    hide NumChunks, NormalizeStored, Join, ValidBlobId, TotalSize, Canonical, Index;
    forall e | e in es
      ensures Canonical(NormOf(e))
    {
      NormalizedIsCanonical(Join(e.path));
    }
    forall i | 0 <= i < |es|
      ensures es[i].path in Index(es) && Index(es)[es[i].path] == i
    {
      IndexIsLinearSearch(es, es[i].path);
    }
  }

  lemma NoFileAncestor(es: Entries)
    requires Unique(es) && Closed(View(es)) && Shape(es)
    ensures forall i, j :: 0 <= i < |es| && 0 <= j < |es| && es[i].kind.File? ==> !(es[i].path < es[j].path)
  {
    hide View, LegalComponent, Unique;
    ViewDenotes(es);
    forall i, j | 0 <= i < |es| && 0 <= j < |es| && es[i].kind.File?
      ensures !(es[i].path < es[j].path)
    {
      var p, q := es[i].path, es[j].path;
      assert EntryShape(es[i]);
      hide Shape, EntryShape;
      assert es[i] in es && es[j] in es;
      assert p < q ==> q[..|p|] == p;
      assert !IsDir(View(es), p);
    }
  }

  // ----- the checks as written -----

  /** `check_tree_shape`: walk up from every path, looking for a file. */
  method CheckTreeShape(shape: seq<(Path, Kind)>) returns (ok: bool)
    requires forall i :: 0 <= i < |shape| ==> shape[i].0 != []
    ensures ok <==> forall i, j :: 0 <= i < |shape| && 0 <= j < |shape| && shape[i].1.File? ==>
            !(shape[i].0 < shape[j].0)
  {
    var files := set i | 0 <= i < |shape| && shape[i].1.File? :: shape[i].0;
    for n := 0 to |shape|
      invariant forall i, j :: 0 <= i < |shape| && 0 <= j < n && shape[i].1.File? ==> !(shape[i].0 < shape[j].0)
    {
      var hit := FileAbove(files, shape[n].0);
      if hit {
        var f :| f in files && f < shape[n].0;
        var i :| 0 <= i < |shape| && shape[i].1.File? && shape[i].0 == f;
        return false;
      }
      assert forall i :: 0 <= i < |shape| && shape[i].1.File? ==> shape[i].0 in files;
    }
    ok := true;
  }

  /** Whether a proper ancestor of `path` is one of `files`. */
  method FileAbove(files: set<Path>, path: Path) returns (hit: bool)
    requires path != [] && [] !in files
    ensures hit <==> exists f :: f in files && f < path
  {
    var cur := path;
    while |cur| > 1
      invariant 0 < |cur| <= |path| && cur == path[..|cur|]
      invariant forall f :: f in files && |cur| <= |f| ==> !(f < path)
      decreases |cur|
    {
      var parent := cur[..|cur| - 1];
      assert parent == path[..|parent|];
      if parent in files {
        assert parent < path;
        return true;
      }
      assert forall f :: f in files && f < path ==> f == path[..|f|];
      cur := parent;
    }
    hit := false;
  }

  /** `validate_manifest_v2`, entry by entry. */
  method ValidateManifest(env: Env, es: Entries) returns (ok: bool)
    ensures ok == ManifestOk(env, es)
  {
    hide NormalizeStored, Join, FileOk, TotalSize;
    if |es| > MAX_MANIFEST_ENTRIES {
      return false;
    }
    var seen: set<Path> := {};
    var shape: seq<(Path, Kind)> := [];
    var total := 0;
    NoSize(es[..0]);
    for n := 0 to |es|
      invariant |shape| == n && forall i :: 0 <= i < n ==>
                shape[i] == (NormOf(es[i]), es[i].kind) && NormOf(es[i]) != []
      invariant forall p :: p in seen <==> exists i :: 0 <= i < n && shape[i].0 == p
      invariant forall i :: 0 <= i < n ==> NormalizeStored(Join(es[i].path)).Ok? && FileOk(env, es[i])
      invariant forall i, j :: 0 <= i < j < n ==> NormOf(es[i]) != NormOf(es[j])
      invariant total == TotalSize(es[..n]) <= U64_MAX
    {
      var e := es[n];
      assert e in es;
      var norm := NormalizeStored(Join(e.path));
      if norm.Err? {
        return false;
      }
      NormNotEmpty(Join(e.path));
      shape := shape + [(norm.value, e.kind)];
      if norm.value in seen {
        return false;
      }
      seen := seen + {norm.value};
      if !FileOk(env, e) {
        return false;
      }
      SizeStep(es, n);
      if e.kind.File? {
        total := total + e.size;
        if total > U64_MAX {
          SizeGrows(es, n + 1);
          return false;
        }
      }
    }
    assert es[..|es|] == es;
    ok := CheckTreeShape(shape);
  }

  lemma NormNotEmpty(s: string)
    ensures NormalizeStored(s).Ok? ==> NormalizeStored(s).value != []
  {
  }

  lemma NoSize(es: Entries)
    requires es == []
    ensures TotalSize(es) == 0
  {
  }

  lemma SizeStep(es: Entries, n: nat)
    requires n < |es|
    ensures TotalSize(es[..n + 1]) == TotalSize(es[..n]) + (if es[n].kind.File? then es[n].size else 0)
  {
    assert es[..n + 1][..n] == es[..n];
  }

  lemma {:induction false} SizeGrows(es: Entries, n: nat)
    requires n <= |es|
    ensures TotalSize(es[..n]) <= TotalSize(es)
    decreases |es|
  {
    if n < |es| {
      SizeGrows(es[..|es| - 1], n);
      assert es[..|es| - 1][..n] == es[..n];
    } else {
      assert es[..n] == es;
    }
  }
}
