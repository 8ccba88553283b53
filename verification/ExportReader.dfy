/** The pull reader that streams a v2 vault's files into an export. */
module ExportReader {
  import opened Base
  import opened Aead
  import opened Stream
  import opened StreamReader
  import opened RandomAccess
  import opened Manifest
  import opened Batch
  import opened Export

  /** The contents the entries' digests name, in order. */
  function Contents(files: Entries): seq<byte>
  {
    if files == [] then [] else Contents(files[..|files| - 1]) + ContentOf(files[|files| - 1])
  }

  /** The files an export lists hold exactly the export's data stream. */
  lemma {:induction false} ContentsAreExport(es: Entries)
    ensures Contents(ExportFiles(es)) == ExportData(es)
  {
    if es != [] {
      var n := |es| - 1;
      var files, e := ExportFiles(es[..n]), es[n];
      ContentsAreExport(es[..n]);
      assert (files + [e])[..|files|] == files;
      hide Trashed;
      assert files + [] == files;
    }
  }

  predicate IsBlobFile(e: Entry) { e.kind.File? && e.digest.Digest? && e.blob.Some? }

  /** The blob holds what the entry names, and is not too long to be opened. */
  ghost predicate Readable(env: Env, blobs: Blobs, e: Entry)
  {
    Stored(env, e, blobs) && IsBlobFile(e) && e.size == |e.digest.of| &&
    NumChunks(e.size, e.blob.value.chunkSize) <= U32_MAX
  }

  ghost predicate AllReadable(env: Env, blobs: Blobs, files: Entries)
  {
    forall e :: e in files ==> Readable(env, blobs, e)
  }

  /** `open_blob`: the length on disk must be the one the manifest implies. */
  function OpenBlob(blobs: Blobs, e: Entry): Result<Ct>
    requires e.blob.Some?
  {
    var b := e.blob.value;
    if b.chunkSize == 0 || NumChunks(e.size, b.chunkSize) > U32_MAX then Err(Format)
    else if b.id !in blobs then Err(Io)
    else if |blobs[b.id]| != e.size + NumChunks(e.size, b.chunkSize) * TAG_LEN then Err(Format)
    else Ok(blobs[b.id])
  }

  lemma ReadableOpens(env: Env, blobs: Blobs, e: Entry)
    requires Readable(env, blobs, e)
    ensures Admissible(DomainOf(env, e.blob.value)) && OpenBlob(blobs, e).Ok?
    ensures DecryptFrom(DomainOf(env, e.blob.value), OpenBlob(blobs, e).value, 0) == Outcome(ContentOf(e), true)
  {
    CiphertextLength(DomainOf(env, e.blob.value), e.digest.of, 0);
    DecryptInvertsEncrypt(DomainOf(env, e.blob.value), e.digest.of, 0);
  }

  /** Open a file's blob for streaming. */
  method OpenFile(env: Env, blobs: Blobs, f: Entry) returns (dec: Option<StreamDecryptReader>)
    requires IsBlobFile(f)
    ensures dec.Some? ==> fresh(dec.value) && fresh(dec.value.src) && dec.value.Valid()
    ensures Readable(env, blobs, f) ==> dec.Some? && dec.value.Remaining() == Outcome(ContentOf(f), true)
  {
    var blob := OpenBlob(blobs, f);
    var dom := DomainOf(env, f.blob.value);
    if Readable(env, blobs, f) {
      ReadableOpens(env, blobs, f);
    }
    hide DecryptFrom, Readable, OpenBlob;
    if blob.Err? {
      return None;
    }
    if |dom.prefix| != StreamNonceLen(dom.cipher.alg) || dom.size == 0 || dom.size > MAX_CHUNK_SIZE {
      return None;
    }
    var src := new Source(blob.value);
    var reader := new StreamDecryptReader(dom, src);
    dec := Some(reader);
  }

  class V2PlaintextReader {
    const env: Env
    const blobs: Blobs
    ghost const all: Entries
    var files: Entries                          // still to be opened
    var current: Option<StreamDecryptReader>
    var expected: Digest                        // of the file being read
    var hashed: seq<byte>                       // what its hasher has taken in
    ghost var done: nat                         // files read to the end and verified
    ghost var out: seq<byte>                    // everything delivered
    ghost var repr: set<object>

    ghost predicate Valid()
      reads this, repr
    {
      && this !in repr
      && (forall e :: e in all ==> IsBlobFile(e))
      && done <= |all| && out == Contents(all[..done]) + hashed
      && (current.None? ==> files == all[done..] && hashed == [])
      && (current.Some? ==>
            && current.value in repr && current.value.src in repr && current.value.Valid()
            && done < |all| && files == all[done + 1..] && expected == all[done].digest
            && (AllReadable(env, blobs, all) ==>
                  current.value.Remaining().ok && hashed + current.value.Remaining().emitted == ContentOf(all[done])))
    }

    constructor (env: Env, blobs: Blobs, files: Entries)
      requires forall e :: e in files ==> IsBlobFile(e)
      ensures this.env == env && this.blobs == blobs && all == files && out == [] && Valid() && repr == {}
    {
      this.env, this.blobs, this.files, current := env, blobs, files, None;
      expected, hashed := ZeroDigest, [];
      all, done, out, repr := files, 0, [], {};
    }

    /** Open the next file. */
    method Advance() returns (ok: bool)
      requires Valid() && current.None? && files != []
      modifies this
      ensures ok ==> Valid() && out == old(out) && current.Some? && files == old(files)[1..] && fresh(repr)
      ensures !ok ==> !AllReadable(env, blobs, all) && repr == old(repr)
    {
      hide Contents, Readable, ContentOf;
      var f := files[0];
      assert f == all[done] && f in all;
      var dec := OpenFile(env, blobs, f);
      if dec.None? {
        return false;
      }
      current, expected, hashed, files := dec, f.digest, [], files[1..];
      repr := {dec.value, dec.value.src};
      assert [] + dec.value.Remaining().emitted == dec.value.Remaining().emitted;
      ok := true;
    }

    /** The end of a file: its digest must match what was read. */
    method Close() returns (ok: bool)
      requires Valid() && current.Some?
      modifies this
      ensures ok ==> Valid() && current.None? && out == old(out) && files == old(files)
      ensures !ok && old(current.value.Remaining()) == Outcome([], true) ==> !AllReadable(env, blobs, all)
      ensures repr == old(repr)
    {
      hide AllReadable;
      assert all[done] in all && IsBlobFile(all[done]);
      assert hashed + [] == hashed;
      if Digest(hashed) != expected {
        return false;
      }
      assert all[..done + 1][..done] == all[..done];
      assert out + [] == out;
      current, hashed, done := None, [], done + 1;
      ok := true;
    }

    /** Take bytes of the file being read. */
    method Take(max: nat) returns (r: Result<seq<byte>>)
      requires Valid() && current.Some?
      modifies this, repr
      ensures r.Ok? ==> Valid() && current.Some? && |r.value| <= max && out == old(out) + r.value && files == old(files)
      ensures r == Ok([]) && max > 0 ==> current.value.Remaining() == Outcome([], true)
      ensures r.Err? ==> !AllReadable(env, blobs, all)
      ensures repr == old(repr)
    {
      hide AllReadable, Contents;
      var dec := current.value;
      r := dec.Read(max);
      if r.Err? {
        return;
      }
      assert dec.Remaining().emitted == [] + dec.Remaining().emitted;
      Shift(Contents(all[..done]), hashed, r.value, dec.Remaining().emitted);
      hashed := hashed + r.value;
      out := out + r.value;
    }

    /** A read delivers bytes; at the end exactly the contents the manifest names have been
        delivered, whatever the blobs held, and it fails only if some blob is not what its
        entry says. */
    method Read(max: nat) returns (r: Result<seq<byte>>)
      requires Valid()
      modifies this, repr
      ensures r.Ok? ==> Valid() && |r.value| <= max && out == old(out) + r.value
      ensures r == Ok([]) && max > 0 ==> out == Contents(all)
      ensures r.Err? ==> !AllReadable(env, blobs, all)
      ensures fresh(repr - old(repr))
    {
      hide Contents, AllReadable;
      if max == 0 {
        return Ok([]);
      }
      while true
        invariant Valid() && out == old(out) && fresh(repr - old(repr))
        decreases |files|, if current.Some? then 1 else 0
      {
        if current.None? {
          if files == [] {
            assert all[..done] == all && Contents(all) + [] == Contents(all);
            return Ok([]);
          }
          var found := Advance();
          if !found {
            return Err(Auth);
          }
        }
        r := Take(max);
        if r.Err? || r.value != [] {
          return;
        }
        var ok := Close();
        if !ok {
          return Err(Auth);
        }
      }
    }
  }

  lemma Shift(a: seq<byte>, b: seq<byte>, x: seq<byte>, rest: seq<byte>)
    ensures a + (b + x) == a + b + x && (b + x) + rest == b + (x + rest)
  {
  }
}
