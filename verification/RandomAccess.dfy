/** Random access into a STREAM ciphertext: single files of a v1 container and
    the per-file blobs of a v2 vault. */
module RandomAccess {
  import opened Base
  import opened Aead
  import opened Stream

  /** Ideal content hash. */
  datatype Digest = Digest(of: seq<byte>) | ZeroDigest

  /** Open one chunk of `ptLen` plaintext bytes found at `ctOff` in `file`. */
  function ChunkAt(d: Domain, file: Ct, ctOff: nat, ptLen: nat, c: nat, last: bool): Result<seq<byte>>
  {
    if ctOff + ptLen + TAG_LEN > |file| then Err(Io)
    else if |d.prefix| != StreamNonceLen(d.cipher.alg) then Err(Format)
    else
      match Open(d.cipher, Nonce(d.prefix, c, last), d.aad, file[ctOff..ctOff + ptLen + TAG_LEN])
      case Some(m) => Ok(m)
      case None => Err(Auth)
  }

  /** The data of one container: written for plaintext `p`, stored from `base` on. */
  ghost predicate Intact(d: Domain, file: Ct, base: nat, p: seq<byte>)
    requires d.size > 0
  {
    base + |SealFrom(d, p, 0)| <= |file| && file[base..base + |SealFrom(d, p, 0)|] == SealFrom(d, p, 0)
  }

  ghost predicate Honest(d: Domain, file: Ct, base: nat, p: seq<byte>)
    requires d.size > 0
  {
    base <= |file| && HonestTags(d, file[base..], SealFrom(d, p, 0))
  }

  /** Whatever happened to the stored stream, a chunk that opens is the true one. */
  lemma ChunkAtSound(d: Domain, file: Ct, base: nat, p: seq<byte>, c: nat, off: nat, ctOff: nat, ptLen: nat)
    requires Admissible(d) && Honest(d, file, base, p) && base <= ctOff
    requires c < NumChunks(|p|, d.size) <= U32_MAX && off == c * d.size
    ensures off <= |p|
    ensures var r := ChunkAt(d, file, ctOff, ptLen, c, c == NumChunks(|p|, d.size) - 1);
            r.Ok? ==> r.value == ChunkOf(d, p[off..])
  {
    hide SealFrom, NumChunks, Open, Nonce;
    LastChunk(|p|, d.size, c);
    var last := c == NumChunks(|p|, d.size) - 1;
    if ChunkAt(d, file, ctOff, ptLen, c, last).Ok? {
      var ct := file[ctOff..ctOff + ptLen + TAG_LEN];
      assert forall s :: s in ct ==> s in file[base..] by {
        SliceMembers(file, base, ctOff, ctOff + ptLen + TAG_LEN);
      }
      OpenedChunkIsHonest(d, p, ct, c, last);
    }
  }

  lemma SliceMembers<T>(file: seq<T>, base: nat, lo: nat, hi: nat)
    requires base <= lo <= hi <= |file|
    ensures forall s :: s in file[lo..hi] ==> s in file[base..]
  {
    assert file[lo..hi] == file[base..][lo - base..hi - base];
  }

  /** On the honest stream every chunk opens. */
  lemma ChunkAtComplete(d: Domain, file: Ct, base: nat, p: seq<byte>, c: nat, off: nat, at: nat)
    requires Admissible(d) && Intact(d, file, base, p)
    requires c < NumChunks(|p|, d.size) <= U32_MAX && off == c * d.size && at == c * (d.size + TAG_LEN)
    ensures off <= |p|
    ensures ChunkAt(d, file, base + at, |ChunkOf(d, p[off..])|, c, c == NumChunks(|p|, d.size) - 1) ==
            Ok(ChunkOf(d, p[off..]))
  {
    hide Open, SealFrom, NumChunks, HonestTags;
    LastChunk(|p|, d.size, c);
    var ct := SealFrom(d, p, 0);
    SuffixAtChunk(d, p, 0, c, off, at);
    var sealed := FirstChunk(d, p[off..], c);
    SliceOfPrefix(file, base, ct, at, |sealed|);
    assert ct[at..][..|sealed|] == sealed;
  }

  /** A stream begins with the seal of its first chunk. */
  lemma FirstChunk(d: Domain, p: seq<byte>, i: nat) returns (sealed: Ct)
    requires d.size > 0
    ensures |sealed| == |ChunkOf(d, p)| + TAG_LEN && sealed <= SealFrom(d, p, i)
    ensures Open(d.cipher, Nonce(d.prefix, i, |p| <= d.size), d.aad, sealed) == Some(ChunkOf(d, p))
  {
    var chunk := ChunkOf(d, p);
    var rest := p[|chunk|..];
    assert p == chunk + rest;
    SealFromStep(d, chunk, rest, i);
    sealed := Seal(d.cipher, Nonce(d.prefix, i, rest == []), d.aad, chunk);
    OpenIffSealed(d.cipher, Nonce(d.prefix, i, rest == []), d.aad, sealed, chunk);
  }

  lemma SliceOfPrefix<T>(file: seq<T>, base: nat, ct: seq<T>, at: nat, len: nat)
    requires base + |ct| <= |file| && file[base..base + |ct|] == ct && at + len <= |ct|
    ensures file[base + at..base + at + len] == ct[at..][..len]
  {
    forall k | 0 <= k < len
      ensures file[base + at..base + at + len][k] == ct[at..][..len][k]
    {
      assert file[base..base + |ct|][at + k] == ct[at + k];
    }
  }

  /** The position of chunk `c` in units of `size` symbols. */
  function At(c: nat, size: nat): nat { c * size }

  /** The plaintext length the reader computes for chunk `c` of `n`. */
  function PtLen(total: nat, size: nat, c: nat, n: nat): int
    requires n > 0
  {
    if c == n - 1 then total - At(n - 1, size) else size
  }

  lemma PtLenIsReal(d: Domain, p: seq<byte>, c: nat, n: nat)
    requires d.size > 0 && c < n == NumChunks(|p|, d.size)
    ensures At(c, d.size) <= |p| && PtLen(|p|, d.size, c, n) == |ChunkOf(d, p[At(c, d.size)..])|
  {
    LastChunk(|p|, d.size, c);
  }

  /** What reading chunk `c` gives, in terms of the true plaintext. */
  lemma ReadChunkSpec(d: Domain, file: Ct, base: nat, p: seq<byte>, c: nat, n: nat)
    requires Admissible(d) && c < n == NumChunks(|p|, d.size) <= U32_MAX
    ensures At(c, d.size) <= |p| && PtLen(|p|, d.size, c, n) == |ChunkOf(d, p[At(c, d.size)..])|
    ensures var r := ChunkAt(d, file, base + At(c, d.size + TAG_LEN), PtLen(|p|, d.size, c, n), c, c == n - 1);
            && (Honest(d, file, base, p) && r.Ok? ==> r.value == ChunkOf(d, p[At(c, d.size)..]))
            && (Intact(d, file, base, p) ==> r == Ok(ChunkOf(d, p[At(c, d.size)..])))
  {
    hide SealFrom, HonestTags, NumChunks, Open;
    PtLenIsReal(d, p, c, n);
    if Honest(d, file, base, p) {
      ChunkAtSound(d, file, base, p, c, At(c, d.size), base + At(c, d.size + TAG_LEN), PtLen(|p|, d.size, c, n));
    }
    if Intact(d, file, base, p) {
      ChunkAtComplete(d, file, base, p, c, At(c, d.size), At(c, d.size + TAG_LEN));
    }
  }

  /** Where the bytes of the chunk at `start` that belong to the entry begin and end. */
  function PieceStart(offset: nat, start: nat): nat { if offset > start then offset else start }

  function PieceEnd(end: nat, start: nat, ptLen: int): int { Min(end, start + ptLen) }

  /** The overlap of chunk `c` with the entry, authenticated before it is used. */
  method EntryPiece(d: Domain, file: Ct, base: nat, total: nat, n: nat,
                    offset: nat, end: nat, c: nat, ghost p: seq<byte>)
    returns (r: Result<seq<byte>>)
    requires Admissible(d) && c < n == NumChunks(total, d.size) <= U32_MAX && |p| == total
    requires At(c, d.size) < end <= total && offset < end
    requires PieceStart(offset, At(c, d.size)) <= PieceEnd(end, At(c, d.size), PtLen(total, d.size, c, n)) <= total
    ensures Honest(d, file, base, p) && r.Ok? ==>
              r.value == p[PieceStart(offset, At(c, d.size))..PieceEnd(end, At(c, d.size), PtLen(total, d.size, c, n))]
    ensures Intact(d, file, base, p) ==>
              r == Ok(p[PieceStart(offset, At(c, d.size))..PieceEnd(end, At(c, d.size), PtLen(total, d.size, c, n))])
  {
    hide SealFrom, HonestTags, NumChunks, Open, ChunkAt, At, PtLen, Honest, Intact;
    ReadChunkSpec(d, file, base, p, c, n);
    var ptLen := PtLen(total, d.size, c, n);
    var chunkStart := At(c, d.size);
    var pt := ChunkAt(d, file, base + At(c, d.size + TAG_LEN), ptLen, c, c == n - 1);
    if pt.Err? {
      return Err(pt.error);
    }
    var lo := if offset > chunkStart then offset - chunkStart else 0;
    var hi := Min(end, chunkStart + ptLen) - chunkStart;
    if hi > |pt.value| || lo > hi {
      return Err(Format);
    }
    ghost var chunk := ChunkOf(d, p[chunkStart..]);
    if pt.value == chunk {
      SliceOfChunk(p, chunkStart, chunk, lo, hi);
    }
    r := Ok(pt.value[lo..hi]);
  }

  lemma SliceOfChunk(p: seq<byte>, start: nat, chunk: seq<byte>, lo: nat, hi: nat)
    requires start <= |p| && chunk <= p[start..] && lo <= hi <= |chunk|
    ensures chunk[lo..hi] == p[start + lo..start + hi]
  {
    forall k | 0 <= k < hi - lo
      ensures chunk[lo..hi][k] == p[start + lo..start + hi][k]
    {
      assert chunk[lo + k] == p[start..][lo + k];
    }
  }

  /** `decrypt_entry_to_writer`: only the chunks that cover the entry are read.
      `p` names the plaintext the container was written with. */
  method DecryptEntry(d: Domain, file: Ct, base: nat, total: nat, n: nat,
                      offset: nat, size: nat, digest: Digest, ghost p: seq<byte>)
    returns (r: Result<seq<byte>>)
    requires Admissible(d) && |p| == total
    requires n == NumChunks(total, d.size) <= U32_MAX && offset + size <= total  // what layout validation admitted
    ensures r.Ok? ==> digest == Digest(r.value)
    ensures Honest(d, file, base, p) && r.Ok? ==> r.value == p[offset..offset + size]
    ensures Intact(d, file, base, p) ==>
              (r.Ok? <==> digest == Digest(p[offset..offset + size])) &&
              (r.Ok? ==> r.value == p[offset..offset + size])
  {
    if size == 0 {
      if digest != Digest([]) {
        return Err(Auth);
      }
      return Ok([]);
    }
    hide SealFrom, HonestTags, NumChunks, Honest, Intact, At, PtLen, ChunkIndex;
    var end := offset + size;
    var first, last := ChunkIndex(offset, d.size), ChunkIndex(end - 1, d.size);
    CoverRange(total, d.size, offset, end);
    if last > n - 1 {
      return Err(Format);
    }
    var out := [];
    ghost var from := offset;
    var c := first;
    while c <= last
      invariant first <= c <= last + 1 && offset <= from <= end
      invariant c == first ==> from == offset
      invariant first < c ==> from == Min(end, At(c, d.size))
      invariant Honest(d, file, base, p) || Intact(d, file, base, p) ==> out == p[offset..from]
      decreases last + 1 - c
    {
      CoverStep(total, d.size, offset, end, c, n);
      var piece := EntryPiece(d, file, base, total, n, offset, end, c, p);
      if piece.Err? {
        return Err(piece.error);
      }
      out := out + piece.value;
      ghost var to := PieceEnd(end, At(c, d.size), PtLen(total, d.size, c, n));
      assert p[offset..from] + p[from..to] == p[offset..to];
      from := to;
      c := c + 1;
    }
    if digest != Digest(out) {
      return Err(Auth);
    }
    r := Ok(out);
  }

  /** `read_entry_to_writer` of a v2 vault: the whole blob, chunk by chunk, its
      length reconciled with the manifest first. `p` is the content it was
      written with. */
  method ReadBlob(d: Domain, blob: Ct, size: nat, digest: Digest, ghost p: seq<byte>)
    returns (r: Result<seq<byte>>)
    ensures r.Ok? ==> digest == Digest(r.value)
    ensures Admissible(d) && NumChunks(|p|, d.size) <= U32_MAX && size == |p| && blob == SealFrom(d, p, 0) ==>
              (r == if digest == Digest(p) then Ok(p) else Err(Auth))
    ensures d.size == 0 || NumChunks(size, d.size) > U32_MAX ==> r == Err(Format)
  {
    if d.size == 0 {
      return Err(Format);
    }
    hide SealFrom, NumChunks, ChunkAt, At, PtLen;
    var n := NumChunks(size, d.size);
    if n > U32_MAX {
      return Err(Format);
    }
    ghost var intact := Admissible(d) && size == |p| && blob == SealFrom(d, p, 0);
    if intact {
      CiphertextLength(d, p, 0);
    }
    if |blob| != size + n * TAG_LEN {
      return Err(Format);
    }
    var out := [];
    AtZero(d.size);
    for c := 0 to n
      invariant intact && c < n ==> At(c, d.size) <= |p| && out == p[..At(c, d.size)]
      invariant intact && c == n ==> out == p
    {
      var pt := BlobChunk(d, blob, size, n, c, p);
      if pt.Err? {
        return Err(pt.error);
      }
      if intact {
        BlobStep(d, p, c, n);
      }
      out := out + pt.value;
    }
    if digest != Digest(out) {
      return Err(Auth);
    }
    r := Ok(out);
  }

  method BlobChunk(d: Domain, blob: Ct, size: nat, n: nat, c: nat, ghost p: seq<byte>) returns (r: Result<seq<byte>>)
    requires d.size > 0 && c < n == NumChunks(size, d.size) <= U32_MAX
    ensures At(c, d.size) <= size
    ensures Admissible(d) && size == |p| && blob == SealFrom(d, p, 0) ==> r == Ok(ChunkOf(d, p[At(c, d.size)..]))
  {
    hide SealFrom, NumChunks, ChunkAt, At;
    LastChunkAt(size, d.size, n - 1);
    LastChunkAt(size, d.size, c);
    if Admissible(d) && size == |p| && blob == SealFrom(d, p, 0) {
      ReadChunkSpec(d, blob, 0, p, c, n);
    }
    r := ChunkAt(d, blob, At(c, d.size + TAG_LEN), PtLen(size, d.size, c, n), c, c == n - 1);
  }

  lemma AtZero(size: nat)
    ensures At(0, size) == 0
  {
  }

  lemma BlobStep(d: Domain, p: seq<byte>, c: nat, n: nat)
    requires d.size > 0 && c < n == NumChunks(|p|, d.size)
    ensures At(c, d.size) <= |p|
    ensures var chunk := ChunkOf(d, p[At(c, d.size)..]);
            if c == n - 1 then p[..At(c, d.size)] + chunk == p
            else At(c + 1, d.size) <= |p| && p[..At(c, d.size)] + chunk == p[..At(c + 1, d.size)]
  {
    hide At, NumChunks;
    LastChunkAt(|p|, d.size, c);
    AtStep(c, d.size);
  }

  /** The chunk that holds plaintext byte `off`. */
  function ChunkIndex(off: nat, size: nat): nat
    requires size > 0
  {
    off / size
  }

  lemma ChunkIndexBounds(off: nat, size: nat)
    requires size > 0
    ensures At(ChunkIndex(off, size), size) <= off < At(ChunkIndex(off, size) + 1, size)
    ensures At(ChunkIndex(off, size) + 1, size) == At(ChunkIndex(off, size), size) + size
  {
    DivBounds(off, size, off / size);
    MulStep(off / size + 1, size);
  }

  lemma AtMonotone(c: nat, e: nat, size: nat)
    requires c <= e
    ensures At(c, size) <= At(e, size)
  {
    MulMonotone(c, e, size);
  }

  lemma AtStep(c: nat, size: nat)
    ensures At(c + 1, size) == At(c, size) + size
  {
    MulStep(c + 1, size);
  }

  lemma {:induction false} ChunkIndexBound(total: nat, size: nat, q: nat)
    requires size > 0 && At(q, size) < total
    ensures q < NumChunks(total, size)
    decreases q
  {
    if q > 0 {
      MulStep(q, size);
      ChunkIndexBound(total - size, size, q - 1);
    }
  }

  /** The covering range of an entry lies within the stream. */
  lemma CoverRange(total: nat, size: nat, offset: nat, end: nat)
    requires size > 0 && offset < end <= total
    ensures ChunkIndex(offset, size) <= ChunkIndex(end - 1, size) < NumChunks(total, size)
    ensures end <= At(ChunkIndex(end - 1, size) + 1, size)
  {
    hide At, ChunkIndex, NumChunks;
    var f, l := ChunkIndex(offset, size), ChunkIndex(end - 1, size);
    ChunkIndexBounds(offset, size);
    ChunkIndexBounds(end - 1, size);
    if l + 1 <= f {
      AtMonotone(l + 1, f, size);
    }
    ChunkIndexBound(total, size, l);
  }

  /** Chunk `c` of the covering range meets the entry, and where the next begins. */
  lemma CoverStep(total: nat, size: nat, offset: nat, end: nat, c: nat, n: nat)
    requires size > 0 && offset < end <= total && n == NumChunks(total, size)
    requires ChunkIndex(offset, size) <= c <= ChunkIndex(end - 1, size)
    ensures c < n && At(c, size) < end
    ensures PieceStart(offset, At(c, size)) == if c == ChunkIndex(offset, size) then offset else At(c, size)
    ensures PieceEnd(end, At(c, size), PtLen(total, size, c, n)) == Min(end, At(c + 1, size))
    ensures PieceStart(offset, At(c, size)) <= Min(end, At(c + 1, size))
  {
    hide At, ChunkIndex, NumChunks;
    var f, l := ChunkIndex(offset, size), ChunkIndex(end - 1, size);
    ChunkIndexBounds(offset, size);
    ChunkIndexBounds(end - 1, size);
    AtMonotone(c, l, size);
    AtMonotone(f + 1, c + 1, size);
    AtStep(c, size);
    if f < c {
      AtMonotone(f + 1, c, size);
    }
    ChunkIndexBound(total, size, c);
    LastChunkAt(total, size, c);
  }

  lemma LastChunkAt(len: nat, size: nat, j: nat)
    requires size > 0 && j < NumChunks(len, size)
    ensures At(j, size) <= len
    ensures j == NumChunks(len, size) - 1 <==> len - At(j, size) <= size
  {
    LastChunk(len, size, j);
  }
}
