/** The STREAM framing of file data: fixed-size chunks, a 32-bit big-endian
    counter and a last-chunk flag in every chunk nonce. */
module Stream {
  import opened Base
  import opened Aead

  const MAX_CHUNK_SIZE: nat := 16 * 1024 * 1024
  const DEFAULT_CHUNK_SIZE: nat := 64 * 1024

  datatype Alg = XChaCha20Poly1305 | Aes256Gcm

  function NonceLen(alg: Alg): nat { if alg.Aes256Gcm? then 12 else 24 }

  /** The one-shot nonce minus the five bytes STREAM appends. */
  function StreamNonceLen(alg: Alg): nat { NonceLen(alg) - 5 }

  /** Everything that is fixed for one stream. A content key belongs to one
      algorithm, so the key term names it. */
  datatype Cipher = Cipher(alg: Alg, key: nat)
  datatype Domain = Domain(cipher: Cipher, prefix: seq<byte>, aad: seq<byte>, size: nat)

  type Symbol = Sym<Cipher, seq<byte>, byte>
  type Ct = seq<Symbol>

  predicate Admissible(d: Domain)
  {
    |d.prefix| == StreamNonceLen(d.cipher.alg) && 0 < d.size <= MAX_CHUNK_SIZE
  }

  // ----- chunk nonces -----

  function Nonce(prefix: seq<byte>, index: nat, last: bool): seq<byte>
  {
    prefix + BigEndian(index, 4) + [if last then 1 else 0]
  }

  lemma NonceInjective(prefix: seq<byte>, i: nat, l: bool, j: nat, m: bool)
    requires i <= U32_MAX && j <= U32_MAX
    requires Nonce(prefix, i, l) == Nonce(prefix, j, m)
    ensures i == j && l == m
  {
    var a, b := Nonce(prefix, i, l), Nonce(prefix, j, m);
    var n := |prefix|;
    assert a[n..n + 4] == BigEndian(i, 4) && b[n..n + 4] == BigEndian(j, 4);
    assert a[n + 4] == (if l then 1 else 0) && b[n + 4] == (if m then 1 else 0);
    assert Pow256(4) == 0x1_0000_0000 by { Pow256Four(); }
    BigEndianInjective(i, j, 4);
  }

  lemma Pow256Four()
    ensures Pow256(4) == 0x1_0000_0000
  {
    assert Pow256(1) == 256;
    assert Pow256(2) == 256 * 256;
    assert Pow256(3) == 256 * 256 * 256;
  }

  // ----- encryption -----

  /** The ciphertext of `p`, its first chunk carrying counter `i`. */
  function SealFrom(d: Domain, p: seq<byte>, i: nat): (ct: Ct)
    requires d.size > 0
    decreases |p|
  {
    if |p| <= d.size then Seal(d.cipher, Nonce(d.prefix, i, true), d.aad, p)
    else Seal(d.cipher, Nonce(d.prefix, i, false), d.aad, p[..d.size]) + SealFrom(d, p[d.size..], i + 1)
  }

  /** How many chunks a plaintext takes; an empty one still has a tag-only chunk. */
  function NumChunks(len: nat, size: nat): (n: nat)
    requires size > 0
    ensures n >= 1
  {
    if len <= size then 1 else 1 + NumChunks(len - size, size)
  }

  /** The chunk at the front of `rest`, the plaintext from that chunk on. */
  function ChunkOf(d: Domain, rest: seq<byte>): seq<byte>
  {
    if |rest| <= d.size then rest else rest[..d.size]
  }

  /** The closed form both formats compute: rounded-up division, at least one. */
  lemma {:induction false} NumChunksDivCeil(len: nat, size: nat)
    requires size > 0
    ensures NumChunks(len, size) == if len == 0 then 1 else (len + size - 1) / size
    decreases len
  {
    if 0 < len <= size {
      DivBounds(len + size - 1, size, 1);
    } else if len > size {
      NumChunksDivCeil(len - size, size);
      var q := NumChunks(len - size, size);
      DivBounds(len - 1, size, q);
      assert (q + 1) * size == q * size + size;
      DivBounds(len + size - 1, size, q + 1);
    }
  }

  /** Characterises integer division by multiplication. */
  lemma DivBounds(a: nat, b: nat, q: nat)
    requires b > 0
    ensures q * b <= a < q * b + b <==> a / b == q
  {
    var r := a / b;
    assert a == r * b + a % b;
    if q < r {
      MulMonotone(q + 1, r, b);
      assert (q + 1) * b == q * b + b;
    }
    if r < q {
      MulMonotone(r + 1, q, b);
      assert (r + 1) * b == r * b + b;
    }
  }

  lemma MulMonotone(x: nat, y: nat, b: nat)
    requires x <= y
    ensures x * b <= y * b
  {
    assert y * b == x * b + (y - x) * b;
  }

  /** The declared data length of a container or blob is the real one. */
  lemma {:induction false} CiphertextLength(d: Domain, p: seq<byte>, i: nat)
    requires d.size > 0
    ensures |SealFrom(d, p, i)| == |p| + NumChunks(|p|, d.size) * TAG_LEN
    decreases |p|
  {
    if |p| > d.size {
      CiphertextLength(d, p[d.size..], i + 1);
    }
  }

  /** Chunk `j` starts where the random-access arithmetic says it does: `off` in
      the plaintext and `at` in the ciphertext. */
  lemma {:induction false} SuffixAtChunk(d: Domain, p: seq<byte>, i: nat, j: nat, off: nat, at: nat)
    requires d.size > 0 && j < NumChunks(|p|, d.size)
    requires off == j * d.size && at == j * (d.size + TAG_LEN)
    ensures off <= |p| && at <= |SealFrom(d, p, i)|
    ensures SealFrom(d, p, i)[at..] == SealFrom(d, p[off..], i + j)
    decreases j
  {
    hide Seal, Nonce;
    if j == 0 {
      assert SealFrom(d, p, i)[0..] == SealFrom(d, p, i) && p[0..] == p;
    } else {
      MulStep(j, d.size);
      MulStep(j, d.size + TAG_LEN);
      var head := Seal(d.cipher, Nonce(d.prefix, i, false), d.aad, p[..d.size]);
      SuffixAtChunk(d, p[d.size..], i + 1, j - 1, off - d.size, at - |head|);
      assert p[d.size..][off - d.size..] == p[off..];
      DropConcat(head, SealFrom(d, p[d.size..], i + 1), at - |head|);
    }
  }

  lemma MulStep(j: nat, s: nat)
    requires j > 0
    ensures j * s == s + (j - 1) * s
  {
  }

  lemma DropConcat<T>(a: seq<T>, b: seq<T>, k: nat)
    requires k <= |b|
    ensures (a + b)[|a| + k..] == b[k..]
  {
  }

  /** A chunk is the last one exactly when its plaintext reaches the end. */
  lemma {:induction false} LastChunk(len: nat, size: nat, j: nat)
    requires size > 0 && j < NumChunks(len, size)
    ensures j * size <= len
    ensures j == NumChunks(len, size) - 1 <==> len - j * size <= size
    decreases j
  {
    if j > 0 {
      LastChunk(len - size, size, j - 1);
      assert j * size == size + (j - 1) * size;
    }
  }

  /** `buf` is the next `size` symbols, fewer only at the end of the source. */
  method ReadChunk<T>(src: Source<T>, size: nat) returns (buf: seq<T>)
    modifies src
    ensures old(src.rest) == buf + src.rest
    ensures |buf| <= size && (|buf| < size ==> src.rest == [])
  {
    buf := [];
    while |buf| < size
      invariant |buf| <= size && old(src.rest) == buf + src.rest
      decreases size - |buf|
    {
      ghost var before := src.rest;
      var got := src.Read(size - |buf|);
      assert before == got + src.rest;
      if got == [] {
        break;
      }
      buf := buf + got;
    }
  }

  /** One step of the encryptor: `chunk` is the next chunk and `rest` what follows. */
  lemma SealFromStep(d: Domain, chunk: seq<byte>, rest: seq<byte>, i: nat)
    requires d.size > 0 && |chunk| <= d.size && (|chunk| < d.size ==> rest == [])
    ensures SealFrom(d, chunk + rest, i) ==
            Seal(d.cipher, Nonce(d.prefix, i, rest == []), d.aad, chunk) +
            (if rest == [] then [] else SealFrom(d, rest, i + 1))
    ensures NumChunks(|chunk + rest|, d.size) == 1 + (if rest == [] then 0 else NumChunks(|rest|, d.size))
  {
    if rest == [] {
      assert chunk + rest == chunk;
    } else {
      assert (chunk + rest)[..d.size] == chunk && (chunk + rest)[d.size..] == rest;
    }
  }

  /** How far the encryptor has come: `out` is written, `todo` is not. */
  ghost predicate Sealing(d: Domain, p: seq<byte>, out: Ct, todo: seq<byte>, counter: nat)
  {
    d.size > 0 && SealFrom(d, p, 0) == out + SealFrom(d, todo, counter) &&
    NumChunks(|p|, d.size) == counter + NumChunks(|todo|, d.size)
  }

  lemma SealingStep(d: Domain, p: seq<byte>, out: Ct, chunk: seq<byte>, rest: seq<byte>, counter: nat)
    requires Sealing(d, p, out, chunk + rest, counter)
    requires |chunk| <= d.size && (|chunk| < d.size ==> rest == [])
    ensures var ct := Seal(d.cipher, Nonce(d.prefix, counter, rest == []), d.aad, chunk);
            if rest == [] then out + ct == SealFrom(d, p, 0) && NumChunks(|p|, d.size) == counter + 1
            else Sealing(d, p, out + ct, rest, counter + 1) && NumChunks(|p|, d.size) > counter + 1
  {
    hide SealFrom, Seal, Nonce, NumChunks;
    SealFromStep(d, chunk, rest, counter);
    var ct := Seal(d.cipher, Nonce(d.prefix, counter, rest == []), d.aad, chunk);
    if rest != [] {
      Regroup(out, ct, SealFrom(d, rest, counter + 1));
    }
  }

  /** The read-ahead encryptor writes exactly `SealFrom`, for every pattern of
      short reads, and fails exactly on bad parameters or counter exhaustion. */
  method EncryptStream(d: Domain, src: Source<byte>) returns (r: Result<int>, out: Ct)
    modifies src
    ensures r.Ok? <==> Admissible(d) && NumChunks(|old(src.rest)|, d.size) <= U32_MAX + 1
    ensures r.Ok? ==> out == SealFrom(d, old(src.rest), 0) && r.value == |out|
  {
    hide SealFrom, Seal, Nonce, NumChunks;
    out := [];
    if |d.prefix| != StreamNonceLen(d.cipher.alg) {
      return Err(Format), out;
    }
    if d.size == 0 || d.size > MAX_CHUNK_SIZE {
      return Err(Format), out;
    }
    var counter := 0;
    ghost var p := src.rest;
    var current := ReadChunk(src, d.size);
    var next := ReadChunk(src, d.size);
    ghost var rest := next + src.rest;
    while next != []
      invariant rest == next + src.rest && counter <= U32_MAX
      invariant |current| <= d.size && (|current| < d.size ==> next == [])
      invariant |next| <= d.size && (|next| < d.size ==> src.rest == [])
      invariant Sealing(d, p, out, current + rest, counter)
      decreases |rest|
    {
      SealingStep(d, p, out, current, rest, counter);
      if counter == U32_MAX {
        return Err(Auth), out;
      }
      out := out + Seal(d.cipher, Nonce(d.prefix, counter, false), d.aad, current);
      counter := counter + 1;
      current := next;
      next := ReadChunk(src, d.size);
      rest := next + src.rest;
    }
    assert rest == [];
    SealingStep(d, p, out, current, rest, counter);
    out := out + Seal(d.cipher, Nonce(d.prefix, counter, true), d.aad, current);
    r := Ok(|out|);
  }

  // ----- decryption -----

  datatype Outcome = Outcome(emitted: seq<byte>, ok: bool)

  /** Sequential decryption of `ct`, whose first chunk carries counter `i`: what is
      written out, and whether the end was reached without a failure. */
  function DecryptFrom(d: Domain, ct: Ct, i: nat): Outcome
    decreases |ct|
  {
    if |ct| <= d.size + TAG_LEN then
      match Open(d.cipher, Nonce(d.prefix, i, true), d.aad, ct)
      case Some(m) => Outcome(m, true)
      case None => Outcome([], false)
    else if i >= U32_MAX then Outcome([], false)
    else
      match Open(d.cipher, Nonce(d.prefix, i, false), d.aad, ct[..d.size + TAG_LEN])
      case None => Outcome([], false)
      case Some(m) =>
        var r := DecryptFrom(d, ct[d.size + TAG_LEN..], i + 1);
        Outcome(m + r.emitted, r.ok)
  }

  /** One step of the decryptor: `chunk` is the next ciphertext chunk. */
  lemma DecryptFromStep(d: Domain, chunk: Ct, rest: Ct, i: nat)
    requires |chunk| <= d.size + TAG_LEN && (|chunk| < d.size + TAG_LEN ==> rest == [])
    ensures rest == [] ==>
              var o := Open(d.cipher, Nonce(d.prefix, i, true), d.aad, chunk);
              DecryptFrom(d, chunk + rest, i) == if o.Some? then Outcome(o.value, true) else Outcome([], false)
    ensures rest != [] ==>
              var o := Open(d.cipher, Nonce(d.prefix, i, false), d.aad, chunk);
              DecryptFrom(d, chunk + rest, i) ==
              if i >= U32_MAX || o.None? then Outcome([], false)
              else Outcome(o.value + DecryptFrom(d, rest, i + 1).emitted, DecryptFrom(d, rest, i + 1).ok)
  {
    if rest == [] {
      assert chunk + rest == chunk;
    } else {
      assert (chunk + rest)[..d.size + TAG_LEN] == chunk && (chunk + rest)[d.size + TAG_LEN..] == rest;
    }
  }

  method DecryptStream(d: Domain, src: Source<Symbol>) returns (r: Result<int>, out: seq<byte>)
    modifies src
    ensures !Admissible(d) ==> r.Err? && out == []
    ensures Admissible(d) ==>
              var spec := DecryptFrom(d, old(src.rest), 0);
              out == spec.emitted && (r.Ok? <==> spec.ok) && (r.Ok? ==> r.value == |out|)
  {
    hide DecryptFrom, Open, Nonce;
    out := [];
    if |d.prefix| != StreamNonceLen(d.cipher.alg) {
      return Err(Format), out;
    }
    if d.size == 0 || d.size > MAX_CHUNK_SIZE {
      return Err(Format), out;
    }
    var enc := d.size + TAG_LEN;
    var counter := 0;
    var current := ReadChunk(src, enc);
    var next := ReadChunk(src, enc);
    while next != []
      invariant |current| <= enc && (|current| < enc ==> next == [])
      invariant |next| <= enc && (|next| < enc ==> src.rest == [])
      invariant var all, now := DecryptFrom(d, old(src.rest), 0), DecryptFrom(d, current + (next + src.rest), counter);
                all.emitted == out + now.emitted && all.ok == now.ok
      invariant counter <= U32_MAX
      decreases |next + src.rest|
    {
      ghost var rest := next + src.rest;
      DecryptFromStep(d, current, rest, counter);
      if counter == U32_MAX {
        return Err(Auth), out;
      }
      var pt := Open(d.cipher, Nonce(d.prefix, counter, false), d.aad, current);
      if pt.None? {
        return Err(Auth), out;
      }
      Regroup(out, pt.value, DecryptFrom(d, rest, counter + 1).emitted);
      out := out + pt.value;
      counter := counter + 1;
      current := next;
      next := ReadChunk(src, enc);
    }
    DecryptFromStep(d, current, [], counter);
    assert current + (next + src.rest) == current + [];
    var pt := Open(d.cipher, Nonce(d.prefix, counter, true), d.aad, current);
    if pt.None? {
      return Err(Auth), out;
    }
    out := out + pt.value;
    r := Ok(|out|);
  }

  /** Decryption inverts encryption. */
  lemma {:induction false} DecryptInvertsEncrypt(d: Domain, p: seq<byte>, i: nat)
    requires d.size > 0 && i + NumChunks(|p|, d.size) <= U32_MAX + 1
    ensures DecryptFrom(d, SealFrom(d, p, i), i) == Outcome(p, true)
    decreases |p|
  {
    hide Open, Nonce, Seal;
    var ct := SealFrom(d, p, i);
    if |p| <= d.size {
      OpenIffSealed(d.cipher, Nonce(d.prefix, i, true), d.aad, ct, p);
    } else {
      var head := Seal(d.cipher, Nonce(d.prefix, i, false), d.aad, p[..d.size]);
      var tail := SealFrom(d, p[d.size..], i + 1);
      assert ct[..d.size + TAG_LEN] == head && ct[d.size + TAG_LEN..] == tail;
      OpenIffSealed(d.cipher, Nonce(d.prefix, i, false), d.aad, head, p[..d.size]);
      CiphertextLength(d, p[d.size..], i + 1);
      DecryptInvertsEncrypt(d, p[d.size..], i + 1);
      assert p[..d.size] + p[d.size..] == p;
    }
  }

  // ----- integrity -----

  /** Every tag of this stream's nonce domain in `ct` was produced when the honest
      stream was written; any other symbol may be made up. */
  ghost predicate HonestTags(d: Domain, ct: Ct, honest: Ct)
  {
    forall s :: s in ct && s.Tag? && s.key == d.cipher && d.prefix <= s.nonce && |s.nonce| == |d.prefix| + 5
             ==> s in honest
  }

  /** Which chunk an honest tag belongs to. */
  lemma {:induction false} TagNamesChunk(d: Domain, p: seq<byte>, i: nat, s: Symbol) returns (j: nat)
    requires d.size > 0 && s.Tag? && s in SealFrom(d, p, i)
    ensures j < NumChunks(|p|, d.size) && j * d.size <= |p|
    ensures s.nonce == Nonce(d.prefix, i + j, j == NumChunks(|p|, d.size) - 1)
    ensures s.aad == d.aad && s.msg == ChunkOf(d, p[j * d.size..])
    decreases |p|
  {
    hide SealFrom, Seal, Nonce;
    var chunk, rest := ChunkOf(d, p), p[|ChunkOf(d, p)|..];
    assert p == chunk + rest;
    SealFromStep(d, chunk, rest, i);
    var head := Seal(d.cipher, Nonce(d.prefix, i, rest == []), d.aad, chunk);
    if s in head {
      TagInSeal(d.cipher, Nonce(d.prefix, i, rest == []), d.aad, chunk, s);
      assert p[0 * d.size..] == p;
      j := 0;
    } else {
      var k := TagNamesChunk(d, rest, i + 1, s);
      j := k + 1;
      NextChunk(d, p, k);
    }
  }

  lemma NextChunk(d: Domain, p: seq<byte>, k: nat)
    requires |p| >= d.size && k * d.size <= |p| - d.size
    ensures (k + 1) * d.size == d.size + k * d.size <= |p|
    ensures p[d.size..][k * d.size..] == p[(k + 1) * d.size..]
  {
    assert (k + 1) * d.size == d.size + k * d.size;
  }

  lemma TagInSeal(c: Cipher, nonce: seq<byte>, aad: seq<byte>, m: seq<byte>, s: Symbol)
    requires s.Tag? && s in Seal(c, nonce, aad, m)
    ensures s.nonce == nonce && s.aad == aad && s.msg == m
  {
  }

  /** One chunk opened under counter `j` is the honest chunk `j`, with the honest
      last-chunk flag. */
  lemma OpenedChunkIsHonest(d: Domain, p: seq<byte>, ct: Ct, j: nat, last: bool)
    requires Admissible(d) && NumChunks(|p|, d.size) <= U32_MAX + 1 && j <= U32_MAX
    requires HonestTags(d, ct, SealFrom(d, p, 0))
    requires Open(d.cipher, Nonce(d.prefix, j, last), d.aad, ct).Some?
    ensures j < NumChunks(|p|, d.size) && j * d.size <= |p|
    ensures last == (j == NumChunks(|p|, d.size) - 1)
    ensures Open(d.cipher, Nonce(d.prefix, j, last), d.aad, ct).value == ChunkOf(d, p[j * d.size..])
  {
    hide SealFrom, Open, NumChunks;
    var nonce := Nonce(d.prefix, j, last);
    var m := Open(d.cipher, nonce, d.aad, ct).value;
    OpenedCarriesTag(d.cipher, nonce, d.aad, ct);
    var s := Tag(d.cipher, nonce, d.aad, m, 0);
    assert s in SealFrom(d, p, 0);
    var k := TagNamesChunk(d, p, 0, s);
    NonceInjective(d.prefix, j, last, k, k == NumChunks(|p|, d.size) - 1);
  }

  /** From chunk `j` on: only true plaintext is emitted, and success means the
      remaining ciphertext is the honest one. */
  lemma {:induction false} IntegrityFrom(d: Domain, p: seq<byte>, ct: Ct, j: nat)
    requires Admissible(d) && NumChunks(|p|, d.size) <= U32_MAX + 1
    requires j < NumChunks(|p|, d.size) && j * d.size <= |p|
    requires HonestTags(d, ct, SealFrom(d, p, 0))
    ensures var r := DecryptFrom(d, ct, j);
            && r.emitted <= p[j * d.size..]
            && (r.ok ==> r.emitted == p[j * d.size..] && ct == SealFrom(d, p[j * d.size..], j))
    decreases |ct|
  {
    hide SealFrom, Open, Seal, Nonce, NumChunks;
    var n := NumChunks(|p|, d.size);
    var rest := p[j * d.size..];
    LastChunk(|p|, d.size, j);
    if |ct| <= d.size + TAG_LEN {
      var o := Open(d.cipher, Nonce(d.prefix, j, true), d.aad, ct);
      if o.Some? {
        OpenedChunkIsHonest(d, p, ct, j, true);
        assert rest + [] == rest;
        SealFromStep(d, rest, [], j);
        OpenIffSealed(d.cipher, Nonce(d.prefix, j, true), d.aad, ct, rest);
      }
    } else if j < U32_MAX {
      var first := ct[..d.size + TAG_LEN];
      var o := Open(d.cipher, Nonce(d.prefix, j, false), d.aad, first);
      if o.Some? {
        OpenedChunkIsHonest(d, p, first, j, false);
        OpenIffSealed(d.cipher, Nonce(d.prefix, j, false), d.aad, first, o.value);
        assert (j + 1) * d.size == j * d.size + d.size;
        assert rest[d.size..] == p[(j + 1) * d.size..];
        IntegrityFrom(d, p, ct[d.size + TAG_LEN..], j + 1);
        assert rest == rest[..d.size] + rest[d.size..];
        SealFromStep(d, rest[..d.size], rest[d.size..], j);
        assert ct == first + ct[d.size + TAG_LEN..];
      }
    }
  }

  /** Whatever an attacker assembles from the honest stream's tags, decryption
      emits only a prefix of the true plaintext and reports success exactly on the
      honest stream: truncation, extension, reordering and duplication all fail. */
  lemma StreamIntegrity(d: Domain, p: seq<byte>, ct: Ct)
    requires Admissible(d) && NumChunks(|p|, d.size) <= U32_MAX + 1
    requires HonestTags(d, ct, SealFrom(d, p, 0))
    ensures DecryptFrom(d, ct, 0).emitted <= p
    ensures DecryptFrom(d, ct, 0).ok <==> ct == SealFrom(d, p, 0)
    ensures DecryptFrom(d, ct, 0).ok ==> DecryptFrom(d, ct, 0).emitted == p
  {
    assert p[0 * d.size..] == p;
    IntegrityFrom(d, p, ct, 0);
    DecryptInvertsEncrypt(d, p, 0);
  }
}
