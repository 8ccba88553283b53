/** The pull reader over a STREAM ciphertext. */
module StreamReader {
  import opened Base
  import opened Aead
  import opened Stream

  /** What a consumer gets that reads on after every error: the chunk that failed stays
      in place while the source runs out behind it, and is then tried as the last one. */
  function RetryFrom(d: Domain, ct: Ct, i: nat): Outcome
    decreases |ct|
  {
    var n := d.size + TAG_LEN;
    var first := if |ct| <= n then ct else ct[..n];
    var step := if |ct| <= n || i >= U32_MAX then None else Open(d.cipher, Nonce(d.prefix, i, false), d.aad, first);
    if step.Some? then
      var r := RetryFrom(d, ct[n..], i + 1);
      Outcome(step.value + r.emitted, r.ok)
    else
      match Open(d.cipher, Nonce(d.prefix, i, true), d.aad, first)
      case Some(m) => Outcome(m, true)
      case None => Outcome([], false)
  }

  lemma RetryStep(d: Domain, chunk: Ct, rest: Ct, i: nat)
    requires |chunk| <= d.size + TAG_LEN && (|chunk| < d.size + TAG_LEN ==> rest == [])
    ensures var o := Open(d.cipher, Nonce(d.prefix, i, false), d.aad, chunk);
            var l := Open(d.cipher, Nonce(d.prefix, i, true), d.aad, chunk);
            RetryFrom(d, chunk + rest, i) ==
            if rest != [] && i < U32_MAX && o.Some? then
              Outcome(o.value + RetryFrom(d, rest, i + 1).emitted, RetryFrom(d, rest, i + 1).ok)
            else if l.Some? then Outcome(l.value, true)
            else Outcome([], false)
  {
    hide Open, Nonce;
    if rest == [] {
      assert chunk + rest == chunk;
    } else {
      assert (chunk + rest)[..d.size + TAG_LEN] == chunk && (chunk + rest)[d.size + TAG_LEN..] == rest;
    }
  }

  class StreamDecryptReader {
    const d: Domain
    const src: Source<Symbol>
    var dec: Option<nat>      // position of the decryptor, gone once the last chunk is taken
    var current: Ct           // look-ahead ciphertext chunk
    var plain: seq<byte>      // most recently decrypted chunk
    var pos: nat              // how much of it was handed out
    var finished: bool

    ghost predicate Valid()
      reads this, src
    {
      && Admissible(d)
      && pos <= |plain|
      && (finished ==> dec.None?)
      && (dec.None? ==> src.rest == [])
      && (dec.Some? ==>
            && dec.value <= U32_MAX
            && |current| <= d.size + TAG_LEN && (|current| < d.size + TAG_LEN ==> src.rest == []))
    }

    /** Everything this reader will still deliver up to the first error, and how that ends. */
    ghost function Remaining(): Outcome
      requires Valid()
      reads this, src
    {
      if dec.None? then Outcome(plain[pos..], finished)
      else
        var r := DecryptFrom(d, current + src.rest, dec.value);
        Outcome(plain[pos..] + r.emitted, r.ok)
    }

    /** Everything it will still deliver to a consumer that reads on after errors. */
    ghost function Retried(): Outcome
      requires Valid()
      reads this, src
    {
      if dec.None? then Outcome(plain[pos..], finished)
      else
        var r := RetryFrom(d, current + src.rest, dec.value);
        Outcome(plain[pos..] + r.emitted, r.ok)
    }

    /** `new_with`, once the parameter checks passed. */
    constructor (d: Domain, src: Source<Symbol>)
      requires Admissible(d)
      modifies src
      ensures this.src == src && this.d == d && Valid()
      ensures Remaining() == DecryptFrom(d, old(src.rest), 0)
      ensures Retried() == RetryFrom(d, old(src.rest), 0)
    {
      hide DecryptFrom, RetryFrom;
      this.d := d;
      this.src := src;
      var first := ReadChunk(src, d.size + TAG_LEN);
      current := first;
      dec := Some(0);
      plain, pos, finished := [], 0, false;
      new;
      assert Remaining().emitted == DecryptFrom(d, old(src.rest), 0).emitted;
      assert Retried().emitted == RetryFrom(d, old(src.rest), 0).emitted;
    }

    /** Nothing is handed out here: after an error the reader is as before but for a chunk
        of the source lost, or, once the last chunk failed, for good at its end. */
    method Refill() returns (r: Result<bool>)
      requires Valid() && pos == |plain|
      modifies this, src
      ensures Valid() && Retried() == old(Retried())
      ensures r.Ok? ==> Remaining() == old(Remaining())
      ensures r == Ok(false) ==> finished && Remaining() == Outcome([], true) && Retried() == Outcome([], true)
      ensures r == Ok(true) ==> !old(finished)
      ensures r == Ok(true) ==> finished || |src.rest| < old(|src.rest|)
      ensures r.Err? ==> old(Remaining()) == Outcome([], false) && pos == |plain| && !finished
      ensures r.Err? && dec.Some? ==> |src.rest| < old(|src.rest|)
    {
      hide DecryptFrom, RetryFrom, Open, Nonce;
      if finished {
        return Ok(false);
      }
      ghost var rest := src.rest;
      assert plain[pos..] == [];
      var next := ReadChunk(src, d.size + TAG_LEN);
      if dec.None? {
        return Err(Format);
      }
      DecryptFromStep(d, current, rest, dec.value);
      RetryStep(d, current, rest, dec.value);
      var isLast := next == [];
      var pt;
      if isLast {
        pt := Open(d.cipher, Nonce(d.prefix, dec.value, true), d.aad, current);
        dec := None;
      } else if dec.value == U32_MAX {
        pt := None;
      } else {
        pt := Open(d.cipher, Nonce(d.prefix, dec.value, false), d.aad, current);
      }
      if pt.None? {
        if !isLast {
          RetryStep(d, current, src.rest, dec.value);
        }
        return Err(Auth);
      }
      if isLast {
        finished := true;
      } else {
        dec := Some(dec.value + 1);
        current := next;
      }
      plain, pos := pt.value, 0;
      r := Ok(true);
    }

    /** A read hands out the next true bytes; an empty answer to a non-empty
        request means the authenticated end was reached; an error comes only
        after every byte that authenticates was handed out, and leaves what reading on
        will give. */
    method Read(max: nat) returns (r: Result<seq<byte>>)
      requires Valid()
      modifies this, src
      ensures Valid()
      ensures r.Ok? ==> |r.value| <= max &&
                        old(Remaining()) == Outcome(r.value + Remaining().emitted, Remaining().ok) &&
                        old(Retried()) == Outcome(r.value + Retried().emitted, Retried().ok)
      ensures r == Ok([]) && max > 0 ==> old(Remaining()) == Outcome([], true) && old(Retried()) == Outcome([], true)
      ensures r.Err? ==> old(Remaining()) == Outcome([], false) && Retried() == old(Retried())
      ensures r.Err? ==> pos == |plain| && !finished && (dec.Some? ==> |src.rest| < old(|src.rest|))
      ensures |src.rest| <= old(|src.rest|)
    {
      hide DecryptFrom, RetryFrom;
      while pos == |plain|
        invariant Valid() && Remaining() == old(Remaining()) && Retried() == old(Retried())
        invariant |src.rest| <= old(|src.rest|)
        decreases !finished, |src.rest|
      {
        var more := Refill();
        if more.Err? {
          return Err(more.error);
        }
        if !more.value {
          return Ok([]);
        }
      }
      var got := TakePlain(max);
      r := Ok(got);
    }

    /** Hand out bytes of the chunk already decrypted. */
    method TakePlain(max: nat) returns (got: seq<byte>)
      requires Valid() && pos < |plain|
      modifies this
      ensures Valid() && |got| <= max && (max > 0 ==> got != []) && src.rest == old(src.rest)
      ensures old(Remaining()) == Outcome(got + Remaining().emitted, Remaining().ok)
      ensures old(Retried()) == Outcome(got + Retried().emitted, Retried().ok)
    {
      hide DecryptFrom, RetryFrom;
      var n := Min(|plain| - pos, max);
      got := plain[pos..pos + n];
      assert plain[pos..] == got + plain[pos + n..];
      pos := pos + n;
    }
  }

  /** However a consumer slices its reads, the bytes it gets are the sequential
      decryption's, cut off only where the consumer stopped or the stream failed. */
  method Pull(reader: StreamDecryptReader, sizes: seq<nat>) returns (out: seq<byte>, failed: bool)
    requires reader.Valid()
    modifies reader, reader.src
    ensures failed ==> old(reader.Remaining()) == Outcome(out, false)
    ensures !failed ==> reader.Valid() &&
                        old(reader.Remaining()) == Outcome(out + reader.Remaining().emitted, reader.Remaining().ok)
  {
    hide DecryptFrom, RetryFrom;
    out, failed := [], false;
    for i := 0 to |sizes|
      invariant reader.Valid()
      invariant old(reader.Remaining()) == Outcome(out + reader.Remaining().emitted, reader.Remaining().ok)
    {
      var r := reader.Read(sizes[i]);
      if r.Err? {
        return out, true;
      }
      Regroup(out, r.value, reader.Remaining().emitted);
      out := out + r.value;
    }
  }

  /** A consumer that reads on after errors, until the end or until no chunk is left to
      fail, gets what `RetryFrom` says. */
  method PullOn(reader: StreamDecryptReader, max: nat) returns (out: seq<byte>, ok: bool)
    requires reader.Valid() && max > 0
    modifies reader, reader.src
    ensures old(reader.Retried()) == Outcome(out, ok)
  {
    hide RetryFrom;
    out, ok := [], false;
    while true
      invariant reader.Valid()
      invariant old(reader.Retried()) == Outcome(out + reader.Retried().emitted, reader.Retried().ok)
      decreases |reader.Retried().emitted|, |reader.src.rest|
    {
      var r := reader.Read(max);
      if r.Err? {
        if reader.dec.None? {
          return out, false;
        }
      } else if r.value == [] {
        return out, true;
      } else {
        Regroup(out, r.value, reader.Retried().emitted);
        out := out + r.value;
      }
    }
  }

  // ----- what reading on accepts -----

  /** The first `j` chunks of `ct`, all of it when there are fewer. */
  function FirstChunks(d: Domain, ct: Ct, j: nat): Ct
  {
    var n := d.size + TAG_LEN;
    if j == 0 then [] else if |ct| <= n then ct else ct[..n] + FirstChunks(d, ct[n..], j - 1)
  }

  /** A chunk opens as a last chunk or as another one, not both. */
  lemma OneFlag(d: Domain, i: nat, chunk: Ct)
    requires i <= U32_MAX && Open(d.cipher, Nonce(d.prefix, i, true), d.aad, chunk).Some?
    ensures Open(d.cipher, Nonce(d.prefix, i, false), d.aad, chunk).None?
  {
    var a, b := Nonce(d.prefix, i, true), Nonce(d.prefix, i, false);
    if Open(d.cipher, b, d.aad, chunk).Some? {
      var l, m := Open(d.cipher, a, d.aad, chunk).value, Open(d.cipher, b, d.aad, chunk).value;
      OpenIffSealed(d.cipher, a, d.aad, chunk, l);
      OpenIffSealed(d.cipher, b, d.aad, chunk, m);
      assert chunk[|chunk| - 1].nonce == a && chunk[|chunk| - 1].nonce == b;
      NonceInjective(d.prefix, i, true, i, false);
    }
  }

  /** The sequential decryption of some first chunks, by its first step. */
  lemma ChunksStep(d: Domain, ct: Ct, i: nat, j: nat)
    requires |ct| > d.size + TAG_LEN && j > 1
    ensures var n := d.size + TAG_LEN;
            var o := Open(d.cipher, Nonce(d.prefix, i, false), d.aad, ct[..n]);
            var r := DecryptFrom(d, FirstChunks(d, ct[n..], j - 1), i + 1);
            DecryptFrom(d, FirstChunks(d, ct, j), i) ==
            if i >= U32_MAX || o.None? then Outcome([], false) else Outcome(o.value + r.emitted, r.ok)
  {
    var n := d.size + TAG_LEN;
    FirstChunksStep(d, ct);
    hide DecryptFrom, FirstChunks, Open, Nonce;
    DecryptFromStep(d, ct[..n], FirstChunks(d, ct[n..], j - 1), i);
  }

  predicate Accepts(d: Domain, ct: Ct, i: nat, p: seq<byte>, j: nat)
  {
    j > 0 && DecryptFrom(d, FirstChunks(d, ct, j), i) == Outcome(p, true)
  }

  /** Reading on accepts exactly when some number of first chunks is a stream by itself. */
  lemma {:induction false} RetryIff(d: Domain, ct: Ct, i: nat, p: seq<byte>)
    requires i <= U32_MAX
    ensures RetryFrom(d, ct, i) == Outcome(p, true) <==> exists j: nat :: Accepts(d, ct, i, p, j)
    decreases |ct|
  {
    hide DecryptFrom, RetryFrom, FirstChunks, Open, Nonce;
    var n := d.size + TAG_LEN;
    if |ct| <= n {
      AllChunks(d, ct);
      RetryStep(d, ct, [], i);
      DecryptFromStep(d, ct, [], i);
      assert ct + [] == ct;
      assert Accepts(d, ct, i, p, 1) <==> RetryFrom(d, ct, i) == Outcome(p, true);
    } else {
      var c, t := ct[..n], ct[n..];
      assert ct == c + t && t != [];
      RetryStep(d, c, t, i);
      FirstChunksStep(d, ct);
      var o := Open(d.cipher, Nonce(d.prefix, i, false), d.aad, c);
      DecryptFromStep(d, c, [], i);
      assert c + [] == c;
      if i < U32_MAX && o.Some? {
        if DecryptFrom(d, c, i).ok {
          OneFlag(d, i, c);
        }
        var r := RetryFrom(d, t, i + 1);
        RetryIff(d, t, i + 1, r.emitted);
        if r.ok {
          var j: nat :| Accepts(d, t, i + 1, r.emitted, j);
          ChunksStep(d, ct, i, j + 1);
          assert Accepts(d, ct, i, o.value + r.emitted, j + 1);
        }
        forall j: nat | Accepts(d, ct, i, p, j)
          ensures RetryFrom(d, ct, i) == Outcome(p, true)
        {
          ChunksStep(d, ct, i, j);
          var q := DecryptFrom(d, FirstChunks(d, t, j - 1), i + 1).emitted;
          assert Accepts(d, t, i + 1, q, j - 1);
          RetryIff(d, t, i + 1, q);
        }
      } else {
        assert Accepts(d, ct, i, p, 1) <==> RetryFrom(d, ct, i) == Outcome(p, true);
        forall j: nat | Accepts(d, ct, i, p, j)
          ensures j == 1
        {
          if j > 1 {
            ChunksStep(d, ct, i, j);
          }
        }
      }
    }
  }

  lemma AllChunks(d: Domain, ct: Ct)
    requires |ct| <= d.size + TAG_LEN
    ensures forall j: nat :: j > 0 ==> FirstChunks(d, ct, j) == ct
  {
  }

  lemma SomeChunks(d: Domain, ct: Ct, j: nat)
    requires |ct| > d.size + TAG_LEN && j > 0
    ensures var n := d.size + TAG_LEN;
            FirstChunks(d, ct, j) == ct[..n] + (if j == 1 then [] else FirstChunks(d, ct[n..], j - 1))
  {
  }

  lemma FirstChunksStep(d: Domain, ct: Ct)
    requires |ct| > d.size + TAG_LEN
    ensures var n := d.size + TAG_LEN;
            && FirstChunks(d, ct, 1) == ct[..n]
            && forall j: nat :: j > 1 ==>
                 FirstChunks(d, ct, j) == ct[..n] + FirstChunks(d, ct[n..], j - 1) &&
                 FirstChunks(d, ct[n..], j - 1) != []
  {
    var n := d.size + TAG_LEN;
    SomeChunks(d, ct, 1);
    assert ct[..n] + [] == ct[..n];
    hide FirstChunks;
    forall j: nat | j > 1
      ensures FirstChunks(d, ct, j) == ct[..n] + FirstChunks(d, ct[n..], j - 1) && FirstChunks(d, ct[n..], j - 1) != []
    {
      SomeChunks(d, ct, j);
      var t := ct[n..];
      if |t| <= n {
        AllChunks(d, t);
      } else {
        SomeChunks(d, t, j - 1);
      }
    }
  }

  lemma {:induction false} FirstChunksPrefix(d: Domain, ct: Ct, j: nat)
    ensures FirstChunks(d, ct, j) <= ct
    decreases |ct|
  {
    var n := d.size + TAG_LEN;
    if j > 0 && |ct| > n {
      FirstChunksPrefix(d, ct[n..], j - 1);
      assert ct == ct[..n] + ct[n..];
    }
  }

  /** No short chunk: the stream does not show where it ends. */
  predicate Whole(d: Domain, p: seq<byte>)
    requires d.size > 0
  {
    p != [] && |p| % d.size == 0
  }

  lemma WholeStep(d: Domain, p: seq<byte>)
    requires d.size > 0
    ensures |p| <= d.size ==> (Whole(d, p) <==> |p| == d.size)
    ensures |p| > d.size ==> (Whole(d, p) <==> Whole(d, p[d.size..]))
  {
    if |p| > d.size {
      var q := (|p| - d.size) / d.size;
      DivBounds(|p| - d.size, d.size, q);
      assert (q + 1) * d.size == q * d.size + d.size;
      DivBounds(|p|, d.size, q + 1);
    } else if 0 < |p| {
      DivBounds(|p|, d.size, if |p| == d.size then 1 else 0);
    }
  }

  /** `h` is some number of first chunks of `ct`. */
  ghost predicate StartsWith(d: Domain, ct: Ct, h: Ct) { exists j: nat :: j > 0 && FirstChunks(d, ct, j) == h }

  lemma StartsShort(d: Domain, ct: Ct, h: Ct)
    requires |ct| <= d.size + TAG_LEN
    ensures StartsWith(d, ct, h) <==> ct == h
  {
    AllChunks(d, ct);
    assert FirstChunks(d, ct, 1) == ct;
  }

  lemma StartsLong(d: Domain, ct: Ct, h: Ct)
    requires |ct| > d.size + TAG_LEN
    ensures var n := d.size + TAG_LEN;
            && (|h| <= n ==> (StartsWith(d, ct, h) <==> ct[..n] == h))
            && (|h| > n ==> (StartsWith(d, ct, h) <==> ct[..n] == h[..n] && StartsWith(d, ct[n..], h[n..])))
  {
    hide FirstChunks;
    var n := d.size + TAG_LEN;
    FirstChunksStep(d, ct);
    assert FirstChunks(d, ct, 1) == ct[..n];
    if j: nat :| j > 1 && FirstChunks(d, ct, j) == h {
      assert h[..n] == ct[..n] && h[n..] == FirstChunks(d, ct[n..], j - 1);
    }
    if |h| > n {
      assert h == h[..n] + h[n..];
      if k: nat :| k > 0 && FirstChunks(d, ct[n..], k) == h[n..] && ct[..n] == h[..n] {
        assert FirstChunks(d, ct, k + 1) == h;
      }
    }
  }

  /** The honest stream is some first chunks of `ct` exactly when it is all of it, or a
      prefix made of whole chunks. */
  lemma {:induction false} FirstChunksAre(d: Domain, p: seq<byte>, i: nat, ct: Ct)
    requires d.size > 0
    ensures StartsWith(d, ct, SealFrom(d, p, i)) <==>
            ct == SealFrom(d, p, i) || (SealFrom(d, p, i) <= ct && Whole(d, p))
    decreases |p|
  {
    hide Seal, Nonce, StartsWith, Whole, SealFrom;
    var n := d.size + TAG_LEN;
    var h := SealFrom(d, p, i);
    WholeStep(d, p);
    SealFirst(d, p, i);
    if |ct| <= n {
      StartsShort(d, ct, h);
    } else {
      StartsLong(d, ct, h);
      assert ct == ct[..n] + ct[n..];
      if |p| > d.size {
        FirstChunksAre(d, p[d.size..], i + 1, ct[n..]);
        assert h == h[..n] + h[n..];
        SplitPrefix(h[..n], h[n..], ct[..n], ct[n..]);
      }
    }
  }

  lemma SplitPrefix<T>(a: seq<T>, b: seq<T>, x: seq<T>, y: seq<T>)
    requires |a| == |x|
    ensures x + y == a + b <==> x == a && y == b
    ensures a + b <= x + y <==> x == a && b <= y
  {
    assert (x + y)[..|a|] == x && (a + b)[..|a|] == a;
    assert (x + y)[|a|..] == y && (a + b)[|a|..] == b;
    if a + b <= x + y {
      assert (x + y)[..|a + b|][..|a|] == x;
      assert (x + y)[..|a + b|][|a|..] == y[..|b|];
    }
  }

  lemma SealFirst(d: Domain, p: seq<byte>, i: nat)
    requires d.size > 0
    ensures var h := SealFrom(d, p, i);
            if |p| <= d.size then |h| == |p| + TAG_LEN
            else |h| > d.size + TAG_LEN && h[d.size + TAG_LEN..] == SealFrom(d, p[d.size..], i + 1)
  {
    if |p| > d.size {
      CiphertextLength(d, p[d.size..], i + 1);
    }
  }

  /** A consumer that reads on accepts, besides the honest stream, exactly its extensions
      when it has no short chunk; what it gets is true in every case. */
  lemma RetryIntegrity(d: Domain, p: seq<byte>, ct: Ct)
    requires Admissible(d) && NumChunks(|p|, d.size) <= U32_MAX + 1
    requires HonestTags(d, ct, SealFrom(d, p, 0))
    ensures var r := RetryFrom(d, ct, 0);
            && (r.ok <==> ct == SealFrom(d, p, 0) || (SealFrom(d, p, 0) <= ct && Whole(d, p)))
            && (r.ok ==> r.emitted == p)
  {
    hide SealFrom, RetryFrom, DecryptFrom, FirstChunks, Whole, NumChunks;
    var r, h := RetryFrom(d, ct, 0), SealFrom(d, p, 0);
    RetryIff(d, ct, 0, r.emitted);
    FirstChunksAre(d, p, 0, ct);
    forall j: nat | j > 0
      ensures DecryptFrom(d, FirstChunks(d, ct, j), 0).ok <==> FirstChunks(d, ct, j) == SealFrom(d, p, 0)
      ensures DecryptFrom(d, FirstChunks(d, ct, j), 0).ok ==>
              DecryptFrom(d, FirstChunks(d, ct, j), 0) == Outcome(p, true)
    {
      FirstChunksPrefix(d, ct, j);
      StreamIntegrity(d, p, FirstChunks(d, ct, j));
    }
    if r.ok {
      var j: nat :| Accepts(d, ct, 0, r.emitted, j);
      assert StartsWith(d, ct, h);
    }
    if StartsWith(d, ct, h) {
      var j: nat :| j > 0 && FirstChunks(d, ct, j) == h;
      assert Accepts(d, ct, 0, p, j);
      RetryIff(d, ct, 0, p);
    }
  }

  /** The extended stream that sequential decryption refuses and reading on accepts. */
  lemma ExtensionAccepted(d: Domain, p: seq<byte>, extra: Ct)
    requires Admissible(d) && NumChunks(|p|, d.size) <= U32_MAX + 1 && Whole(d, p) && extra != []
    requires forall s :: s in extra ==> s.Raw?
    ensures var ct := SealFrom(d, p, 0) + extra;
            !DecryptFrom(d, ct, 0).ok && RetryFrom(d, ct, 0) == Outcome(p, true)
  {
    hide SealFrom, RetryFrom, DecryptFrom, Whole, NumChunks;
    var ct := SealFrom(d, p, 0) + extra;
    StreamIntegrity(d, p, ct);
    RetryIntegrity(d, p, ct);
  }
}
