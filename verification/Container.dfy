/** The v1 container: a manifest whose files lie back to back in one data stream. */
module Container {
  import opened Base
  import opened Aead
  import opened Stream
  import opened Paths
  import opened RandomAccess
  import opened VaultTree
  import opened Manifest
  import opened Validation

  datatype FileRow = FileRow(path: Path, kind: Kind, size: nat, attr: Attr, digest: Digest, offset: nat)
  type Layout = seq<FileRow>

  function Bytes(e: FileRow): nat { if e.kind.File? then e.size else 0 }

  /** The length of the data stream. */
  function Total(es: Layout): nat
  {
    if es == [] then 0 else Total(es[..|es| - 1]) + Bytes(es[|es| - 1])
  }

  /** Each file starts where the files before it end. */
  predicate Contiguous(es: Layout)
  {
    forall i :: 0 <= i < |es| && es[i].kind.File? ==> es[i].offset == Total(es[..i])
  }

  /** What a row stands for: its metadata and its slice of the stream. */
  datatype Item = Item(path: Path, kind: Kind, attr: Attr, digest: Digest, content: seq<byte>)

  function ItemOf(e: FileRow, d: seq<byte>): Item
  {
    Item(e.path, e.kind, e.attr, e.digest,
         if e.kind.File? && e.offset + e.size <= |d| then d[e.offset..e.offset + e.size] else [])
  }

  function Items(es: Layout, d: seq<byte>): (its: seq<Item>)
    ensures |its| == |es|
  {
    seq(|es|, i requires 0 <= i < |es| => ItemOf(es[i], d))
  }

  lemma TotalSnoc(es: Layout, e: FileRow)
    ensures Total(es + [e]) == Total(es) + Bytes(e)
  {
    assert (es + [e])[..|es|] == es;
  }

  lemma {:induction false} TotalGrows(es: Layout, n: nat)
    requires n <= |es|
    ensures Total(es[..n]) <= Total(es)
    decreases |es|
  {
    if n < |es| {
      TotalGrows(es[..|es| - 1], n);
      assert es[..|es| - 1][..n] == es[..n];
    } else {
      assert es[..n] == es;
    }
  }

  lemma RowFits(es: Layout, i: nat)
    requires Contiguous(es) && i < |es| && es[i].kind.File?
    ensures es[i].offset + es[i].size <= Total(es)
  {
    TotalGrows(es, i + 1);
    TotalStep(es, i);
    hide Total;
  }

  lemma ContiguousSnoc(es: Layout, e: FileRow)
    requires Contiguous(es) && (e.kind.File? ==> e.offset == Total(es))
    ensures Contiguous(es + [e])
  {
    var fs := es + [e];
    forall i | 0 <= i < |fs| && fs[i].kind.File?
      ensures fs[i].offset == Total(fs[..i])
    {
      assert fs[..i] == if i < |es| then es[..i] else es;
    }
  }

  lemma ContiguousInit(es: Layout)
    requires es != [] && Contiguous(es)
    ensures Contiguous(es[..|es| - 1])
  {
    var r := es[..|es| - 1];
    assert forall i :: 0 <= i < |r| ==> r[i] == es[i] && r[..i] == es[..i];
  }

  /** Bytes added after the stream change nothing in it. */
  lemma ItemsStable(es: Layout, d: seq<byte>, more: seq<byte>)
    requires Contiguous(es) && Total(es) <= |d|
    ensures Items(es, d + more) == Items(es, d)
  {
    hide Total, Contiguous;
    forall i | 0 <= i < |es|
      ensures ItemOf(es[i], d + more) == ItemOf(es[i], d)
    {
      if es[i].kind.File? {
        RowFits(es, i);
        var lo, hi := es[i].offset, es[i].offset + es[i].size;
        assert (d + more)[lo..hi] == d[lo..hi];
      }
    }
  }

  lemma ItemsSnoc(es: Layout, e: FileRow, d: seq<byte>, content: seq<byte>)
    requires Contiguous(es) && |d| == Total(es) && |content| == Bytes(e) && (e.kind.File? ==> e.offset == Total(es))
    ensures Contiguous(es + [e]) && Total(es + [e]) == |d + content|
    ensures Items(es + [e], d + content) == Items(es, d) + [Item(e.path, e.kind, e.attr, e.digest, content)]
  {
    hide Total, Contiguous, Items, ItemOf;
    ContiguousSnoc(es, e);
    TotalSnoc(es, e);
    ItemsStable(es, d, content);
    ItemsAppend(es, e, d + content);
    LastItem(e, d, content);
  }

  lemma LastItem(e: FileRow, d: seq<byte>, content: seq<byte>)
    requires |content| == Bytes(e) && (e.kind.File? ==> e.offset == |d|)
    ensures ItemOf(e, d + content) == Item(e.path, e.kind, e.attr, e.digest, content)
  {
    assert (d + content)[|d|..|d| + |content|] == content;
  }

  lemma ItemsAppend(es: Layout, e: FileRow, d: seq<byte>)
    ensures Items(es + [e], d) == Items(es, d) + [ItemOf(e, d)]
  {
    hide ItemOf;
    assert forall i :: 0 <= i < |es| ==> (es + [e])[i] == es[i];
  }

  // ----- validation -----

  /** `data_ciphertext_len`. */
  function DataLen(total: nat, chunk: nat): nat
    requires chunk > 0
  {
    total + NumChunks(total, chunk) * TAG_LEN
  }

  function StrictNorm(e: FileRow): Path
  {
    match Normalize(Join(e.path)) case Ok(p) => p case Err(_) => []
  }

  predicate PathsOk(es: Layout)
  {
    && |es| <= MAX_MANIFEST_ENTRIES
    && (forall i :: 0 <= i < |es| ==> Normalize(Join(es[i].path)).Ok?)
    && (forall i, j :: 0 <= i < j < |es| ==> StrictNorm(es[i]) != StrictNorm(es[j]))
    && (forall i, j :: 0 <= i < |es| && 0 <= j < |es| && es[i].kind.File? ==> !(StrictNorm(es[i]) < StrictNorm(es[j])))
  }

  predicate SizesOk(total: nat, chunk: nat, ctLen: nat)
  {
    && chunk > 0 && total <= U64_MAX && NumChunks(total, chunk) <= U32_MAX
    && DataLen(total, chunk) == ctLen <= U64_MAX
  }

  /** `validate_manifest_layout`. */
  predicate LayoutOk(es: Layout, chunk: nat, ctLen: nat)
  {
    PathsOk(es) && Contiguous(es) && SizesOk(Total(es), chunk, ctLen)
  }

  /** The paths of the first `n` rows normalise, all differently. */
  predicate NormsOk(es: Layout, n: nat)
    requires n <= |es|
  {
    && (forall i :: 0 <= i < n ==> Normalize(Join(es[i].path)).Ok?)
    && (forall i, j :: 0 <= i < j < n ==> StrictNorm(es[i]) != StrictNorm(es[j]))
  }

  method ValidateLayout(es: Layout, chunk: nat, ctLen: nat) returns (r: Result<(nat, nat)>)
    ensures r.Ok? <==> LayoutOk(es, chunk, ctLen)
    ensures r.Ok? ==> r.value == (Total(es), NumChunks(Total(es), chunk))
  {
    hide Normalize, Join, Total, NumChunks, StrictNorm, Contiguous;
    if chunk == 0 {
      return Err(Format);
    }
    if |es| > MAX_MANIFEST_ENTRIES {
      return Err(Format);
    }
    var rows := ScanRows(es);
    if rows.Err? {
      return Err(rows.error);
    }
    var (shape, total) := rows.value;
    var chunks := NumChunks(total, chunk);
    if chunks > U32_MAX {
      return Err(Format);
    }
    var ok := CheckTreeShape(shape);
    if !ok {
      return Err(Invalid);
    }
    var expected := total + chunks * TAG_LEN;
    if expected > U64_MAX || expected != ctLen {
      return Err(Format);
    }
    r := Ok((total, chunks));
  }

  /** The loop over the rows: paths, duplicates and running offset. */
  method ScanRows(es: Layout) returns (r: Result<(seq<(Path, Kind)>, nat)>)
    ensures r.Ok? <==> NormsOk(es, |es|) && Contiguous(es) && Total(es) <= U64_MAX
    ensures r.Ok? ==> |r.value.0| == |es| && r.value.1 == Total(es)
    ensures r.Ok? ==> forall i :: 0 <= i < |es| ==>
            r.value.0[i] == (StrictNorm(es[i]), es[i].kind) && StrictNorm(es[i]) != []
  {
    hide Normalize, Join, Total;
    var total := 0;
    var seen: set<Path> := {};
    var shape: seq<(Path, Kind)> := [];
    NoTotal(es[..0]);
    for n := 0 to |es|
      invariant |shape| == n && forall i :: 0 <= i < n ==>
                shape[i] == (StrictNorm(es[i]), es[i].kind) && StrictNorm(es[i]) != []
      invariant seen == set i | 0 <= i < n :: StrictNorm(es[i])
      invariant NormsOk(es, n)
      invariant forall i :: 0 <= i < n && es[i].kind.File? ==> es[i].offset == Total(es[..i])
      invariant total == Total(es[..n]) <= U64_MAX
    {
      var norm := Normalize(Join(es[n].path));
      if norm.Err? {
        return Err(Invalid);
      }
      StrictNotEmpty(Join(es[n].path));
      shape := shape + [(norm.value, es[n].kind)];
      if norm.value in seen {
        return Err(Format);
      }
      seen := seen + {norm.value};
      TotalStep(es, n);
      if es[n].kind.File? {
        if es[n].offset != total {
          return Err(Format);
        }
        total := total + es[n].size;
        if total > U64_MAX {
          TotalGrows(es, n + 1);
          return Err(Format);
        }
      }
    }
    assert es[..|es|] == es;
    r := Ok((shape, total));
  }

  lemma TotalStep(es: Layout, n: nat)
    requires n < |es|
    ensures Total(es[..n + 1]) == Total(es[..n]) + Bytes(es[n])
  {
    assert es[..n + 1] == es[..n] + [es[n]];
    TotalSnoc(es[..n], es[n]);
  }

  lemma NoTotal(es: Layout)
    requires es == []
    ensures Total(es) == 0
  {
  }

  lemma StrictNotEmpty(s: string)
    ensures Normalize(s).Ok? ==> Normalize(s).value != []
  {
  }

  /** Longer plaintext, longer ciphertext: the length check pins the plaintext length. */
  lemma {:induction false} DataLenInjective(a: nat, b: nat, chunk: nat)
    requires chunk > 0
    ensures DataLen(a, chunk) == DataLen(b, chunk) <==> a == b
  {
    if a < b {
      ChunksMonotone(a, b, chunk);
    } else if b < a {
      ChunksMonotone(b, a, chunk);
    }
  }

  lemma {:induction false} ChunksMonotone(a: nat, b: nat, chunk: nat)
    requires chunk > 0 && a <= b
    ensures NumChunks(a, chunk) <= NumChunks(b, chunk)
    decreases b
  {
    if a > chunk {
      ChunksMonotone(a - chunk, b - chunk, chunk);
    }
  }

  /** What a reader may rely on once the layout passed: the files lie one after the other, within a
      stream that has exactly the bytes of the files, and no two paths are the same. */
  lemma ValidatedLayout(es: Layout, chunk: nat, ctLen: nat)
    requires LayoutOk(es, chunk, ctLen)
    ensures forall i :: 0 <= i < |es| && es[i].kind.File? ==> es[i].offset + es[i].size <= Total(es) <= U64_MAX
    ensures forall i, j :: 0 <= i < j < |es| && es[i].kind.File? && es[j].kind.File? ==>
              es[i].offset + es[i].size <= es[j].offset
    ensures forall i, j :: 0 <= i < j < |es| ==> es[i].path != es[j].path
    ensures forall len: nat :: DataLen(len, chunk) == ctLen ==> len == Total(es)
  {
    hide Total, Normalize, Join, NumChunks;
    forall i | 0 <= i < |es| && es[i].kind.File?
      ensures es[i].offset + es[i].size <= Total(es)
      ensures forall j :: i < j < |es| && es[j].kind.File? ==> es[i].offset + es[i].size <= es[j].offset
    {
      RowFits(es, i);
      forall j | i < j < |es| && es[j].kind.File?
        ensures es[i].offset + es[i].size <= es[j].offset
      {
        TotalStep(es, i);
        TotalGrows(es[..j], i + 1);
        assert es[..j][..i + 1] == es[..i + 1];
      }
    }
    forall len: nat | DataLen(len, chunk) == ctLen
      ensures len == Total(es)
    {
      DataLenInjective(len, Total(es), chunk);
    }
  }

  // ----- reconstruction -----

  /** The stream is exactly the files, and each has its recorded digest. */
  predicate Genuine(es: Layout, d: seq<byte>)
  {
    && Contiguous(es) && |d| == Total(es)
    && forall i :: 0 <= i < |es| && es[i].kind.File? ==> es[i].digest == Digest(ItemOf(es[i], d).content)
  }

  /** One file off the stream: at its offset, of its size, with its digest. */
  method ReadFile(e: FileRow, offset: nat, src: Source<byte>, ghost d: seq<byte>) returns (r: Result<seq<byte>>)
    requires e.kind.File? && Cut(d, offset, src.rest)
    modifies src
    ensures r.Ok? <==> e.offset == offset && offset + e.size <= |d| && e.digest == Digest(ItemOf(e, d).content)
    ensures r.Ok? ==> Cut(d, offset + e.size, src.rest) && r.value == ItemOf(e, d).content
  {
    if e.offset != offset {
      return Err(Format);
    }
    ghost var before := src.rest;
    var content := ReadChunk(src, e.size);
    CutMore(d, offset, before, content, src.rest);
    if |content| < e.size {
      return Err(Io);
    }
    if Digest(content) != e.digest {
      return Err(Auth);
    }
    r := Ok(content);
  }

  predicate RowOk(es: Layout, d: seq<byte>, i: nat)
    requires i < |es|
  {
    es[i].kind.File? ==> es[i].offset == Total(es[..i]) && es[i].digest == Digest(ItemOf(es[i], d).content)
  }

  predicate RowsOk(es: Layout, d: seq<byte>, n: nat)
    requires n <= |es|
  {
    forall i :: 0 <= i < n ==> RowOk(es, d, i)
  }

  lemma GenuineIff(es: Layout, d: seq<byte>)
    ensures Genuine(es, d) <==> |d| == Total(es) && RowsOk(es, d, |es|)
  {
    hide Total, ItemOf;
    if RowsOk(es, d, |es|) {
      forall i | 0 <= i < |es| && es[i].kind.File?
        ensures es[i].offset == Total(es[..i]) && es[i].digest == Digest(ItemOf(es[i], d).content)
      {
        assert RowOk(es, d, i);
      }
    }
  }

  lemma NotGenuine(es: Layout, d: seq<byte>, n: nat)
    requires n < |es| && (!RowOk(es, d, n) || Total(es[..n + 1]) > |d|)
    ensures !Genuine(es, d)
  {
    TotalGrows(es, n + 1);
    GenuineIff(es, d);
  }

  lemma ItemsStep(es: Layout, d: seq<byte>, n: nat)
    requires n < |es|
    ensures Items(es[..n + 1], d) == Items(es[..n], d) + [ItemOf(es[n], d)]
    ensures es[n].kind.Dir? ==> ItemOf(es[n], d) == Item(es[n].path, Dir, es[n].attr, es[n].digest, [])
  {
    assert es[..n + 1] == es[..n] + [es[n]];
    ItemsAppend(es[..n], es[n], d);
  }

  /** `reconstruct_vault_streaming`: reads each file off the stream, in order. */
  method Reconstruct(es: Layout, src: Source<byte>) returns (r: Result<seq<Item>>)
    requires PathsOk(es)
    modifies src
    ensures r.Ok? <==> Genuine(es, old(src.rest))
    ensures r.Ok? ==> r.value == Items(es, old(src.rest))
  {
    hide PathsOk, Total, ItemOf, Items, Genuine;
    ghost var d := src.rest;
    var offset := 0;
    var items: seq<Item> := [];
    NoTotal(es[..0]);
    for n := 0 to |es|
      invariant offset == Total(es[..n]) && Cut(d, offset, src.rest)
      invariant items == Items(es[..n], d) && RowsOk(es, d, n)
    {
      var e := es[n];
      TotalStep(es, n);
      ItemsStep(es, d, n);
      if e.kind.File? {
        var content := ReadFile(e, offset, src, d);
        if content.Err? {
          NotGenuine(es, d, n);
          return Err(content.error);
        }
        offset := offset + e.size;
        items := items + [Item(e.path, File, e.attr, e.digest, content.value)];
        FileItem(e, d);
      } else {
        items := items + [Item(e.path, Dir, e.attr, e.digest, [])];
      }
    }
    assert es[..|es|] == es;
    GenuineIff(es, d);
    var extra := src.Read(1);
    if extra != [] {
      return Err(Format);
    }
    r := Ok(items);
  }

  lemma FileItem(e: FileRow, d: seq<byte>)
    ensures ItemOf(e, d) == Item(e.path, e.kind, e.attr, e.digest, ItemOf(e, d).content)
  {
  }

  /** `rest` is what is left of `d` after `offset` bytes. */
  predicate Cut(d: seq<byte>, offset: nat, rest: seq<byte>)
  {
    offset <= |d| && rest == d[offset..]
  }

  lemma CutMore(d: seq<byte>, offset: nat, rest: seq<byte>, got: seq<byte>, left: seq<byte>)
    requires Cut(d, offset, rest) && rest == got + left
    ensures Cut(d, offset + |got|, left) && got == d[offset..offset + |got|]
    ensures offset + |got| <= |d| && (left == [] ==> offset + |got| == |d|)
  {
    assert rest[|got|..] == left;
  }

  // ----- the container itself -----

  /** `ContainerPlan::write`: the stream must encrypt to the length declared for `total`. */
  function WriteData(dom: Domain, total: nat, data: seq<byte>): Result<Ct>
    requires dom.size > 0
  {
    if !Admissible(dom) || NumChunks(|data|, dom.size) > U32_MAX + 1 then Err(Format)
    else if |SealFrom(dom, data, 0)| != DataLen(total, dom.size) then Err(Format)
    else Ok(SealFrom(dom, data, 0))
  }

  /** What is written is exactly as long as declared, so it holds exactly the declared
      number of plaintext bytes, and it decrypts to them. */
  lemma WrittenData(dom: Domain, total: nat, data: seq<byte>)
    requires dom.size > 0 && WriteData(dom, total, data).Ok?
    ensures |data| == total
    ensures |WriteData(dom, total, data).value| == DataLen(total, dom.size)
    ensures DecryptFrom(dom, WriteData(dom, total, data).value, 0) == Outcome(data, true)
  {
    CiphertextLength(dom, data, 0);
    DataLenInjective(|data|, total, dom.size);
    DecryptInvertsEncrypt(dom, data, 0);
  }
}
