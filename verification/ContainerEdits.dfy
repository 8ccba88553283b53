/** The streaming edits of a v1 container: each writes a new container in one pass
    over the old data. */
module ContainerEdits {
  import opened Base
  import opened Stream
  import opened Paths
  import opened RandomAccess
  import opened VaultTree
  import opened Manifest
  import opened Validation
  import opened Container
  import opened Segments

  // ----- dropping rows -----

  /** The kept rows, their offsets recomputed. */
  function Survivors(es: Layout, keep: seq<bool>): Layout
    requires |keep| == |es|
  {
    if es == [] then []
    else
      var n := |es| - 1;
      var rows := Survivors(es[..n], keep[..n]);
      if !keep[n] then rows
      else rows + [es[n].(offset := if es[n].kind.File? then Total(rows) else 0)]
  }

  function SegmentsOf(es: Layout, keep: seq<bool>): seq<Segment>
    requires |keep| == |es|
  {
    if es == [] then []
    else
      var n := |es| - 1;
      SegmentsOf(es[..n], keep[..n]) + if es[n].kind.File? then [Segment(es[n].size, keep[n])] else []
  }

  function Filter(items: seq<Item>, keep: seq<bool>): seq<Item>
    requires |keep| == |items|
  {
    if items == [] then []
    else
      var n := |items| - 1;
      Filter(items[..n], keep[..n]) + if keep[n] then [items[n]] else []
  }

  /** One pass of select equals filter-then-concatenate: the new stream is contiguous,
      and every kept file's slice at its new offset is its old content. */
  lemma {:induction false} SelectKeeps(es: Layout, keep: seq<bool>, d: seq<byte>)
    requires |keep| == |es| && Contiguous(es) && |d| == Total(es)
    ensures SegTotal(SegmentsOf(es, keep)) == |d|
    ensures var rows, data := Survivors(es, keep), Select(d, SegmentsOf(es, keep));
            && Contiguous(rows) && |data| == Total(rows)
            && Items(rows, data) == Filter(Items(es, d), keep)
  {
    if es == [] {
      assert Items(Survivors(es, keep), Select(d, [])) == [];
    } else {
      var n := |es| - 1;
      var e, r := es[n], es[..n];
      assert es == r + [e];
      ContiguousInit(es);
      TotalSnoc(r, e);
      var head, tail := d[..Total(r)], d[Total(r)..];
      assert d == head + tail;
      SelectKeeps(r, keep[..n], head);
      ItemsSnoc(r, e, head, tail);
      assert Items(es, d)[..n] == Items(r, head);
      StepSelect(es, keep, head, tail);
      var rows, data := Survivors(r, keep[..n]), Select(head, SegmentsOf(r, keep[..n]));
      var moved := e.(offset := if e.kind.File? then Total(rows) else 0);
      ItemsSnoc(rows, moved, data, tail);
      hide Survivors, SegmentsOf, Select, SegTotal, Total, Contiguous, Items;
      assert data + [] == data;
      SurvivorsSnoc(es, keep);
      FilterSnoc(Items(es, d), keep);
    }
  }

  lemma SurvivorsSnoc(es: Layout, keep: seq<bool>)
    requires |keep| == |es| > 0
    ensures var n := |es| - 1;
            var rows := Survivors(es[..n], keep[..n]);
            Survivors(es, keep) ==
              if keep[n] then rows + [es[n].(offset := if es[n].kind.File? then Total(rows) else 0)] else rows
  {
  }

  lemma FilterSnoc(items: seq<Item>, keep: seq<bool>)
    requires |keep| == |items| > 0
    ensures var n := |items| - 1;
            Filter(items, keep) == Filter(items[..n], keep[..n]) + if keep[n] then [items[n]] else []
  {
  }

  lemma StepSelect(es: Layout, keep: seq<bool>, head: seq<byte>, tail: seq<byte>)
    requires |keep| == |es| > 0
    requires var n := |es| - 1; SegTotal(SegmentsOf(es[..n], keep[..n])) == |head| && |tail| == Bytes(es[n])
    ensures var n := |es| - 1;
            && SegTotal(SegmentsOf(es, keep)) == |head + tail|
            && Select(head + tail, SegmentsOf(es, keep)) ==
                 Select(head, SegmentsOf(es[..n], keep[..n])) + if keep[n] then tail else []
  {
    var n := |es| - 1;
    var segs := SegmentsOf(es[..n], keep[..n]);
    if es[n].kind.File? {
      SelectSnoc(head, segs, Segment(es[n].size, keep[n]), tail);
    } else {
      assert head + tail == head && segs + [] == segs;
      assert tail == [];
    }
  }

  lemma {:induction false} SurvivorsFrom(es: Layout, keep: seq<bool>)
    requires |keep| == |es|
    ensures |Survivors(es, keep)| <= |es|
    ensures forall s :: s in Survivors(es, keep) ==>
            exists i :: 0 <= i < |es| && keep[i] && es[i].path == s.path && es[i].kind == s.kind
  {
    if es != [] {
      var n := |es| - 1;
      SurvivorsFrom(es[..n], keep[..n]);
      SurvivorsSnoc(es, keep);
      hide Survivors, Total;
      var rows := Survivors(es[..n], keep[..n]);
      forall s | s in Survivors(es, keep)
        ensures exists i :: 0 <= i < |es| && keep[i] && es[i].path == s.path && es[i].kind == s.kind
      {
        if s in rows {
          var i :| 0 <= i < n && keep[..n][i] && es[..n][i].path == s.path && es[..n][i].kind == s.kind;
          assert keep[i];
        } else {
          assert es[n].path == s.path;
        }
      }
    }
  }

  /** Adding a row keeps the paths valid exactly when it is new and no file is above or
      below it. */
  lemma PathsSnoc(rows: Layout, e: FileRow)
    requires PathsOk(rows) && |rows| < MAX_MANIFEST_ENTRIES && Normalize(Join(e.path)).Ok?
    requires forall s :: s in rows ==> StrictNorm(s) != StrictNorm(e)
    ensures PathsOk(rows + [e]) <==>
            forall s :: s in rows ==>
              !(s.kind.File? && StrictNorm(s) < StrictNorm(e)) && !(e.kind.File? && StrictNorm(e) < StrictNorm(s))
  {
    hide Normalize, Join, StrictNorm;
    var fs := rows + [e];
    assert forall i :: 0 <= i < |rows| ==> fs[i] == rows[i] && rows[i] in rows;
    assert fs[|rows|] == e;
    if PathsOk(fs) {
      forall s | s in rows
        ensures !(s.kind.File? && StrictNorm(s) < StrictNorm(e)) && !(e.kind.File? && StrictNorm(e) < StrictNorm(s))
      {
        var i :| 0 <= i < |rows| && rows[i] == s;
        assert fs[i] == s;
      }
    }
  }

  /** Dropping rows keeps the others' paths valid and unique. */
  lemma {:induction false} SurvivorsPaths(es: Layout, keep: seq<bool>)
    requires |keep| == |es| && PathsOk(es)
    ensures PathsOk(Survivors(es, keep))
  {
    if es != [] {
      var n := |es| - 1;
      SurvivorsPaths(es[..n], keep[..n]);
      SurvivorsFrom(es[..n], keep[..n]);
      SurvivorsSnoc(es, keep);
      var rows := Survivors(es[..n], keep[..n]);
      var moved := es[n].(offset := if es[n].kind.File? then Total(rows) else 0);
      hide Survivors, Normalize, Join, Total;
      forall s | s in rows
        ensures StrictNorm(s) != StrictNorm(moved)
        ensures !(s.kind.File? && StrictNorm(s) < StrictNorm(moved)) &&
                !(moved.kind.File? && StrictNorm(moved) < StrictNorm(s))
      {
        var i :| 0 <= i < n && keep[..n][i] && es[..n][i].path == s.path && es[..n][i].kind == s.kind;
        assert StrictNorm(es[i]) == StrictNorm(s) && StrictNorm(es[n]) == StrictNorm(moved);
      }
      PathsSnoc(rows, moved);
    }
  }

  /** The loop shared by removal and replacement. */
  method Resegment(es: Layout, keep: seq<bool>) returns (r: Result<(Layout, seq<Segment>, nat)>)
    requires |keep| == |es|
    ensures r.Ok? <==> Total(Survivors(es, keep)) <= U64_MAX
    ensures r.Ok? ==> r.value == (Survivors(es, keep), SegmentsOf(es, keep), Total(Survivors(es, keep)))
  {
    hide Total;
    var rows: Layout := [];
    var segs: seq<Segment> := [];
    var offset := 0;
    NoTotal(rows);
    for n := 0 to |es|
      invariant rows == Survivors(es[..n], keep[..n]) && segs == SegmentsOf(es[..n], keep[..n])
      invariant offset == Total(rows) <= U64_MAX
    {
      var e := es[n];
      assert es[..n + 1][..n] == es[..n] && keep[..n + 1][..n] == keep[..n];
      if e.kind.File? {
        segs := segs + [Segment(e.size, keep[n])];
      }
      if keep[n] {
        var moved := e.(offset := if e.kind.File? then offset else 0);
        TotalSnoc(rows, moved);
        rows := rows + [moved];
        if e.kind.File? {
          offset := offset + e.size;
          if offset > U64_MAX {
            SurvivorsGrow(es, keep, n + 1);
            return Err(Format);
          }
        }
      }
    }
    assert es[..|es|] == es && keep[..|es|] == keep;
    r := Ok((rows, segs, offset));
  }

  lemma {:induction false} SurvivorsGrow(es: Layout, keep: seq<bool>, n: nat)
    requires |keep| == |es| && n <= |es|
    ensures Total(Survivors(es[..n], keep[..n])) <= Total(Survivors(es, keep))
    decreases |es|
  {
    if n < |es| {
      var m := |es| - 1;
      SurvivorsGrow(es[..m], keep[..m], n);
      assert es[..m][..n] == es[..n] && keep[..m][..n] == keep[..n];
      SurvivorsSnoc(es, keep);
      var rows := Survivors(es[..m], keep[..m]);
      TotalSnoc(rows, es[m].(offset := if es[m].kind.File? then Total(rows) else 0));
    } else {
      assert es[..n] == es && keep[..n] == keep;
    }
  }

  // ----- remove_paths -----

  /** Which rows a removal keeps: those under none of the named paths. */
  ghost predicate KeepsOthers(es: Layout, norms: seq<Path>, keep: seq<bool>)
  {
    |keep| == |es| && forall i :: 0 <= i < |es| ==> (keep[i] <==> forall m :: m in norms ==> !Under(m, es[i].path))
  }

  function NormAll(paths: seq<string>): Option<seq<Path>>
  {
    if paths == [] then Some([])
    else
      var n := |paths| - 1;
      match NormAll(paths[..n])
      case None => None
      case Some(ps) => match Normalize(paths[n]) case Ok(p) => Some(ps + [p]) case Err(_) => None
  }

  lemma {:induction false} NormAllFails(paths: seq<string>, n: nat)
    requires n <= |paths| && NormAll(paths[..n]).None?
    ensures NormAll(paths).None?
    decreases |paths|
  {
    if n < |paths| {
      assert paths[..|paths| - 1][..n] == paths[..n];
      NormAllFails(paths[..|paths| - 1], n);
    } else {
      assert paths[..n] == paths;
    }
  }

  method NormalizeAll(paths: seq<string>) returns (r: Option<seq<Path>>)
    ensures r == NormAll(paths)
  {
    hide Normalize;
    var norms: seq<Path> := [];
    for n := 0 to |paths|
      invariant NormAll(paths[..n]) == Some(norms)
    {
      assert paths[..n + 1][..n] == paths[..n];
      var norm := Normalize(paths[n]);
      if norm.Err? {
        NormAllFails(paths, n + 1);
        return None;
      }
      norms := norms + [norm.value];
    }
    assert paths[..|paths|] == paths;
    r := Some(norms);
  }

  /** A row's path is kept as the pieces of the stored string. */
  predicate Pieces(es: Layout) { forall i :: 0 <= i < |es| ==> es[i].path != [] && SlashFree(es[i].path) }

  /** The matchers compare strings; they decide the component-wise relation. */
  method KeepFlags(es: Layout, norms: seq<Path>) returns (keep: seq<bool>)
    requires Pieces(es) && forall m :: m in norms ==> LegalPath(m)
    ensures KeepsOthers(es, norms, keep)
  {
    keep := [];
    for i := 0 to |es|
      invariant |keep| == i && forall j :: 0 <= j < i ==>
                (keep[j] <==> forall m :: m in norms ==> !Under(m, es[j].path))
    {
      var removed := exists m :: m in norms && StringUnder(Join(m), Join(es[i].path));
      forall m | m in norms
        ensures StringUnder(Join(m), Join(es[i].path)) <==> Under(m, es[i].path)
      {
        SubtreeTest(Join(m), Join(es[i].path));
        assert SlashFree(m) by { assert forall c :: c in m ==> LegalComponent(c); }
        SplitJoin(m);
        SplitJoin(es[i].path);
      }
      hide Join, StringUnder;
      keep := keep + [!removed];
    }
  }

  lemma NormAllLegal(paths: seq<string>)
    requires NormAll(paths).Some?
    ensures forall m :: m in NormAll(paths).value ==> LegalPath(m)
  {
    if paths != [] {
      var n := |paths| - 1;
      NormAllLegal(paths[..n]);
      NormalizedIsCanonical(paths[n]);
      hide LegalComponent, ByteLen, Join, NormalizeStored;
    }
  }

  /** What `remove_paths` writes: the rows, the segments of the old stream, and the
      declared length. */
  method RemovePaths(es: Layout, remove: seq<string>)
    returns (r: Result<(Layout, seq<Segment>, nat)>, ghost keep: seq<bool>)
    requires Pieces(es)
    ensures NormAll(remove).None? ==> r.Err?
    ensures NormAll(remove).Some? ==>
              && KeepsOthers(es, NormAll(remove).value, keep)
              && (r.Ok? <==> Total(Survivors(es, keep)) <= U64_MAX)
              && (r.Ok? ==> r.value == (Survivors(es, keep), SegmentsOf(es, keep), Total(Survivors(es, keep))))
  {
    keep := [];
    var norms := NormalizeAll(remove);
    if norms.None? {
      return Err(Invalid), keep;
    }
    NormAllLegal(remove);
    hide LegalPath, Survivors, SegmentsOf, NormAll;
    var flags := KeepFlags(es, norms.value);
    keep := flags;
    r := Resegment(es, flags);
  }

  /** Removal preserves meaning: the new container imports to exactly the surviving items
      of the old one, whenever its chunk count is in range, which is the only thing
      validation can still refuse. */
  lemma RemovePreserves(es: Layout, keep: seq<bool>, d: seq<byte>, dom: Domain)
    requires |keep| == |es| && PathsOk(es) && Genuine(es, d) && Admissible(dom) && |d| <= U64_MAX
    requires NumChunks(|Select(d, SegmentsOf(es, keep))|, dom.size) <= U32_MAX + 1
    ensures var rows, data := Survivors(es, keep), Select(d, SegmentsOf(es, keep));
            && Genuine(rows, data) && Items(rows, data) == Filter(Items(es, d), keep)
            && WriteData(dom, Total(rows), data).Ok?
            && (LayoutOk(rows, dom.size, |WriteData(dom, Total(rows), data).value|) <==>
                  NumChunks(|data|, dom.size) <= U32_MAX)
  {
    var rows, data := Survivors(es, keep), Select(d, SegmentsOf(es, keep));
    SelectKeeps(es, keep, d);
    SurvivorsPaths(es, keep);
    GenuineItems(es, d);
    FilterGenuine(Items(es, d), keep);
    GenuineItems(rows, data);
    SelectShorter(d, SegmentsOf(es, keep));
    WriteIff(dom, Total(rows), data);
    hide Survivors, SegmentsOf, Select, SegTotal, Filter, Items, Total, PathsOk, Contiguous, NumChunks, ItemsGenuine,
         WriteData, SizesOk;
  }

  /** A write succeeds exactly when the stream has the declared length, and then the only
      size limit a reader can still refuse is the chunk count. */
  lemma WriteIff(dom: Domain, total: nat, data: seq<byte>)
    requires Admissible(dom) && |data| <= U64_MAX && NumChunks(|data|, dom.size) <= U32_MAX + 1
    ensures WriteData(dom, total, data).Ok? <==> |data| == total
    ensures |data| == total ==>
              (SizesOk(total, dom.size, |WriteData(dom, total, data).value|) <==>
               NumChunks(|data|, dom.size) <= U32_MAX)
  {
    CiphertextLength(dom, data, 0);
    DataLenInjective(|data|, total, dom.size);
    SmallEnough(|data|, dom.size);
    hide SealFrom, NumChunks;
  }

  lemma SmallEnough(len: nat, size: nat)
    requires size > 0 && NumChunks(len, size) <= U32_MAX + 1
    ensures size <= MAX_CHUNK_SIZE ==> DataLen(len, size) <= U64_MAX
  {
    LenBound(len, size);
    var n := NumChunks(len, size);
    if size <= MAX_CHUNK_SIZE {
      MulMonotone(n, U32_MAX + 1, size);
      MulMonotone(size, MAX_CHUNK_SIZE, U32_MAX + 1);
    }
  }

  lemma {:induction false} LenBound(len: nat, size: nat)
    requires size > 0
    ensures len <= NumChunks(len, size) * size
    decreases len
  {
    if len > size {
      LenBound(len - size, size);
      var m := NumChunks(len - size, size);
      assert (m + 1) * size == m * size + size;
    }
  }

  lemma {:induction false} SelectShorter(d: seq<byte>, segs: seq<Segment>)
    ensures |Select(d, segs)| <= |d|
    decreases |segs|
  {
    if segs != [] {
      SelectShorter(Back(d, segs[0].size), segs[1..]);
    }
  }

  /** Every file item carries its own digest. */
  predicate ItemsGenuine(items: seq<Item>)
  {
    forall i :: 0 <= i < |items| && items[i].kind.File? ==> items[i].digest == Digest(items[i].content)
  }

  lemma GenuineItems(es: Layout, d: seq<byte>)
    ensures Genuine(es, d) <==> Contiguous(es) && |d| == Total(es) && ItemsGenuine(Items(es, d))
  {
    hide Contiguous, Total;
    if ItemsGenuine(Items(es, d)) {
      forall i | 0 <= i < |es| && es[i].kind.File?
        ensures es[i].digest == Digest(ItemOf(es[i], d).content)
      {
        assert Items(es, d)[i] == ItemOf(es[i], d);
      }
    }
  }

  lemma {:induction false} FilterGenuine(items: seq<Item>, keep: seq<bool>)
    requires |keep| == |items| && ItemsGenuine(items)
    ensures ItemsGenuine(Filter(items, keep))
  {
    if items != [] {
      FilterGenuine(items[..|items| - 1], keep[..|items| - 1]);
    }
  }

  // ----- replace_file -----

  predicate IsTarget(e: FileRow, target: Path) { e.kind.File? && e.path == target }

  function KeepBut(es: Layout, target: Path): (keep: seq<bool>)
    ensures |keep| == |es| && forall i :: 0 <= i < |es| ==> keep[i] == !IsTarget(es[i], target)
  {
    seq(|es|, i requires 0 <= i < |es| => !IsTarget(es[i], target))
  }

  function NewRow(target: Path, hashed: seq<byte>, attr: Attr, offset: nat): FileRow
  {
    FileRow(target, File, |hashed|, attr, Digest(hashed), offset)
  }

  function Replaced(es: Layout, target: Path, hashed: seq<byte>, attr: Attr): Layout
  {
    var rows := Survivors(es, KeepBut(es, target));
    rows + [NewRow(target, hashed, attr, Total(rows))]
  }

  /** `replace_file`, up to the write; `hashed` is what hashing the new source saw. */
  method ReplaceFile(es: Layout, path: string, hashed: seq<byte>, attr: Attr)
    returns (r: Result<(Layout, seq<Segment>, nat)>)
    ensures r.Ok? <==> Normalize(path).Ok? && (exists e :: e in es && IsTarget(e, Normalize(path).value)) &&
                       Total(Replaced(es, Normalize(path).value, hashed, attr)) <= U64_MAX
    ensures r.Ok? ==> var t := Normalize(path).value;
                      r.value == (Replaced(es, t, hashed, attr), SegmentsOf(es, KeepBut(es, t)),
                                  Total(Replaced(es, t, hashed, attr)))
  {
    hide Normalize, Survivors, SegmentsOf, Total;
    var norm := Normalize(path);
    if norm.Err? {
      return Err(Invalid);
    }
    var target := norm.value;
    if !exists e :: e in es && IsTarget(e, target) {
      return Err(Invalid);
    }
    var rows := Survivors(es, KeepBut(es, target));
    TotalSnoc(rows, NewRow(target, hashed, attr, Total(rows)));
    var kept := Resegment(es, KeepBut(es, target));
    if kept.Err? {
      return Err(Format);
    }
    var (entries, segments, offset) := kept.value;
    if offset + |hashed| > U64_MAX {
      return Err(Format);
    }
    r := Ok((entries + [NewRow(target, hashed, attr, offset)], segments, offset + |hashed|));
  }

  lemma {:induction false} SurvivorsFewer(es: Layout, keep: seq<bool>, t: nat)
    requires |keep| == |es| && t < |es| && !keep[t]
    ensures |Survivors(es, keep)| < |es|
  {
    var n := |es| - 1;
    SurvivorsSnoc(es, keep);
    SurvivorsFrom(es[..n], keep[..n]);
    if t < n {
      SurvivorsFewer(es[..n], keep[..n], t);
    }
  }

  lemma ReplacedPaths(es: Layout, target: Path, hashed: seq<byte>, attr: Attr, t: nat)
    requires PathsOk(es) && t < |es| && IsTarget(es[t], target)
    ensures PathsOk(Replaced(es, target, hashed, attr))
  {
    var keep := KeepBut(es, target);
    SurvivorsPaths(es, keep);
    SurvivorsFrom(es, keep);
    SurvivorsFewer(es, keep, t);
    hide Survivors, Normalize, Join, Total;
    var rows := Survivors(es, keep);
    var row := NewRow(target, hashed, attr, Total(rows));
    forall s | s in rows
      ensures StrictNorm(s) != StrictNorm(row)
      ensures !(s.kind.File? && StrictNorm(s) < StrictNorm(row)) && !(row.kind.File? && StrictNorm(row) < StrictNorm(s))
    {
      var i :| 0 <= i < |es| && keep[i] && es[i].path == s.path && es[i].kind == s.kind;
      assert StrictNorm(es[i]) == StrictNorm(s) && StrictNorm(es[t]) == StrictNorm(row) && i != t;
    }
    PathsSnoc(rows, row);
  }

  /** Writing one more file after a genuine stream. `hashed` is what the first read of its
      source gave, `streamed` the second: another length is refused at the write, other
      bytes at import. */
  lemma WriteOneMore(rows: Layout, row: FileRow, d: seq<byte>, hashed: seq<byte>, streamed: seq<byte>, dom: Domain)
    requires Genuine(rows, d) && row == NewRow(row.path, hashed, row.attr, Total(rows)) && Admissible(dom)
    requires |d + streamed| <= U64_MAX && NumChunks(|d + streamed|, dom.size) <= U32_MAX + 1
    ensures var written := WriteData(dom, Total(rows + [row]), d + streamed);
            && (written.Ok? <==> |streamed| == |hashed|)
            && (written.Ok? ==>
                  && Items(rows + [row], d + streamed) ==
                     Items(rows, d) + [Item(row.path, File, row.attr, row.digest, streamed)]
                  && Contiguous(rows + [row])
                  && (Genuine(rows + [row], d + streamed) <==> streamed == hashed)
                  && (SizesOk(Total(rows + [row]), dom.size, |written.value|) <==>
                      NumChunks(|d + streamed|, dom.size) <= U32_MAX))
  {
    var data := d + streamed;
    TotalSnoc(rows, row);
    WriteIff(dom, Total(rows + [row]), data);
    GenuineItems(rows, d);
    GenuineItems(rows + [row], data);
    hide Items, Total, Contiguous, NumChunks, ItemsGenuine, Genuine, WriteData, SizesOk;
    if |streamed| == |hashed| {
      ItemsSnoc(rows, row, d, streamed);
      LastGenuine(Items(rows, d), Item(row.path, File, row.attr, row.digest, streamed));
    }
  }

  /** Replacement preserves meaning: every other item is unchanged and the new one is last. */
  lemma ReplacePreserves(es: Layout, target: Path, hashed: seq<byte>, streamed: seq<byte>, attr: Attr, t: nat,
                         d: seq<byte>, dom: Domain)
    requires PathsOk(es) && Genuine(es, d) && t < |es| && IsTarget(es[t], target) && Admissible(dom)
    requires var data := Select(d, SegmentsOf(es, KeepBut(es, target))) + streamed;
             |data| <= U64_MAX && NumChunks(|data|, dom.size) <= U32_MAX + 1
    ensures var rows := Replaced(es, target, hashed, attr);
            var data := Select(d, SegmentsOf(es, KeepBut(es, target))) + streamed;
            var written := WriteData(dom, Total(rows), data);
            && (written.Ok? <==> |streamed| == |hashed|)
            && (written.Ok? ==>
                  && Items(rows, data) == Filter(Items(es, d), KeepBut(es, target)) +
                     [Item(target, File, attr, Digest(hashed), streamed)]
                  && (Genuine(rows, data) <==> streamed == hashed)
                  && (LayoutOk(rows, dom.size, |written.value|) <==> NumChunks(|data|, dom.size) <= U32_MAX))
  {
    var keep := KeepBut(es, target);
    var kept, rest := Select(d, SegmentsOf(es, keep)), Survivors(es, keep);
    SelectKeeps(es, keep, d);
    ReplacedPaths(es, target, hashed, attr, t);
    GenuineItems(es, d);
    FilterGenuine(Items(es, d), keep);
    GenuineItems(rest, kept);
    hide Survivors, SegmentsOf, Select, SegTotal, Filter, Items, Total, PathsOk, Contiguous, SealFrom, NumChunks,
         ItemsGenuine, Genuine, SizesOk, WriteData;
    WriteOneMore(rest, NewRow(target, hashed, attr, Total(rest)), kept, hashed, streamed, dom);
  }

  lemma LastGenuine(items: seq<Item>, last: Item)
    requires ItemsGenuine(items)
    ensures ItemsGenuine(items + [last]) <==> (last.kind.File? ==> last.digest == Digest(last.content))
  {
    var all := items + [last];
    assert all[|items|] == last;
  }
}
