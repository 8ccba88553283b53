/** Exporting a v2 vault as a v1 container, and importing a container as a v2 vault. */
module Export {
  import opened Base
  import opened Stream
  import opened Paths
  import opened RandomAccess
  import opened VaultTree
  import opened Manifest
  import opened Batch
  import opened Validation
  import opened Container
  import opened ContainerEdits
  import opened StateChain
  import opened VaultWorld

  const TRASH_DIR: string := ".trash"

  /** `is_trashed` compares strings; on normalised paths it asks for the first component. */
  predicate Trashed(p: Path) { StringUnder(TRASH_DIR, Join(p)) }

  lemma TrashedIsSubtree(p: Path)
    requires p != [] && SlashFree(p)
    ensures Trashed(p) <==> p[0] == TRASH_DIR
  {
    SubtreeTest(TRASH_DIR, Join(p));
    SplitJoin(p);
    SplitOne(TRASH_DIR);
    assert [TRASH_DIR] <= p <==> p[0] == TRASH_DIR;
  }

  // ----- export -----

  function ContentOf(e: Entry): seq<byte> { if e.kind.File? && e.digest.Digest? then e.digest.of else [] }

  function RowOf(e: Entry, offset: nat): FileRow
  {
    if e.kind.Dir? then FileRow(e.path, Dir, 0, e.attr, ZeroDigest, 0)
    else FileRow(e.path, File, e.size, e.attr, e.digest, offset)
  }

  function ExportRows(es: Entries): Layout
  {
    if es == [] then []
    else
      var rows, e := ExportRows(es[..|es| - 1]), es[|es| - 1];
      if Trashed(e.path) then rows else rows + [RowOf(e, Total(rows))]
  }

  /** The contents the exported rows name, in order. */
  function ExportData(es: Entries): seq<byte>
  {
    if es == [] then []
    else ExportData(es[..|es| - 1]) + if Trashed(es[|es| - 1].path) then [] else ContentOf(es[|es| - 1])
  }

  /** The manifest loop of `export_plan`. */
  method ExportPlan(es: Entries) returns (r: Result<(Layout, seq<Entry>, nat)>)
    requires Shape(es)
    ensures r.Ok? <==> Total(ExportRows(es)) <= U64_MAX
    ensures r.Ok? ==> r.value.0 == ExportRows(es) && r.value.2 == Total(ExportRows(es)) && r.value.1 == ExportFiles(es)
  {
    hide Total, Trashed, EntryShape;
    var rows: Layout := [];
    var files: seq<Entry> := [];
    var offset := 0;
    NoTotal(rows);
    for n := 0 to |es|
      invariant rows == ExportRows(es[..n]) && files == ExportFiles(es[..n]) && offset == Total(rows) <= U64_MAX
    {
      var e := es[n];
      assert es[..n + 1][..n] == es[..n];
      if Trashed(e.path) {
        continue;
      }
      TotalSnoc(rows, RowOf(e, offset));
      rows := rows + [RowOf(e, offset)];
      if e.kind.File? {
        files := files + [e];
        offset := offset + e.size;
        if offset > U64_MAX {
          ExportGrows(es, n + 1);
          return Err(Format);
        }
      }
    }
    assert es[..|es|] == es;
    r := Ok((rows, files, offset));
  }

  /** The entries whose blobs are streamed. */
  function ExportFiles(es: Entries): Entries
  {
    if es == [] then []
    else
      ExportFiles(es[..|es| - 1]) +
      if Trashed(es[|es| - 1].path) || es[|es| - 1].kind.Dir? then [] else [es[|es| - 1]]
  }

  lemma {:induction false} ExportGrows(es: Entries, n: nat)
    requires n <= |es|
    ensures Total(ExportRows(es[..n])) <= Total(ExportRows(es))
    decreases |es|
  {
    if n < |es| {
      var m := |es| - 1;
      ExportGrows(es[..m], n);
      assert es[..m][..n] == es[..n];
      TotalSnoc(ExportRows(es[..m]), RowOf(es[m], Total(ExportRows(es[..m]))));
    } else {
      assert es[..n] == es;
    }
  }

  /** The export is contiguous and its stream is genuine. */
  lemma {:induction false} ExportGenuine(es: Entries)
    requires Shape(es)
    ensures Genuine(ExportRows(es), ExportData(es)) && |ExportRows(es)| <= |es|
  {
    if es != [] {
      var n := |es| - 1;
      var e, rows, data := es[n], ExportRows(es[..n]), ExportData(es[..n]);
      assert EntryShape(es[n]);
      ExportGenuine(es[..n]);
      if Trashed(e.path) {
        assert data + [] == data;
      } else {
        hide Total, Contiguous, Items, Genuine;
        GenuineRow(rows, RowOf(e, Total(rows)), data, ContentOf(e));
      }
    }
  }

  lemma GenuineRow(rows: Layout, row: FileRow, d: seq<byte>, x: seq<byte>)
    requires Genuine(rows, d) && |x| == Bytes(row)
    requires row.kind.File? ==> row.offset == Total(rows) && row.digest == Digest(x)
    ensures Genuine(rows + [row], d + x)
  {
    ItemsSnoc(rows, row, d, x);
    GenuineItems(rows, d);
    GenuineItems(rows + [row], d + x);
    hide Items, Total, Contiguous, Genuine, ItemsGenuine;
    LastGenuine(Items(rows, d), Item(row.path, row.kind, row.attr, row.digest, x));
  }

  /** Each exported row is an entry outside the trash, and the other way round. */
  ghost predicate RowFor(row: FileRow, e: Entry)
  {
    row.path == e.path && row.kind == e.kind && row.attr == e.attr && !Trashed(e.path) &&
    (e.kind.File? ==> row.digest == e.digest)
  }

  lemma {:induction false} RowSource(es: Entries, row: FileRow) returns (i: nat)
    requires row in ExportRows(es)
    ensures i < |es| && RowFor(row, es[i])
  {
    var n := |es| - 1;
    ExportSnoc(es);
    hide ExportRows, Trashed, Total;
    if row in ExportRows(es[..n]) {
      i := RowSource(es[..n], row);
    } else {
      i := n;
    }
  }

  lemma {:induction false} EntryRow(es: Entries, i: nat) returns (row: FileRow)
    requires i < |es| && !Trashed(es[i].path)
    ensures row in ExportRows(es) && RowFor(row, es[i])
  {
    hide Trashed, Total, ExportRows, RowFor;
    var n := |es| - 1;
    ExportSnoc(es);
    if i < n {
      row := EntryRow(es[..n], i);
    } else {
      row := RowOf(es[n], Total(ExportRows(es[..n])));
      RowForLast(es[n], Total(ExportRows(es[..n])));
    }
  }

  lemma RowForLast(e: Entry, offset: nat)
    requires !Trashed(e.path)
    ensures RowFor(RowOf(e, offset), e)
  {
    hide Trashed;
  }

  /** Every exported name obeys the strict rule. */
  predicate StrictNames(es: Entries)
  {
    forall i :: 0 <= i < |es| && !Trashed(es[i].path) ==> Normalize(Join(es[i].path)) == Ok(es[i].path)
  }

  lemma {:induction false} ExportUnique(es: Entries)
    requires Unique(es)
    ensures forall i, j :: 0 <= i < j < |ExportRows(es)| ==> ExportRows(es)[i].path != ExportRows(es)[j].path
  {
    if es != [] {
      var n := |es| - 1;
      var rows := ExportRows(es[..n]);
      ExportUnique(es[..n]);
      ExportSnoc(es);
      hide Trashed, Total, ExportRows;
      forall i | 0 <= i < |rows|
        ensures rows[i].path != es[n].path
      {
        var k := RowSource(es[..n], rows[i]);
        assert es[..n][k] == es[k];
      }
    }
  }

  lemma ExportSnoc(es: Entries)
    requires es != []
    ensures var rows := ExportRows(es[..|es| - 1]);
            ExportRows(es) == if Trashed(es[|es| - 1].path) then rows else rows + [RowOf(es[|es| - 1], Total(rows))]
  {
  }

  lemma ExportStrict(es: Entries, row: FileRow)
    requires StrictNames(es) && row in ExportRows(es)
    ensures Normalize(Join(row.path)) == Ok(row.path) && StrictNorm(row) == row.path
  {
    var i := RowSource(es, row);
    hide ExportRows, Trashed, Normalize, Join;
  }

  lemma ExportShape(es: Entries, a: FileRow, b: FileRow)
    requires TreeInv(es) && a in ExportRows(es) && b in ExportRows(es) && a.kind.File?
    ensures !(a.path < b.path)
  {
    var i := RowSource(es, a);
    var j := RowSource(es, b);
    hide ExportRows, Trashed, View, EntryShape;
    NoFileAncestor(es);
  }

  /** With strict names, an exported manifest passes the path checks up to its length. */
  lemma ExportPaths(es: Entries)
    requires TreeInv(es) && StrictNames(es)
    ensures PathsOk(ExportRows(es)) <==> |ExportRows(es)| <= MAX_MANIFEST_ENTRIES
  {
    var rows := ExportRows(es);
    ExportUnique(es);
    hide ExportRows, TreeInv, StrictNames, Normalize, Join, StrictNorm;
    forall i | 0 <= i < |rows|
      ensures Normalize(Join(rows[i].path)).Ok? && StrictNorm(rows[i]) == rows[i].path
    {
      ExportStrict(es, rows[i]);
    }
    forall i, j | 0 <= i < |rows| && 0 <= j < |rows| && rows[i].kind.File?
      ensures !(StrictNorm(rows[i]) < StrictNorm(rows[j]))
    {
      ExportShape(es, rows[i], rows[j]);
    }
  }

  // ----- import -----

  /** The random choices of one put. */
  datatype Draw = Draw(id: string, key: nat, nonce: seq<byte>)

  /** The edit for a row whose file is `content`; a digest that nothing has fails the put. */
  function RowStep(e: FileRow, content: seq<byte>, draw: Draw): Step
  {
    Step(if e.kind.Dir? then Mkdir(Join(e.path), true)
         else Put(Join(e.path), true, if e.digest.Digest? then e.digest.of else [], content, e.attr,
                  draw.id, draw.key, draw.nonce, e.digest.Digest?), true)
  }

  function ImportStep(e: FileRow, d: seq<byte>, draw: Draw): Step { RowStep(e, ItemOf(e, d).content, draw) }

  /** One trusted edit per row. */
  function ImportScript(rows: Layout, d: seq<byte>, draws: seq<Draw>): (script: seq<Step>)
    requires |draws| == |rows|
    ensures |script| == |rows|
  {
    seq(|rows|, i requires 0 <= i < |rows| => ImportStep(rows[i], d, draws[i]))
  }

  /** The checks of the import on the stream itself. */
  predicate Streams(rows: Layout, d: seq<byte>) { Contiguous(rows) && |d| == Total(rows) <= U64_MAX }

  /** `from_reader_v1_inner` up to the edits: each file is cut off the stream at its offset,
      and nothing may follow the last; a file cut short fails like its put. */
  method ImportRows(rows: Layout, src: Source<byte>, draws: seq<Draw>) returns (script: seq<Step>, ok: bool)
    requires |draws| == |rows|
    modifies src
    ensures ok <==> Streams(rows, old(src.rest))
    ensures ok ==> script == ImportScript(rows, old(src.rest), draws)
  {
    hide Total, ItemOf, Streams, RowStep;
    ghost var d := src.rest;
    var offset := 0;
    script := [];
    NoTotal(rows[..0]);
    for n := 0 to |rows|
      invariant offset == Total(rows[..n]) <= U64_MAX && Cut(d, offset, src.rest)
      invariant script == ImportScript(rows, d, draws)[..n] && InPlace(rows, n)
    {
      var e := rows[n];
      TotalStep(rows, n);
      var content := [];
      if e.kind.File? {
        if e.offset != offset {
          NotStreams(rows, d, n);
          return script, false;
        }
        ghost var before := src.rest;
        content := ReadChunk(src, e.size);
        CutMore(d, offset, before, content, src.rest);
        if |content| < e.size || offset + e.size > U64_MAX {
          NotStreams(rows, d, n);
          return script, false;
        }
        offset := offset + e.size;
        FileContent(e, d);
      } else {
        DirStep(e, content, d, draws[n]);
      }
      script := script + [RowStep(e, content, draws[n])];
    }
    var extra := src.Read(1);
    ok := extra == [];
    AllStreams(rows, d);
  }

  predicate InPlace(rows: Layout, n: nat)
    requires n <= |rows|
  {
    forall i :: 0 <= i < n && rows[i].kind.File? ==> rows[i].offset == Total(rows[..i])
  }

  lemma NotStreams(rows: Layout, d: seq<byte>, n: nat)
    requires n < |rows|
    requires (rows[n].kind.File? && rows[n].offset != Total(rows[..n])) || Total(rows[..n + 1]) > Min(|d|, U64_MAX)
    ensures !Streams(rows, d)
  {
    TotalGrows(rows, n + 1);
    hide Total;
  }

  lemma AllStreams(rows: Layout, d: seq<byte>)
    requires InPlace(rows, |rows|) && Total(rows[..|rows|]) <= U64_MAX
    ensures Streams(rows, d) <==> |d| == Total(rows[..|rows|])
  {
    assert rows[..|rows|] == rows;
    hide Total;
  }

  lemma FileContent(e: FileRow, d: seq<byte>)
    requires e.kind.File? && e.offset + e.size <= |d|
    ensures ItemOf(e, d).content == d[e.offset..e.offset + e.size]
  {
  }

  lemma DirStep(e: FileRow, content: seq<byte>, d: seq<byte>, draw: Draw)
    requires e.kind.Dir?
    ensures RowStep(e, content, draw) == ImportStep(e, d, draw)
  {
  }

  /** What an import of the stream `d` builds, if it succeeds. */
  function Import(rows: Layout, d: seq<byte>, draws: seq<Draw>): Option<Tree>
    requires |draws| == |rows|
  {
    if Streams(rows, d) then TreeScript(map[], ImportScript(rows, d, draws), 0, None) else None
  }

  function Prefixes(rows: Layout): set<Path>
  {
    set i, k | 0 <= i < |rows| && 0 < k <= |StrictNorm(rows[i])| :: StrictNorm(rows[i])[..k]
  }

  function FileNodes(rows: Layout, d: seq<byte>): Tree
  {
    if rows == [] then map[]
    else
      var t, e := FileNodes(rows[..|rows| - 1], d), rows[|rows| - 1];
      if e.kind.File? then t[StrictNorm(e) := FileNode(ItemOf(e, d).content, e.attr)] else t
  }

  /** What a container holds: its files, and every path at or above a row as a directory
      without attributes. */
  function ImportedTree(rows: Layout, d: seq<byte>): Tree
  {
    Assemble(Prefixes(rows), FileNodes(rows, d))
  }

  function Assemble(paths: set<Path>, files: Tree): Tree
  {
    map q | q in paths :: if q in files then files[q] else DirNode(NO_ATTR)
  }

  lemma {:induction false} FileNodesAt(rows: Layout, d: seq<byte>)
    requires NormsOk(rows, |rows|)
    ensures forall q :: q in FileNodes(rows, d) <==>
            exists i :: 0 <= i < |rows| && rows[i].kind.File? && StrictNorm(rows[i]) == q
    ensures forall i :: 0 <= i < |rows| && rows[i].kind.File? ==>
              StrictNorm(rows[i]) in FileNodes(rows, d) &&
              FileNodes(rows, d)[StrictNorm(rows[i])] == FileNode(ItemOf(rows[i], d).content, rows[i].attr)
  {
    hide StrictNorm, Normalize, Join, ItemOf;
    if rows != [] {
      var n := |rows| - 1;
      FileNodesAt(rows[..n], d);
      var t := FileNodes(rows[..n], d);
      forall q | q in FileNodes(rows, d)
        ensures exists i :: 0 <= i < |rows| && rows[i].kind.File? && StrictNorm(rows[i]) == q
      {
        if q in t {
          var i :| 0 <= i < n && rows[..n][i].kind.File? && StrictNorm(rows[..n][i]) == q;
          assert rows[i].kind.File?;
        } else {
          assert rows[n].kind.File?;
        }
      }
      forall i | 0 <= i < |rows| && rows[i].kind.File?
        ensures StrictNorm(rows[i]) in FileNodes(rows, d) &&
                FileNodes(rows, d)[StrictNorm(rows[i])] == FileNode(ItemOf(rows[i], d).content, rows[i].attr)
      {
        assert i < n ==> rows[..n][i] == rows[i];
      }
    }
  }

  lemma PrefixesSnoc(rows: Layout, e: FileRow)
    ensures Prefixes(rows + [e]) == Prefixes(rows) + set k | 0 < k <= |StrictNorm(e)| :: StrictNorm(e)[..k]
  {
    hide StrictNorm;
    var all := rows + [e];
    assert all[|rows|] == e;
    forall q | q in Prefixes(rows)
      ensures q in Prefixes(all)
    {
      var i, k :| 0 <= i < |rows| && 0 < k <= |StrictNorm(rows[i])| && q == StrictNorm(rows[i])[..k];
      assert all[i] == rows[i];
    }
  }

  lemma PrefixesClosed(rows: Layout, q: Path, k: nat)
    requires q in Prefixes(rows) && 0 < k <= |q|
    ensures q[..k] in Prefixes(rows)
  {
    hide StrictNorm;
    var i, m :| 0 <= i < |rows| && 0 < m <= |StrictNorm(rows[i])| && q == StrictNorm(rows[i])[..m];
    assert q[..k] == StrictNorm(rows[i])[..k];
  }

  function PrefixSet(p: Path): set<Path> { set k | 0 < k <= |p| :: p[..k] }

  /** A new path among the prefixes and files of a tree is one tree operation. */
  lemma AssembleNew(paths: set<Path>, files: Tree, p: Path, node: Node)
    requires p != [] && p !in paths && p !in files
    requires node.DirNode? ==> node == DirNode(NO_ATTR)
    requires forall k :: 0 < k < |p| ==> p[..k] !in files
    ensures Assemble(paths + PrefixSet(p), if node.FileNode? then files[p := node] else files) ==
            AddDirs(Assemble(paths, files), p)[p := node]
  {
    var t := Assemble(paths, files);
    var u := Assemble(paths + PrefixSet(p), if node.FileNode? then files[p := node] else files);
    var w := AddDirs(t, p)[p := node];
    assert p[..|p|] == p;
    forall q
      ensures q in PrefixSet(p) <==> q == p || q in Ancestors(p)
    {
    }
    hide PrefixSet;
    assert u.Keys == w.Keys;
    forall q | q in u
      ensures u[q] == w[q]
    {
    }
  }

  lemma AssembleOld(paths: set<Path>, files: Tree, p: Path)
    requires PrefixSet(p) <= paths
    ensures Assemble(paths + PrefixSet(p), files) == Assemble(paths, files)
  {
    assert paths + PrefixSet(p) == paths;
  }

  lemma NotBlocked(paths: set<Path>, files: Tree, p: Path)
    requires forall k :: 0 < k < |p| ==> p[..k] !in files
    ensures !Blocked(Assemble(paths, files), p)
  {
  }

  /** `e` is a new path with no file above it, nor beneath it if it is a file. */
  predicate FitsIn(rows: Layout, e: FileRow)
  {
    && NormsOk(rows, |rows|) && StrictNorm(e) != []
    && forall i :: 0 <= i < |rows| ==>
         && StrictNorm(rows[i]) != StrictNorm(e) && StrictNorm(rows[i]) != []
         && !(e.kind.File? && StrictNorm(e) < StrictNorm(rows[i]))
         && !(rows[i].kind.File? && StrictNorm(rows[i]) < StrictNorm(e))
  }

  lemma PathsFit(rows: Layout, e: FileRow)
    requires PathsOk(rows + [e])
    ensures FitsIn(rows, e)
  {
    var all := rows + [e];
    assert all[|rows|] == e;
    NormOkNotEmpty(e);
    forall i | 0 <= i < |rows|
      ensures all[i] == rows[i] && StrictNorm(rows[i]) != []
    {
      assert all[i] == rows[i];
      NormOkNotEmpty(all[i]);
    }
    hide StrictNorm, Normalize, Join;
  }

  /** No file at `e` or above it. */
  lemma FilesApart(rows: Layout, e: FileRow, d: seq<byte>)
    requires FitsIn(rows, e)
    ensures StrictNorm(e) !in FileNodes(rows, d)
    ensures forall k :: 0 < k < |StrictNorm(e)| ==> StrictNorm(e)[..k] !in FileNodes(rows, d)
  {
    FileNodesAt(rows, d);
    hide FileNodes, NormsOk, StrictNorm;
    var p := StrictNorm(e);
    forall k | 0 < k < |p|
      ensures p[..k] !in FileNodes(rows, d)
    {
      assert p[..k] < p;
    }
  }

  /** A path that is already there is a directory. */
  lemma AlreadyDir(rows: Layout, e: FileRow)
    requires FitsIn(rows, e) && StrictNorm(e) in Prefixes(rows)
    ensures e.kind.Dir? && PrefixSet(StrictNorm(e)) <= Prefixes(rows)
  {
    hide NormsOk, StrictNorm;
    var p := StrictNorm(e);
    var i, k :| 0 <= i < |rows| && 0 < k <= |StrictNorm(rows[i])| && p == StrictNorm(rows[i])[..k];
    var r := StrictNorm(rows[i]);
    assert r[..|r|] == r;
    assert p < r;
    forall q | q in PrefixSet(p)
      ensures q in Prefixes(rows)
    {
      var m :| 0 < m <= |p| && q == p[..m];
      PrefixesClosed(rows, p, m);
    }
  }

  /** One more row is one more tree operation. */
  lemma ImportOne(rows: Layout, e: FileRow, d: seq<byte>)
    requires PathsOk(rows + [e])
    ensures var t, p := ImportedTree(rows, d), StrictNorm(e);
            (if e.kind.Dir? then TreeMkdir(t, p) else TreePut(t, p, ItemOf(e, d).content, e.attr))
            == Some(ImportedTree(rows + [e], d))
  {
    var all, p := rows + [e], StrictNorm(e);
    var node := if e.kind.Dir? then DirNode(NO_ATTR) else FileNode(ItemOf(e, d).content, e.attr);
    PathsFit(rows, e);
    FilesApart(rows, e, d);
    PrefixesSnoc(rows, e);
    assert all[..|rows|] == rows;
    var paths, files := Prefixes(rows), FileNodes(rows, d);
    assert FileNodes(all, d) == if node.FileNode? then files[p := node] else files;
    assert Prefixes(all) == paths + PrefixSet(p);
    NotBlocked(paths, files, p);
    if p in paths {
      AlreadyDir(rows, e);
      AssembleOld(paths, files, p);
    } else {
      AssembleNew(paths, files, p, node);
    }
    InAssemble(paths, files, p);
    hide PathsOk, StrictNorm, FileNodes, ItemOf, Prefixes, Blocked, FitsIn, PrefixSet, AddDirs, Assemble;
  }

  lemma InAssemble(paths: set<Path>, files: Tree, p: Path)
    requires p !in files
    ensures p in Assemble(paths, files) <==> p in paths
    ensures p in paths ==> Assemble(paths, files)[p] == DirNode(NO_ATTR)
  {
  }

  lemma NormOkNotEmpty(e: FileRow)
    requires Normalize(Join(e.path)).Ok?
    ensures StrictNorm(e) != []
  {
    StrictNotEmpty(Join(e.path));
  }

  /** The import can copy a row: its digest is right and it has not too many chunks. */
  predicate RowCopied(e: FileRow, d: seq<byte>)
  {
    e.kind.File? ==>
      e.digest == Digest(ItemOf(e, d).content) &&
      NumChunks(|ItemOf(e, d).content|, DEFAULT_CHUNK_SIZE) <= U32_MAX + 1
  }

  predicate Copied(rows: Layout, d: seq<byte>) { forall e :: e in rows ==> RowCopied(e, d) }

  lemma {:induction false} ImportFrom(rows: Layout, d: seq<byte>, draws: seq<Draw>, n: nat)
    requires |draws| == |rows| && PathsOk(rows) && n <= |rows|
    ensures TreeScript(ImportedTree(rows[..n], d), ImportScript(rows, d, draws)[n..], 0, None) ==
            if Copied(rows[n..], d) then Some(ImportedTree(rows, d)) else None
    decreases |rows| - n
  {
    if n == |rows| {
      assert rows[..n] == rows;
    } else {
      var e := rows[n];
      PathsPrefix(rows, n + 1);
      assert rows[..n + 1] == rows[..n] + [e];
      assert Normalize(Join(e.path)).Ok?;
      hide *;
      ImportOne(rows[..n], e, d);
      StepTree(rows[..n], e, d, draws[n]);
      CopiedStep(rows, d, n);
      ImportFrom(rows, d, draws, n + 1);
      ScriptStep(rows, d, draws, n, ImportedTree(rows[..n], d), ImportedTree(rows[..n + 1], d));
    }
  }

  /** One step of the script, on the tree. */
  lemma ScriptStep(rows: Layout, d: seq<byte>, draws: seq<Draw>, n: nat, t: Tree, u: Tree)
    requires |draws| == |rows| && n < |rows|
    requires var step := ImportStep(rows[n], d, draws[n]);
             step.must && IsTrusted(step.op) && (BlobOk(step.op) ==> TreeOp(t, step.op) == Some(u))
    ensures var script := ImportScript(rows, d, draws);
            TreeScript(t, script[n..], 0, None) ==
            if BlobOk(ImportStep(rows[n], d, draws[n]).op) then TreeScript(u, script[n + 1..], 0, None) else None
  {
    var script := ImportScript(rows, d, draws);
    assert script[n..][0] == ImportStep(rows[n], d, draws[n]) && script[n..][1..] == script[n + 1..];
    hide TreeOp, BlobOk, ImportStep, ImportScript;
  }

  lemma CopiedStep(rows: Layout, d: seq<byte>, n: nat)
    requires n < |rows|
    ensures Copied(rows[n..], d) <==> RowCopied(rows[n], d) && Copied(rows[n + 1..], d)
  {
    hide RowCopied;
    assert rows[n..] == [rows[n]] + rows[n + 1..];
  }

  lemma PathsPrefix(rows: Layout, n: nat)
    requires PathsOk(rows) && n <= |rows|
    ensures PathsOk(rows[..n])
  {
    hide Normalize, Join, StrictNorm;
    assert forall i :: 0 <= i < n ==> rows[..n][i] == rows[i];
  }

  /** The edit a row becomes, on the tree. */
  lemma StepTree(rows: Layout, e: FileRow, d: seq<byte>, draw: Draw)
    requires Normalize(Join(e.path)).Ok?
    requires (if e.kind.Dir? then TreeMkdir(ImportedTree(rows, d), StrictNorm(e))
              else TreePut(ImportedTree(rows, d), StrictNorm(e), ItemOf(e, d).content, e.attr))
             == Some(ImportedTree(rows + [e], d))
    ensures var step := ImportStep(e, d, draw);
            && step.must && IsTrusted(step.op)
            && (BlobOk(step.op) <==> RowCopied(e, d))
            && (BlobOk(step.op) ==> TreeOp(ImportedTree(rows, d), step.op) == Some(ImportedTree(rows + [e], d)))
  {
    var step := ImportStep(e, d, draw);
    assert NormalizeStored(Join(e.path)) == Ok(StrictNorm(e));
    hide Normalize, NormalizeStored, Join, StrictNorm, ImportedTree, TreeMkdir, TreePut, ItemOf, NumChunks;
  }

  /** No file takes more chunks than a blob can count. */
  predicate FilesFit(rows: Layout)
  {
    forall row :: row in rows && row.kind.File? ==> NumChunks(row.size, DEFAULT_CHUNK_SIZE) <= U32_MAX + 1
  }

  /** Importing succeeds exactly when the stream is the files back to back, each with its
      digest, and nothing else (and no file is too large), and it gives exactly what the
      container holds, in whatever order its rows come. */
  lemma ImportTree(rows: Layout, d: seq<byte>, draws: seq<Draw>)
    requires |draws| == |rows| && PathsOk(rows)
    ensures Import(rows, d, draws) ==
            if Genuine(rows, d) && Total(rows) <= U64_MAX && FilesFit(rows) then Some(ImportedTree(rows, d)) else None
  {
    ImportFrom(rows, d, draws, 0);
    assert rows[0..] == rows && ImportScript(rows, d, draws)[0..] == ImportScript(rows, d, draws);
    assert ImportedTree(rows[..0], d) == map[];
    GenuineCopied(rows, d);
    hide *;
  }

  // ----- the round trip -----

  function Untrashed(t: Tree): Tree { map q | q in t && !Trashed(q) :: t[q] }

  /** Directories are exported by path only. */
  function BareDirs(t: Tree): Tree { map q | q in t :: if t[q].DirNode? then DirNode(NO_ATTR) else t[q] }

  lemma TrashIsClosed(p: Path, k: nat)
    requires LegalPath(p) && 0 < k <= |p|
    ensures Trashed(p[..k]) <==> Trashed(p)
  {
    assert SlashFree(p) by { assert forall c :: c in p ==> LegalComponent(c); }
    assert SlashFree(p[..k]);
    TrashedIsSubtree(p);
    TrashedIsSubtree(p[..k]);
  }

  /** The exported rows and their ancestors are exactly the paths outside the trash. */
  lemma ExportPrefixes(es: Entries)
    requires TreeInv(es) && StrictNames(es)
    ensures Prefixes(ExportRows(es)) == Untrashed(View(es)).Keys
  {
    var rows := ExportRows(es);
    hide ExportRows, View, StrictNorm, Trashed, StrictNames, EntryShape;
    ViewDenotes(es);
    forall q | q in Prefixes(rows)
      ensures q in Untrashed(View(es))
    {
      var i, k :| 0 <= i < |rows| && 0 < k <= |StrictNorm(rows[i])| && q == StrictNorm(rows[i])[..k];
      ExportStrict(es, rows[i]);
      PrefixInView(es, rows[i], k);
    }
    forall q | q in Untrashed(View(es))
      ensures q in Prefixes(rows)
    {
      var e :| e in es && e.path == q;
      var i :| 0 <= i < |es| && es[i] == e;
      var row := EntryRow(es, i);
      ExportStrict(es, row);
      var j :| 0 <= j < |rows| && rows[j] == row;
      EntryNotEmpty(es, i);
      assert q == StrictNorm(rows[j])[..|q|];
    }
  }

  lemma EntryNotEmpty(es: Entries, i: nat)
    requires Shape(es) && i < |es|
    ensures es[i].path != []
  {
    assert EntryShape(es[i]);
  }

  lemma PrefixInView(es: Entries, row: FileRow, k: nat)
    requires TreeInv(es) && row in ExportRows(es) && 0 < k <= |row.path|
    ensures row.path[..k] in Untrashed(View(es))
  {
    var i := RowSource(es, row);
    var p := row.path;
    assert LegalPath(p) by { assert EntryShape(es[i]); }
    hide ExportRows, View, EntryShape, LegalPath;
    ViewDenotes(es);
    assert es[i] in es;
    TrashIsClosed(p, k);
    hide Trashed;
    assert k == |p| ==> p[..k] == p;
  }

  lemma RowDigest(rows: Layout, d: seq<byte>, i: nat)
    requires Genuine(rows, d) && i < |rows| && rows[i].kind.File?
    ensures rows[i].digest == Digest(ItemOf(rows[i], d).content)
  {
  }

  lemma SourceNode(es: Entries, row: FileRow)
    requires Shape(es) && Unique(es) && row in ExportRows(es)
    ensures row.path in View(es) && (row.kind.File? <==> View(es)[row.path].FileNode?)
    ensures row.kind.File? && row.digest.Digest? ==> View(es)[row.path] == FileNode(row.digest.of, row.attr)
  {
    var j := RowSource(es, row);
    hide ExportRows, Trashed, View, EntryShape;
    ViewDenotes(es);
    NodeIn(es, View(es), es[j]);
  }

  /** Each exported file's slice is the content the vault's tree has there. */
  lemma ExportedNode(es: Entries, i: nat)
    requires Shape(es) && Unique(es) && i < |ExportRows(es)|
    ensures var row := ExportRows(es)[i];
            && row.path in View(es) && (row.kind.File? <==> View(es)[row.path].FileNode?)
            && (row.kind.File? ==> View(es)[row.path] == FileNode(ItemOf(row, ExportData(es)).content, row.attr))
  {
    hide *;
    ExportGenuine(es);
    var row := ExportRows(es)[i];
    SourceNode(es, row);
    if row.kind.File? {
      RowDigest(ExportRows(es), ExportData(es), i);
    }
  }

  lemma NodeIn(es: Entries, t: Tree, e: Entry)
    requires Denotes(es, t) && e in es
    ensures e.path in t && t[e.path] == NodeOf(e)
  {
  }

  /** The tree an export holds. */
  lemma ExportTree(es: Entries)
    requires TreeInv(es) && StrictNames(es) && PathsOk(ExportRows(es))
    ensures ImportedTree(ExportRows(es), ExportData(es)) == BareDirs(Untrashed(View(es)))
  {
    var rows, d := ExportRows(es), ExportData(es);
    var files, t := FileNodes(rows, d), View(es);
    ExportPrefixes(es);
    assert NormsOk(rows, |rows|);
    assert Shape(es) && Unique(es);
    FileNodesAt(rows, d);
    hide Shape, Unique, ExportRows, ExportData, View, PathsOk, NormsOk, TreeInv, StrictNames, Trashed, FileNodes,
         Prefixes, StrictNorm, ItemOf;
    forall q | q in Untrashed(t)
      ensures (if q in files then files[q] else DirNode(NO_ATTR)) == if t[q].DirNode? then DirNode(NO_ATTR) else t[q]
    {
      if q in files {
        var i :| 0 <= i < |rows| && rows[i].kind.File? && StrictNorm(rows[i]) == q;
        ExportStrict(es, rows[i]);
        ExportedNode(es, i);
      } else if t[q].FileNode? {
        FileExported(es, q);
      }
    }
    AssembleIs(Prefixes(rows), files, Untrashed(t));
  }

  lemma AssembleIs(paths: set<Path>, files: Tree, t: Tree)
    requires paths == t.Keys
    requires forall q :: q in t ==>
               (if q in files then files[q] else DirNode(NO_ATTR)) == if t[q].DirNode? then DirNode(NO_ATTR) else t[q]
    ensures Assemble(paths, files) == BareDirs(t)
  {
    assert Assemble(paths, files).Keys == BareDirs(t).Keys;
  }

  lemma FileExported(es: Entries, q: Path)
    requires Unique(es) && StrictNames(es) && q in Untrashed(View(es)) && View(es)[q].FileNode?
    ensures exists i :: 0 <= i < |ExportRows(es)| && ExportRows(es)[i].kind.File? && StrictNorm(ExportRows(es)[i]) == q
  {
    hide View, Trashed, StrictNames, ExportRows, StrictNorm;
    ViewDenotes(es);
    hide Unique;
    var e :| e in es && e.path == q;
    var j :| 0 <= j < |es| && es[j] == e;
    var row := EntryRow(es, j);
    ExportStrict(es, row);
    var i :| 0 <= i < |ExportRows(es)| && ExportRows(es)[i] == row;
  }

  /** The sizes an export of `es` must stay within. */
  predicate ExportFits(es: Entries, dom: Domain)
  {
    && Admissible(dom) && |ExportRows(es)| <= MAX_MANIFEST_ENTRIES
    && |ExportData(es)| <= U64_MAX && NumChunks(|ExportData(es)|, dom.size) <= U32_MAX
  }

  /** Round trip: exporting a vault whose names pass the strict rule and whose sizes fit
      gives a container of exactly the declared length that layout validation accepts;
      decrypting it gives the stream back, and importing that builds exactly the tree
      outside the trash, directories by path only. */
  lemma RoundTrip(es: Entries, dom: Domain, draws: seq<Draw>)
    requires TreeInv(es) && StrictNames(es) && ExportFits(es, dom) && |draws| == |ExportRows(es)|
    requires FilesFit(ExportRows(es))
    ensures var rows, data := ExportRows(es), ExportData(es);
            var written := WriteData(dom, Total(rows), data);
            && written.Ok? && |written.value| == DataLen(Total(rows), dom.size)
            && LayoutOk(rows, dom.size, |written.value|)
            && DecryptFrom(dom, written.value, 0) == Outcome(data, true)
            && Import(rows, data, draws) == Some(BareDirs(Untrashed(View(es))))
  {
    var rows, data := ExportRows(es), ExportData(es);
    ExportGenuine(es);
    ExportPaths(es);
    WriteIff(dom, Total(rows), data);
    WrittenData(dom, Total(rows), data);
    ExportTree(es);
    ImportTree(rows, data, draws);
    hide ExportRows, ExportData, View, PathsOk, TreeInv, StrictNames, Contiguous, Total, NumChunks, SizesOk, WriteData,
         DecryptFrom, ImportedTree, Import;
  }

  lemma GenuineCopied(rows: Layout, d: seq<byte>)
    ensures Genuine(rows, d) && Total(rows) <= U64_MAX && FilesFit(rows) <==> Streams(rows, d) && Copied(rows, d)
  {
    hide NumChunks, Total;
    if Streams(rows, d) {
      forall i | 0 <= i < |rows|
        ensures RowCopied(rows[i], d) <==>
                (rows[i].kind.File? ==> rows[i].digest == Digest(ItemOf(rows[i], d).content) &&
                                        NumChunks(rows[i].size, DEFAULT_CHUNK_SIZE) <= U32_MAX + 1)
      {
        if rows[i].kind.File? {
          RowFits(rows, i);
        }
      }
      assert Copied(rows, d) <==> forall i :: 0 <= i < |rows| ==> RowCopied(rows[i], d);
    }
  }

  /** The import as a commit: a new vault built from an export holds that tree. */
  lemma ImportedVault(env: Env, obj: Obj, suite: nat, es: Entries, dom: Domain, draws: seq<Draw>, blobSync: bool,
                      write: WriteOutcome)
    requires TreeInv(es) && StrictNames(es) && ExportFits(es, dom) && |draws| == |ExportRows(es)|
    requires FilesFit(ExportRows(es))
    requires FreshScript(env, StartBatch(Created(obj, suite), None),
                         ImportScript(ExportRows(es), ExportData(es), draws))
    ensures var (w, report) := Commit(env, Created(obj, suite), None,
                                      ImportScript(ExportRows(es), ExportData(es), draws), blobSync, write);
            && WorldInv(env, w) && Streams(ExportRows(es), ExportData(es))
            && (!report.Refused? ==> View(w.disk.entries) == BareDirs(Untrashed(View(es))))
            && (write.Failed? || !report.Refused?)
  {
    hide Commit, View, WorldInv, TreeScript, ImportScript, ExportRows, ExportData, TreeInv, StrictNames, FreshScript,
         Created, RunScript, WriteData, DecryptFrom, LayoutOk, DataLen, Total, BareDirs, Untrashed, ModelOf,
         NumChunks, ExportFits, StartBatch;
    RoundTrip(es, dom, draws);
    CreatedInv(env, obj, suite);
    NewlyCreated(obj, suite);
    var script := ImportScript(ExportRows(es), ExportData(es), draws);
    var t: Tree := map[];
    assert View(Created(obj, suite).disk.entries) == t;
    assert TreeScript(t, script, 0, None) == Some(BareDirs(Untrashed(View(es))));
    CommitRefines(env, Created(obj, suite), None, script, blobSync, write);
    var (w, report) := Commit(env, Created(obj, suite), None, script, blobSync, write);
    if !report.Refused? {
      assert Some(View(w.disk.entries)) == TreeScript(t, script, 0, None);
      assert Some(View(w.disk.entries)).value == BareDirs(Untrashed(View(es)));
    }
  }

  lemma NewlyCreated(obj: Obj, suite: nat)
    ensures var w := Created(obj, suite);
            View(w.disk.entries) == map[] && w.reader.Some? && w.reader.value.state.epoch < U64_MAX
  {
  }
}
