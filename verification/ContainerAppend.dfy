/** `append_files`: new directories and files after the existing data. */
module ContainerAppend {
  import opened Base
  import opened Stream
  import opened Paths
  import opened RandomAccess
  import opened VaultTree
  import opened Manifest
  import opened Validation
  import opened Container
  import opened ContainerEdits

  /** A file to add: `hashed` is what hashing its source saw. */
  datatype Added = Added(path: string, hashed: seq<byte>, attr: Attr)

  function RowPaths(es: Layout): set<Path> { set i | 0 <= i < |es| :: es[i].path }
  function FilePaths(es: Layout): set<Path> { set i | 0 <= i < |es| && es[i].kind.File? :: es[i].path }

  function DirRow(p: Path): FileRow { FileRow(p, Dir, 0, NO_ATTR, ZeroDigest, 0) }

  /** `push_dir_entry`: whatever stands at `p` already, even a file, is left alone. */
  function PushDir(es: Layout, p: Path): Layout
  {
    if p in RowPaths(es) then es else es + [DirRow(p)]
  }

  /** `push_ancestor_dirs`, from the ancestor of `k` components on. */
  function PushAncestors(es: Layout, p: Path, k: nat): Layout
    decreases |p| - k
  {
    if k >= |p| then es else PushAncestors(PushDir(es, p[..k]), p, k + 1)
  }

  function AddDirRow(es: Layout, p: Path): Layout { PushDir(PushAncestors(es, p, 1), p) }

  function AddFileRow(es: Layout, p: Path, f: Added): Layout
  {
    var rows := PushAncestors(es, p, 1);
    rows + [NewRow(p, f.hashed, f.attr, Total(rows))]
  }

  function AppendDirs(es: Layout, dirs: seq<string>): Option<Layout>
  {
    if dirs == [] then Some(es)
    else
      match AppendDirs(es, dirs[..|dirs| - 1])
      case None => None
      case Some(rows) =>
        match Normalize(dirs[|dirs| - 1])
        case Err(_) => None
        case Ok(p) => Some(AddDirRow(rows, p))
  }

  function AppendRows(es: Layout, files: seq<Added>): Option<Layout>
  {
    if files == [] then Some(es)
    else
      match AppendRows(es, files[..|files| - 1])
      case None => None
      case Some(rows) =>
        var f := files[|files| - 1];
        match Normalize(f.path)
        case Err(_) => None
        case Ok(p) =>
          if p in RowPaths(rows) || Total(rows) + |f.hashed| > U64_MAX then None else Some(AddFileRow(rows, p, f))
  }

  function Hashed(files: seq<Added>): seq<byte>
  {
    if files == [] then [] else Hashed(files[..|files| - 1]) + files[|files| - 1].hashed
  }

  // ----- the loops -----

  method PushAncestorDirs(es: Layout, p: Path) returns (rows: Layout)
    ensures rows == PushAncestors(es, p, 1)
  {
    rows := es;
    var seen := RowPaths(es);
    var k := 1;
    while k < |p|
      invariant 1 <= k && seen == RowPaths(rows)
      invariant PushAncestors(rows, p, k) == PushAncestors(es, p, 1)
      decreases |p| - k
    {
      if p[..k] !in seen {
        PathsSnocSets(rows, DirRow(p[..k]));
        rows := rows + [DirRow(p[..k])];
        seen := seen + {p[..k]};
      }
      k := k + 1;
    }
  }

  /** `append_files` up to the write. */
  method AppendFiles(es: Layout, dirs: seq<string>, added: seq<Added>) returns (r: Result<(Layout, nat)>)
    requires Total(es) <= U64_MAX
    ensures var withDirs := AppendDirs(es, dirs);
            var all := if withDirs.None? then None else AppendRows(withDirs.value, added);
            r == if all.None? then Err(Invalid) else Ok((all.value, Total(all.value)))
  {
    hide Normalize, Total, PushAncestors;
    var rows := es;
    var offset := Total(es);
    for n := 0 to |dirs|
      invariant AppendDirs(es, dirs[..n]) == Some(rows) && offset == Total(rows)
    {
      assert dirs[..n + 1][..n] == dirs[..n];
      var norm := Normalize(dirs[n]);
      if norm.Err? {
        DirsFail(es, dirs, n + 1);
        return Err(Invalid);
      }
      AddDirTotal(rows, norm.value);
      rows := PushAncestorDirs(rows, norm.value);
      rows := PushDir(rows, norm.value);
    }
    assert dirs[..|dirs|] == dirs;
    ghost var base := rows;
    for n := 0 to |added|
      invariant AppendRows(base, added[..n]) == Some(rows) && offset == Total(rows)
    {
      assert added[..n + 1][..n] == added[..n];
      var norm := Normalize(added[n].path);
      if norm.Err? || norm.value in RowPaths(rows) || offset + |added[n].hashed| > U64_MAX {
        RowsFail(base, added, n + 1);
        return Err(Invalid);
      }
      AddFileTotal(rows, norm.value, added[n]);
      rows := PushAncestorDirs(rows, norm.value);
      rows := rows + [NewRow(norm.value, added[n].hashed, added[n].attr, offset)];
      offset := offset + |added[n].hashed|;
    }
    assert added[..|added|] == added;
    r := Ok((rows, offset));
  }

  lemma {:induction false} DirsFail(es: Layout, dirs: seq<string>, n: nat)
    requires n <= |dirs| && AppendDirs(es, dirs[..n]).None?
    ensures AppendDirs(es, dirs).None?
    decreases |dirs|
  {
    if n < |dirs| {
      assert dirs[..|dirs| - 1][..n] == dirs[..n];
      DirsFail(es, dirs[..|dirs| - 1], n);
    } else {
      assert dirs[..n] == dirs;
    }
  }

  lemma {:induction false} RowsFail(es: Layout, files: seq<Added>, n: nat)
    requires n <= |files| && AppendRows(es, files[..n]).None?
    ensures AppendRows(es, files).None?
    decreases |files|
  {
    if n < |files| {
      assert files[..|files| - 1][..n] == files[..n];
      RowsFail(es, files[..|files| - 1], n);
    } else {
      assert files[..n] == files;
    }
  }

  lemma {:induction false} AncestorsTotal(es: Layout, p: Path, k: nat)
    ensures Total(PushAncestors(es, p, k)) == Total(es)
    decreases |p| - k
  {
    if k < |p| {
      TotalSnoc(es, DirRow(p[..k]));
      AncestorsTotal(PushDir(es, p[..k]), p, k + 1);
    }
  }

  lemma AddDirTotal(es: Layout, p: Path)
    ensures Total(AddDirRow(es, p)) == Total(es)
  {
    AncestorsTotal(es, p, 1);
    TotalSnoc(PushAncestors(es, p, 1), DirRow(p));
  }

  lemma AddFileTotal(es: Layout, p: Path, f: Added)
    ensures Total(PushAncestors(es, p, 1)) == Total(es)
    ensures Total(AddFileRow(es, p, f)) == Total(es) + |f.hashed|
  {
    AncestorsTotal(es, p, 1);
    var rows := PushAncestors(es, p, 1);
    TotalSnoc(rows, NewRow(p, f.hashed, f.attr, Total(rows)));
  }

  lemma PathsSnocSets(es: Layout, e: FileRow)
    ensures RowPaths(es + [e]) == RowPaths(es) + {e.path}
    ensures FilePaths(es + [e]) == FilePaths(es) + if e.kind.File? then {e.path} else {}
  {
    var fs := es + [e];
    assert fs[|es|] == e;
    assert forall i :: 0 <= i < |es| ==> fs[i] == es[i];
    forall p | p in RowPaths(es)
      ensures p in RowPaths(fs)
    {
      var i :| 0 <= i < |es| && es[i].path == p;
      assert fs[i].path == p;
    }
    forall p | p in FilePaths(es)
      ensures p in FilePaths(fs)
    {
      var i :| 0 <= i < |es| && es[i].kind.File? && es[i].path == p;
      assert fs[i].path == p;
    }
  }

  lemma AppendRowsSnoc(es: Layout, files: seq<Added>)
    requires files != [] && AppendRows(es, files).Some?
    ensures var n := |files| - 1;
            var r, p := AppendRows(es, files[..n]), Normalize(files[n].path);
            r.Some? && p.Ok? && p.value !in RowPaths(r.value) &&
                AppendRows(es, files).value == AddFileRow(r.value, p.value, files[n])
    ensures Hashed(files) == Hashed(files[..|files| - 1]) + files[|files| - 1].hashed
  {
    hide Normalize, Total, AddFileRow;
  }

  // ----- the data -----

  /** The stream of a row appended to a genuine one. */
  lemma GenuineSnoc(rows: Layout, row: FileRow, d: seq<byte>, x: seq<byte>)
    requires Contiguous(rows) && |d| == Total(rows) && |x| == Bytes(row) &&
             (row.kind.File? ==> row.offset == Total(rows))
    ensures Contiguous(rows + [row]) && |d + x| == Total(rows + [row])
    ensures Genuine(rows + [row], d + x) <==> Genuine(rows, d) && (row.kind.File? ==> row.digest == Digest(x))
  {
    ItemsSnoc(rows, row, d, x);
    GenuineItems(rows, d);
    GenuineItems(rows + [row], d + x);
    hide Items, Total, Contiguous, Genuine;
    var items, last := Items(rows, d), Item(row.path, row.kind, row.attr, row.digest, x);
    assert (items + [last])[|items|] == last;
    assert forall i :: 0 <= i < |items| ==> (items + [last])[i] == items[i];
  }

  lemma {:induction false} AncestorsGenuine(es: Layout, p: Path, k: nat, d: seq<byte>)
    requires Contiguous(es) && |d| == Total(es)
    ensures var rows := PushAncestors(es, p, k);
            Contiguous(rows) && |d| == Total(rows) && (Genuine(rows, d) <==> Genuine(es, d))
    decreases |p| - k
  {
    if k < |p| {
      PushGenuine(es, p[..k], d);
      hide Genuine, Total, Contiguous;
      AncestorsGenuine(PushDir(es, p[..k]), p, k + 1, d);
    }
  }

  lemma PushGenuine(es: Layout, p: Path, d: seq<byte>)
    requires Contiguous(es) && |d| == Total(es)
    ensures Contiguous(PushDir(es, p)) && |d| == Total(PushDir(es, p)) &&
            (Genuine(PushDir(es, p), d) <==> Genuine(es, d))
  {
    GenuineSnoc(es, DirRow(p), d, []);
    assert d + [] == d;
    hide Genuine, Total, Contiguous;
  }

  lemma {:induction false} DirsGenuine(es: Layout, dirs: seq<string>, d: seq<byte>)
    requires Contiguous(es) && |d| == Total(es) && AppendDirs(es, dirs).Some?
    ensures var rows := AppendDirs(es, dirs).value;
            Contiguous(rows) && |d| == Total(rows) && (Genuine(rows, d) <==> Genuine(es, d))
  {
    hide Genuine, Total, Contiguous, Normalize;
    if dirs != [] {
      var r, p := AppendDirs(es, dirs[..|dirs| - 1]).value, Normalize(dirs[|dirs| - 1]).value;
      DirsGenuine(es, dirs[..|dirs| - 1], d);
      AncestorsGenuine(r, p, 1, d);
      PushGenuine(PushAncestors(r, p, 1), p, d);
    }
  }

  /** The new stream is exactly as long as declared, and it is genuine exactly when the
      sources still held the bytes that were hashed. */
  lemma {:induction false} RowsGenuine(es: Layout, files: seq<Added>, d: seq<byte>, s: seq<byte>)
    requires Genuine(es, d) && AppendRows(es, files).Some? && |s| == |Hashed(files)|
    ensures var rows := AppendRows(es, files).value;
            Contiguous(rows) && |d + s| == Total(rows) && (Genuine(rows, d + s) <==> s == Hashed(files))
  {
    if files == [] {
      assert d + s == d && s == [];
    } else {
      AppendRowsSnoc(es, files);
      hide AppendRows, Hashed, Genuine, Contiguous, Total, Normalize, AddFileRow, RowPaths;
      var n := |files| - 1;
      var f := files[n];
      var r, p := AppendRows(es, files[..n]).value, Normalize(f.path).value;
      var h := Hashed(files[..n]);
      var s0, x := s[..|h|], s[|h|..];
      RowsGenuine(es, files[..n], d, s0);
      RowGenuineStep(r, p, f, d + s0, x);
      Cut3(d, s, |h|);
      SplitEq(s, |h|, h, f.hashed);
    }
  }

  lemma Cut3(d: seq<byte>, s: seq<byte>, n: nat)
    requires n <= |s|
    ensures d + s[..n] + s[n..] == d + s
  {
  }

  lemma RowGenuineStep(r: Layout, p: Path, f: Added, d: seq<byte>, x: seq<byte>)
    requires Contiguous(r) && |d| == Total(r) && |x| == |f.hashed|
    ensures var rows := AddFileRow(r, p, f);
            Contiguous(rows) && |d + x| == Total(rows) && (Genuine(rows, d + x) <==> Genuine(r, d) && x == f.hashed)
  {
    hide Total, Contiguous, Genuine, PushAncestors;
    AncestorsGenuine(r, p, 1, d);
    var rows := PushAncestors(r, p, 1);
    GenuineSnoc(rows, NewRow(p, f.hashed, f.attr, Total(rows)), d, x);
  }

  lemma SplitEq(s: seq<byte>, n: nat, a: seq<byte>, b: seq<byte>)
    requires n == |a| && |s| == |a| + |b|
    ensures s == a + b <==> s[..n] == a && s[n..] == b
  {
    assert s == s[..n] + s[n..];
    assert (a + b)[..n] == a && (a + b)[n..] == b;
  }

  // ----- the tree -----

  function ItemNode(it: Item): Node { if it.kind.Dir? then DirNode(it.attr) else FileNode(it.content, it.attr) }

  function TreeOf(items: seq<Item>): Tree
  {
    if items == [] then map[]
    else TreeOf(items[..|items| - 1])[items[|items| - 1].path := ItemNode(items[|items| - 1])]
  }

  lemma TreeSnoc(items: seq<Item>, it: Item)
    ensures TreeOf(items + [it]) == TreeOf(items)[it.path := ItemNode(it)]
  {
    assert (items + [it])[..|items|] == items;
  }

  lemma {:induction false} TreeKeys(es: Layout, d: seq<byte>)
    ensures TreeOf(Items(es, d)).Keys == RowPaths(es)
  {
    if es != [] {
      var n := |es| - 1;
      TreeKeys(es[..n], d);
      assert Items(es, d)[..n] == Items(es[..n], d);
      assert es == es[..n] + [es[n]];
      PathsSnocSets(es[..n], es[n]);
    }
  }

  function TreeAddDir(t: Tree, p: Path): Tree
  {
    var u := AddDirs(t, p);
    if p in u then u else u[p := DirNode(NO_ATTR)]
  }

  function TreeDirs(t: Tree, dirs: seq<string>): Tree
  {
    if dirs == [] then t
    else
      var u := TreeDirs(t, dirs[..|dirs| - 1]);
      match Normalize(dirs[|dirs| - 1]) case Ok(p) => TreeAddDir(u, p) case Err(_) => u
  }

  function TreeFiles(t: Tree, files: seq<Added>): Tree
  {
    if files == [] then t
    else
      var u, f := TreeFiles(t, files[..|files| - 1]), files[|files| - 1];
      match Normalize(f.path) case Ok(p) => AddDirs(u, p)[p := FileNode(f.hashed, f.attr)] case Err(_) => u
  }

  /** The ancestors of `p` of at least `k` components, where missing. */
  function AddFrom(t: Tree, p: Path, k: nat): Tree
  {
    t + map q | q in Ancestors(p) && |q| >= k && q !in t :: DirNode(NO_ATTR)
  }

  lemma AddFromStep(t: Tree, p: Path, k: nat)
    requires 0 < k < |p|
    ensures AddFrom(if p[..k] in t then t else t[p[..k] := DirNode(NO_ATTR)], p, k + 1) == AddFrom(t, p, k)
  {
    var u := if p[..k] in t then t else t[p[..k] := DirNode(NO_ATTR)];
    assert p[..k] in Ancestors(p);
    forall q | q in Ancestors(p)
      ensures |q| >= k <==> q == p[..k] || |q| >= k + 1
    {
    }
    assert AddFrom(u, p, k + 1).Keys == AddFrom(t, p, k).Keys;
  }

  lemma PushTree(es: Layout, p: Path, d: seq<byte>)
    requires Contiguous(es) && |d| == Total(es)
    ensures var t := TreeOf(Items(es, d));
            TreeOf(Items(PushDir(es, p), d)) == if p in t then t else t[p := DirNode(NO_ATTR)]
  {
    TreeKeys(es, d);
    ItemsSnoc(es, DirRow(p), d, []);
    assert d + [] == d;
    TreeSnoc(Items(es, d), Item(p, Dir, NO_ATTR, ZeroDigest, []));
    hide Items, TreeOf, Total, Contiguous;
  }

  lemma {:induction false} AncestorsTree(es: Layout, p: Path, k: nat, d: seq<byte>)
    requires Contiguous(es) && |d| == Total(es) && 0 < k
    ensures TreeOf(Items(PushAncestors(es, p, k), d)) == AddFrom(TreeOf(Items(es, d)), p, k)
    decreases |p| - k
  {
    hide Items, TreeOf, Total, Contiguous, Genuine, AddFrom;
    var t := TreeOf(Items(es, d));
    if k < |p| {
      PushTree(es, p[..k], d);
      PushGenuine(es, p[..k], d);
      AncestorsTree(PushDir(es, p[..k]), p, k + 1, d);
      AddFromStep(t, p, k);
    } else {
      AddFromEnd(t, p, k);
    }
  }

  lemma AddFromEnd(t: Tree, p: Path, k: nat)
    requires k >= |p|
    ensures AddFrom(t, p, k) == t
  {
  }

  lemma AddFromAll(t: Tree, p: Path)
    ensures AddFrom(t, p, 1) == AddDirs(t, p)
  {
    assert forall q :: q in Ancestors(p) ==> |q| >= 1;
    assert AddFrom(t, p, 1).Keys == AddDirs(t, p).Keys;
  }

  lemma {:induction false} DirsTree(es: Layout, dirs: seq<string>, d: seq<byte>)
    requires Contiguous(es) && |d| == Total(es) && AppendDirs(es, dirs).Some?
    ensures TreeOf(Items(AppendDirs(es, dirs).value, d)) == TreeDirs(TreeOf(Items(es, d)), dirs)
  {
    hide Items, TreeOf, Total, Contiguous, Genuine, Normalize, AddFrom, AddDirs;
    if dirs != [] {
      var n := |dirs| - 1;
      var r, p := AppendDirs(es, dirs[..n]).value, Normalize(dirs[n]).value;
      DirsTree(es, dirs[..n], d);
      DirsGenuine(es, dirs[..n], d);
      AncestorsTree(r, p, 1, d);
      AncestorsGenuine(r, p, 1, d);
      AddFromAll(TreeOf(Items(r, d)), p);
      PushTree(PushAncestors(r, p, 1), p, d);
    }
  }

  /** Appending is inserting: the new container's tree is the old one with the missing
      ancestors and the files put in. */
  lemma {:induction false} RowsTree(es: Layout, files: seq<Added>, d: seq<byte>)
    requires Genuine(es, d) && AppendRows(es, files).Some?
    ensures TreeOf(Items(AppendRows(es, files).value, d + Hashed(files))) == TreeFiles(TreeOf(Items(es, d)), files)
  {
    if files == [] {
      assert d + Hashed(files) == d;
    } else {
      AppendRowsSnoc(es, files);
      var n := |files| - 1;
      var f := files[n];
      var r, p := AppendRows(es, files[..n]).value, Normalize(f.path).value;
      var t, d0 := TreeOf(Items(es, d)), d + Hashed(files[..n]);
      assert TreeFiles(t, files) == AddDirs(TreeFiles(t, files[..n]), p)[p := FileNode(f.hashed, f.attr)];
      hide AppendRows, Hashed, Items, TreeOf, Contiguous, Total, Normalize, AddDirs, TreeFiles, AddFileRow, RowPaths;
      RowsTree(es, files[..n], d);
      RowsGenuine(es, files[..n], d, Hashed(files[..n]));
      Regroup(d, Hashed(files[..n]), f.hashed);
      hide Genuine;
      RowTreeStep(r, p, f, d0);
    }
  }

  lemma RowTreeStep(r: Layout, p: Path, f: Added, d: seq<byte>)
    requires Contiguous(r) && |d| == Total(r)
    ensures TreeOf(Items(AddFileRow(r, p, f), d + f.hashed)) ==
            AddDirs(TreeOf(Items(r, d)), p)[p := FileNode(f.hashed, f.attr)]
  {
    hide Items, TreeOf, Total, Contiguous, Genuine, AddFrom, AddDirs, PushAncestors;
    AncestorsTree(r, p, 1, d);
    AncestorsGenuine(r, p, 1, d);
    AddFromAll(TreeOf(Items(r, d)), p);
    var rows := PushAncestors(r, p, 1);
    var row := NewRow(p, f.hashed, f.attr, Total(rows));
    ItemsSnoc(rows, row, d, f.hashed);
    TreeSnoc(Items(rows, d), Item(p, File, f.attr, row.digest, f.hashed));
  }

  // ----- when the result can be imported -----

  /** The stored names in normal form; an opened container may spell them otherwise. */
  function NormSet(es: Layout): set<Path> { set i | 0 <= i < |es| :: StrictNorm(es[i]) }
  function NormFiles(es: Layout): set<Path> { set i | 0 <= i < |es| && es[i].kind.File? :: StrictNorm(es[i]) }

  function NewPaths(es: Layout, rows: Layout): set<Path> { set i | |es| <= i < |rows| :: rows[i].path }
  function NewFiles(es: Layout, rows: Layout): set<Path>
  {
    set i | |es| <= i < |rows| && rows[i].kind.File? :: rows[i].path
  }

  predicate UniqueRows(es: Layout) { forall i, j :: 0 <= i < j < |es| ==> es[i].path != es[j].path }

  predicate NoFileOver(files: set<Path>, paths: set<Path>) { forall f, p :: f in files && p in paths ==> !(f < p) }

  predicate IsStrict(p: Path) { Normalize(Join(p)) == Ok(p) }

  /** `rows` is `es` and then new rows, all with strict names and no name twice. */
  predicate Extends(es: Layout, rows: Layout)
  {
    es <= rows && UniqueRows(rows) && forall i :: |es| <= i < |rows| ==> IsStrict(rows[i].path)
  }

  /** The paths at or above one of `added`. */
  function Closure(added: set<Path>): set<Path> { set a, k | a in added && 0 < k <= |a| :: a[..k] }

  /** What was added: `added` with all their ancestors, where missing, and the files. */
  ghost predicate Grown(es: Layout, rows: Layout, added: set<Path>, files: set<Path>)
  {
    Extends(es, rows) && RowPaths(rows) == RowPaths(es) + Closure(added) && NewFiles(es, rows) == files
  }

  lemma ClosureUnion(a: set<Path>, b: set<Path>)
    ensures Closure(a + b) == Closure(a) + Closure(b)
  {
    forall q | q in Closure(a + b)
      ensures q in Closure(a) + Closure(b)
    {
      var x, k :| x in a + b && 0 < k <= |x| && q == x[..k];
    }
    forall q | q in Closure(a) + Closure(b)
      ensures q in Closure(a + b)
    {
      if q in Closure(a) {
        var x, k :| x in a && 0 < k <= |x| && q == x[..k];
        assert x in a + b;
      } else {
        var x, k :| x in b && 0 < k <= |x| && q == x[..k];
        assert x in a + b;
      }
    }
  }

  lemma ExtendsTrans(es: Layout, mid: Layout, rows: Layout)
    requires Extends(es, mid) && Extends(mid, rows)
    ensures Extends(es, rows) && NewFiles(es, rows) == NewFiles(es, mid) + NewFiles(mid, rows)
  {
    hide IsStrict;
    forall i | |es| <= i < |rows|
      ensures IsStrict(rows[i].path)
    {
      assert i < |mid| ==> rows[i] == mid[i];
    }
    forall p | p in NewFiles(es, mid) + NewFiles(mid, rows)
      ensures p in NewFiles(es, rows)
    {
      if p in NewFiles(es, mid) {
        var i :| |es| <= i < |mid| && mid[i].kind.File? && mid[i].path == p;
        assert rows[i] == mid[i];
      }
    }
    forall p | p in NewFiles(es, rows)
      ensures p in NewFiles(es, mid) + NewFiles(mid, rows)
    {
      var i :| |es| <= i < |rows| && rows[i].kind.File? && rows[i].path == p;
      assert i < |mid| ==> rows[i] == mid[i];
    }
  }

  lemma GrownTrans(es: Layout, mid: Layout, rows: Layout, a: set<Path>, f: set<Path>, b: set<Path>, g: set<Path>)
    requires Grown(es, mid, a, f) && Grown(mid, rows, b, g)
    ensures Grown(es, rows, a + b, f + g)
  {
    hide Extends, RowPaths, NewFiles, Closure;
    ExtendsTrans(es, mid, rows);
    ClosureUnion(a, b);
  }

  lemma ExtendsSnoc(es: Layout, row: FileRow)
    requires UniqueRows(es) && row.path !in RowPaths(es) && IsStrict(row.path)
    ensures Extends(es, es + [row]) && NewFiles(es, es + [row]) == if row.kind.File? then {row.path} else {}
  {
    hide IsStrict;
    var fs := es + [row];
    assert fs[|es|] == row;
    forall i, j | 0 <= i < j < |fs|
      ensures fs[i].path != fs[j].path
    {
      assert fs[i].path in RowPaths(es);
    }
  }

  lemma ExtendsSelf(es: Layout)
    requires UniqueRows(es)
    ensures Extends(es, es) && NewFiles(es, es) == {}
  {
    hide IsStrict;
  }

  /** Strictness is canonicity without spoofing characters, component by component. */
  lemma StrictIff(p: Path)
    ensures IsStrict(p) <==> Canonical(p) && forall c, x :: c in p && x in c ==> !SpoofingChar(x)
  {
    NormalizationImage(Join(p), p);
    hide NormalizeStored, Canonical, Join, SpoofingChar;
  }

  /** Ancestors of a strict path are strict. */
  lemma PrefixStrict(p: Path, k: nat)
    requires IsStrict(p) && 0 < k <= |p|
    ensures IsStrict(p[..k])
  {
    StrictIff(p);
    StrictIff(p[..k]);
    hide IsStrict, Canonical, SpoofingChar;
    CanonicalPrefix(p, k);
    assert forall c :: c in p[..k] ==> c in p;
  }

  /** The proper prefixes of `p` of at least `k` components. */
  function Above(p: Path, k: nat): set<Path> { set j | k <= j < |p| :: p[..j] }

  lemma AboveStep(p: Path, k: nat)
    requires k < |p|
    ensures Above(p, k) == {p[..k]} + Above(p, k + 1)
  {
  }

  lemma {:induction false} AncestorsGrown(es: Layout, p: Path, k: nat)
    requires UniqueRows(es) && IsStrict(p) && 0 < k
    ensures var rows := PushAncestors(es, p, k);
            Extends(es, rows) && RowPaths(rows) == RowPaths(es) + Above(p, k) && NewFiles(es, rows) == {}
    decreases |p| - k
  {
    hide IsStrict, UniqueRows, RowPaths, NewFiles, Above;
    if k < |p| {
      PrefixStrict(p, k);
      AboveStep(p, k);
      PushGrown(es, p[..k]);
      var mid := PushDir(es, p[..k]);
      ExtendsUnique(es, mid);
      hide PushDir, Extends;
      AncestorsGrown(mid, p, k + 1);
      ExtendsTrans(es, mid, PushAncestors(es, p, k));
    } else {
      ExtendsSelf(es);
      NoneAbove(p, k);
    }
  }

  lemma NoneAbove(p: Path, k: nat)
    requires k >= |p|
    ensures Above(p, k) == {}
  {
  }

  lemma ExtendsUnique(es: Layout, rows: Layout)
    requires Extends(es, rows)
    ensures UniqueRows(rows)
  {
  }

  lemma PushGrown(es: Layout, q: Path)
    requires UniqueRows(es) && IsStrict(q)
    ensures Extends(es, PushDir(es, q)) && RowPaths(PushDir(es, q)) == RowPaths(es) + {q} &&
            NewFiles(es, PushDir(es, q)) == {}
  {
    hide IsStrict, UniqueRows, RowPaths, NewFiles, Extends;
    if q in RowPaths(es) {
      ExtendsSelf(es);
    } else {
      ExtendsSnoc(es, DirRow(q));
      PathsSnocSets(es, DirRow(q));
    }
  }

  lemma ClosureOne(p: Path)
    requires p != []
    ensures Closure({p}) == Above(p, 1) + {p}
  {
    forall q | q in Closure({p})
      ensures q in Above(p, 1) + {p}
    {
      var a, k :| a in {p} && 0 < k <= |a| && q == a[..k];
      assert k == |p| ==> q == p;
    }
    assert p[..|p|] == p;
    forall q | q in Above(p, 1) + {p}
      ensures q in Closure({p})
    {
      if q != p {
        var k :| 1 <= k < |p| && q == p[..k];
      }
    }
  }

  lemma StrictNonEmpty(p: Path)
    requires IsStrict(p)
    ensures p != []
  {
    StrictIff(p);
  }

  lemma AddDirGrown(es: Layout, p: Path)
    requires UniqueRows(es) && IsStrict(p)
    ensures Grown(es, AddDirRow(es, p), {p}, {})
  {
    hide IsStrict, UniqueRows, RowPaths, NewFiles, Above, Extends, PushAncestors, PushDir, Closure;
    AncestorsGrown(es, p, 1);
    var rows := PushAncestors(es, p, 1);
    ExtendsUnique(es, rows);
    PushGrown(rows, p);
    ExtendsTrans(es, rows, AddDirRow(es, p));
    StrictNonEmpty(p);
    ClosureOne(p);
  }

  lemma AddFileGrown(es: Layout, p: Path, f: Added)
    requires UniqueRows(es) && IsStrict(p) && p !in RowPaths(es)
    ensures Grown(es, AddFileRow(es, p, f), {p}, {p})
  {
    hide IsStrict, UniqueRows, RowPaths, NewFiles, Above, Extends, PushAncestors, Closure;
    AncestorsGrown(es, p, 1);
    var rows := PushAncestors(es, p, 1);
    var row := NewRow(p, f.hashed, f.attr, Total(rows));
    ExtendsUnique(es, rows);
    NotAbove(p);
    ExtendsSnoc(rows, row);
    PathsSnocSets(rows, row);
    ExtendsTrans(es, rows, rows + [row]);
    StrictNonEmpty(p);
    ClosureOne(p);
  }

  lemma NotAbove(p: Path)
    ensures p !in Above(p, 1)
  {
    assert forall j :: 1 <= j < |p| ==> |p[..j]| < |p|;
  }

  function NormPaths(raw: set<string>): set<Path> { set s | s in raw && Normalize(s).Ok? :: Normalize(s).value }

  function DirSet(dirs: seq<string>): set<Path> { NormPaths(set i | 0 <= i < |dirs| :: dirs[i]) }
  function FileSet(files: seq<Added>): set<Path> { NormPaths(set i | 0 <= i < |files| :: files[i].path) }

  lemma NormPathsSnoc(raw: set<string>, s: string)
    requires Normalize(s).Ok?
    ensures NormPaths(raw + {s}) == NormPaths(raw) + {Normalize(s).value}
  {
    hide Normalize;
  }

  lemma StrictOf(s: string)
    requires Normalize(s).Ok?
    ensures IsStrict(Normalize(s).value)
  {
    NormalizationImage(s, Normalize(s).value);
  }

  lemma NothingGrown(es: Layout)
    requires UniqueRows(es)
    ensures Grown(es, es, {}, {})
  {
    ExtendsSelf(es);
    assert Closure({}) == {};
  }

  lemma {:induction false} DirsGrown(es: Layout, dirs: seq<string>)
    requires UniqueRows(es) && AppendDirs(es, dirs).Some?
    ensures Grown(es, AppendDirs(es, dirs).value, DirSet(dirs), {})
  {
    hide Normalize, UniqueRows, Grown, AddDirRow;
    if dirs == [] {
      assert DirSet(dirs) == {};
      NothingGrown(es);
    } else {
      hide DirSet;
      var n := |dirs| - 1;
      var r, p := AppendDirs(es, dirs[..n]).value, Normalize(dirs[n]).value;
      assert AppendDirs(es, dirs).value == AddDirRow(r, p);
      hide AppendDirs;
      DirsGrown(es, dirs[..n]);
      StrictOf(dirs[n]);
      hide IsStrict;
      GrownUnique(es, r, DirSet(dirs[..n]), {});
      AddDirGrown(r, p);
      GrownTrans(es, r, AddDirRow(r, p), DirSet(dirs[..n]), {}, {p}, {});
      var none: set<Path> := {};
      assert none + none == none;
      DirSetSnoc(dirs);
    }
  }

  lemma DirSetSnoc(dirs: seq<string>)
    requires dirs != [] && Normalize(dirs[|dirs| - 1]).Ok?
    ensures DirSet(dirs) == DirSet(dirs[..|dirs| - 1]) + {Normalize(dirs[|dirs| - 1]).value}
  {
    hide Normalize;
    var n := |dirs| - 1;
    assert (set i | 0 <= i < |dirs| :: dirs[i]) == (set i | 0 <= i < n :: dirs[..n][i]) + {dirs[n]};
    NormPathsSnoc(set i | 0 <= i < n :: dirs[..n][i], dirs[n]);
  }

  lemma GrownUnique(es: Layout, rows: Layout, a: set<Path>, f: set<Path>)
    requires Grown(es, rows, a, f)
    ensures UniqueRows(rows)
  {
  }

  lemma {:induction false} RowsGrown(es: Layout, files: seq<Added>)
    requires UniqueRows(es) && AppendRows(es, files).Some?
    ensures Grown(es, AppendRows(es, files).value, FileSet(files), FileSet(files))
  {
    hide Normalize, UniqueRows, Grown, AddFileRow, RowPaths;
    if files == [] {
      assert FileSet(files) == {};
      NothingGrown(es);
    } else {
      hide FileSet;
      AppendRowsSnoc(es, files);
      var n := |files| - 1;
      var r, p := AppendRows(es, files[..n]).value, Normalize(files[n].path).value;
      hide AppendRows;
      RowsGrown(es, files[..n]);
      StrictOf(files[n].path);
      hide IsStrict;
      GrownUnique(es, r, FileSet(files[..n]), FileSet(files[..n]));
      AddFileGrown(r, p, files[n]);
      GrownTrans(es, r, AddFileRow(r, p, files[n]), FileSet(files[..n]), FileSet(files[..n]), {p}, {p});
      FileSetSnoc(files);
    }
  }

  lemma FileSetSnoc(files: seq<Added>)
    requires files != [] && Normalize(files[|files| - 1].path).Ok?
    ensures FileSet(files) == FileSet(files[..|files| - 1]) + {Normalize(files[|files| - 1].path).value}
  {
    hide Normalize;
    var n := |files| - 1;
    assert (set i | 0 <= i < |files| :: files[i].path) == (set i | 0 <= i < n :: files[..n][i].path) + {files[n].path};
    NormPathsSnoc(set i | 0 <= i < n :: files[..n][i].path, files[n].path);
  }

  /** The normal forms of a row list and its extension. */
  lemma NormSplit(es: Layout, rows: Layout)
    requires Extends(es, rows)
    ensures NormSet(rows) == NormSet(es) + NewPaths(es, rows) && NormFiles(rows) == NormFiles(es) + NewFiles(es, rows)
  {
    assert forall i :: |es| <= i < |rows| ==> StrictNorm(rows[i]) == rows[i].path;
    hide StrictNorm, UniqueRows, IsStrict;
    assert forall i :: 0 <= i < |es| ==> rows[i] == es[i];
    forall q | q in NormSet(es)
      ensures q in NormSet(rows)
    {
      var i :| 0 <= i < |es| && StrictNorm(es[i]) == q;
      assert StrictNorm(rows[i]) == q;
    }
    forall q | q in NormFiles(es)
      ensures q in NormFiles(rows)
    {
      var i :| 0 <= i < |es| && es[i].kind.File? && StrictNorm(es[i]) == q;
      assert StrictNorm(rows[i]) == q;
    }
  }

  predicate UniqueNorms(es: Layout) { forall i, j :: 0 <= i < j < |es| ==> StrictNorm(es[i]) != StrictNorm(es[j]) }

  lemma PathsOkIff(es: Layout)
    ensures PathsOk(es) <==>
            && |es| <= MAX_MANIFEST_ENTRIES && (forall i :: 0 <= i < |es| ==> Normalize(Join(es[i].path)).Ok?)
            && UniqueNorms(es) && NoFileOver(NormFiles(es), NormSet(es))
  {
    hide Normalize, Join, StrictNorm;
    if PathsOk(es) {
      forall f, p | f in NormFiles(es) && p in NormSet(es)
        ensures !(f < p)
      {
        var i :| 0 <= i < |es| && es[i].kind.File? && StrictNorm(es[i]) == f;
        var j :| 0 <= j < |es| && StrictNorm(es[j]) == p;
      }
    }
    if NoFileOver(NormFiles(es), NormSet(es)) {
      forall i, j | 0 <= i < |es| && 0 <= j < |es| && es[i].kind.File?
        ensures !(StrictNorm(es[i]) < StrictNorm(es[j]))
      {
        assert StrictNorm(es[i]) in NormFiles(es) && StrictNorm(es[j]) in NormSet(es);
      }
    }
  }

  lemma NormsUnique(es: Layout, rows: Layout)
    requires UniqueNorms(es) && Extends(es, rows)
    ensures UniqueNorms(rows) <==> NewPaths(es, rows) !! NormSet(es)
  {
    assert forall i :: |es| <= i < |rows| ==> StrictNorm(rows[i]) == rows[i].path;
    hide StrictNorm, IsStrict;
    assert forall i :: 0 <= i < |es| ==> rows[i] == es[i];
    if NewPaths(es, rows) !! NormSet(es) {
      forall i, j | 0 <= i < j < |rows|
        ensures StrictNorm(rows[i]) != StrictNorm(rows[j])
      {
        if i < |es| <= j {
          assert StrictNorm(es[i]) in NormSet(es) && rows[j].path in NewPaths(es, rows);
        }
      }
    }
    if UniqueNorms(rows) {
      forall q | q in NewPaths(es, rows)
        ensures q !in NormSet(es)
      {
        var j :| |es| <= j < |rows| && rows[j].path == q;
        assert forall i :: 0 <= i < |es| ==> StrictNorm(rows[i]) != StrictNorm(rows[j]);
      }
    }
  }

  lemma NamesNormalize(es: Layout, rows: Layout)
    requires Extends(es, rows) && forall i :: 0 <= i < |es| ==> Normalize(Join(es[i].path)).Ok?
    ensures forall i :: 0 <= i < |rows| ==> Normalize(Join(rows[i].path)).Ok?
  {
    hide Normalize, Join, UniqueRows;
    assert forall i :: 0 <= i < |es| ==> rows[i] == es[i];
  }

  lemma ExtensionOk(es: Layout, rows: Layout)
    requires PathsOk(es) && Extends(es, rows)
    ensures PathsOk(rows) <==>
            && |rows| <= MAX_MANIFEST_ENTRIES && NewPaths(es, rows) !! NormSet(es)
            && NoFileOver(NormFiles(es) + NewFiles(es, rows), NormSet(es) + NewPaths(es, rows))
  {
    hide PathsOk, Extends, UniqueNorms, NoFileOver, NewPaths, NewFiles, NormSet, NormFiles, Normalize, Join, IsStrict;
    PathsOkIff(es);
    PathsOkIff(rows);
    NormSplit(es, rows);
    NormsUnique(es, rows);
    if forall i :: 0 <= i < |es| ==> Normalize(Join(es[i].path)).Ok? {
      NamesNormalize(es, rows);
    }
  }

  /** Rows of an opened container differ as strings too. */
  lemma RowsUnique(es: Layout)
    requires PathsOk(es)
    ensures UniqueRows(es)
  {
    hide Normalize, Join;
  }

  lemma NewRows(es: Layout, rows: Layout)
    requires es <= rows && UniqueRows(rows)
    ensures NewPaths(es, rows) == RowPaths(rows) - RowPaths(es)
  {
    assert forall i :: 0 <= i < |es| ==> rows[i] == es[i];
    assert forall i, j :: 0 <= i < |es| <= j < |rows| ==> es[i].path != rows[j].path;
    forall q | q in RowPaths(rows) - RowPaths(es)
      ensures q in NewPaths(es, rows)
    {
      var j :| 0 <= j < |rows| && rows[j].path == q;
      assert forall i :: 0 <= i < |es| ==> es[i].path in RowPaths(es);
    }
  }

  /** A strict name stored as itself is its own normal form. */
  lemma StrictStored(es: Layout, q: Path)
    requires q in RowPaths(es) && IsStrict(q)
    ensures q in NormSet(es)
  {
    var i :| 0 <= i < |es| && es[i].path == q;
    assert StrictNorm(es[i]) == q;
  }

  lemma AddedStrict(dirs: seq<string>, files: seq<Added>)
    ensures forall a :: a in DirSet(dirs) + FileSet(files) ==> IsStrict(a)
  {
    forall a | a in DirSet(dirs) + FileSet(files)
      ensures IsStrict(a)
    {
      hide Normalize, IsStrict;
      var s :| Normalize(s).Ok? && Normalize(s).value == a;
      StrictOf(s);
    }
  }

  lemma OverClosure(files: set<Path>, norms: set<Path>, added: set<Path>, pushed: set<Path>)
    requires (forall a :: a in added ==> a != [] && a in norms + pushed) && pushed <= Closure(added)
    ensures NoFileOver(files, norms + pushed) <==> NoFileOver(files, norms + added)
  {
    if NoFileOver(files, norms + added) {
      forall f, p | f in files && p in norms + pushed
        ensures !(f < p)
      {
        if p in pushed {
          var a, k :| a in added && 0 < k <= |a| && p == a[..k];
          assert a in norms + added && !(f < a);
        } else {
          assert p in norms + added;
        }
      }
    }
    if NoFileOver(files, norms + pushed) {
      forall f, p | f in files && p in norms + added
        ensures !(f < p)
      {
        assert p in norms + pushed;
      }
    }
  }

  lemma AddedPlaced(es: Layout, rows: Layout, added: set<Path>)
    requires es <= rows && UniqueRows(rows) && RowPaths(rows) == RowPaths(es) + Closure(added)
    requires forall a :: a in added ==> IsStrict(a)
    ensures NewPaths(es, rows) == Closure(added) - RowPaths(es)
    ensures forall a :: a in added ==> a != [] && a in NormSet(es) + NewPaths(es, rows)
  {
    NewRows(es, rows);
    hide UniqueRows, RowPaths, NewPaths, NormSet, IsStrict;
    forall a | a in added
      ensures a != [] && a in NormSet(es) + NewPaths(es, rows)
    {
      StrictNonEmpty(a);
      assert a[..|a|] == a;
      assert a in Closure(added);
      if a in RowPaths(es) {
        StrictStored(es, a);
      }
    }
  }

  /** What a caller can check of the names before the call. */
  predicate NamesFit(es: Layout, dirs: set<Path>, files: set<Path>)
  {
    && Closure(dirs + files) * NormSet(es) <= RowPaths(es)
    && NoFileOver(NormFiles(es) + files, NormSet(es) + dirs + files)
  }

  lemma AppendGrown(es: Layout, dirs: seq<string>, files: seq<Added>)
    requires UniqueRows(es) && AppendDirs(es, dirs).Some? && AppendRows(AppendDirs(es, dirs).value, files).Some?
    ensures var rows := AppendRows(AppendDirs(es, dirs).value, files).value;
            Grown(es, rows, DirSet(dirs) + FileSet(files), FileSet(files)) && UniqueRows(rows)
  {
    hide UniqueRows, AppendDirs, AppendRows, DirSet, FileSet, Grown;
    var mid := AppendDirs(es, dirs).value;
    var rows := AppendRows(mid, files).value;
    var ds, fs := DirSet(dirs), FileSet(files);
    DirsGrown(es, dirs);
    GrownUnique(es, mid, ds, {});
    RowsGrown(mid, files);
    GrownTrans(es, mid, rows, ds, {}, fs, fs);
    assert {} + fs == fs;
    GrownUnique(es, rows, ds + fs, fs);
  }

  /** An opened container with directories and files appended is valid exactly when no
      added path, or directory above one, is the name of an old row spelt otherwise, no old
      or added file lies above an old or added path, and the rows are not too many. */
  lemma AppendValid(es: Layout, dirs: seq<string>, files: seq<Added>)
    requires PathsOk(es) && AppendDirs(es, dirs).Some? && AppendRows(AppendDirs(es, dirs).value, files).Some?
    ensures var rows := AppendRows(AppendDirs(es, dirs).value, files).value;
            PathsOk(rows) <==> |rows| <= MAX_MANIFEST_ENTRIES && NamesFit(es, DirSet(dirs), FileSet(files))
  {
    RowsUnique(es);
    hide PathsOk, UniqueRows, RowPaths, AppendDirs, AppendRows, DirSet, FileSet, IsStrict;
    hide Closure, NewPaths, NewFiles, NoFileOver, Extends, NormSet, NormFiles;
    var rows := AppendRows(AppendDirs(es, dirs).value, files).value;
    var ds, fs := DirSet(dirs), FileSet(files);
    AppendGrown(es, dirs, files);
    AddedStrict(dirs, files);
    ExtendsPrefix(es, rows);
    AddedPlaced(es, rows, ds + fs);
    ExtensionOk(es, rows);
    OverClosure(NormFiles(es) + fs, NormSet(es), ds + fs, NewPaths(es, rows));
    assert NormSet(es) + (ds + fs) == NormSet(es) + ds + fs;
  }

  lemma ExtendsPrefix(es: Layout, rows: Layout)
    requires Extends(es, rows)
    ensures es <= rows
  {
  }

  /** The whole edit. `s` is what the second read of the sources gave, all together: another
      length is refused at the write, other bytes at import; otherwise the old container
      with the additions put in is what comes out, importable exactly under the
      conditions of `AppendValid` and the chunk limit. */
  lemma AppendPreserves(es: Layout, dirs: seq<string>, files: seq<Added>, d: seq<byte>, s: seq<byte>, dom: Domain)
    requires PathsOk(es) && Genuine(es, d) && Admissible(dom)
    requires AppendDirs(es, dirs).Some? && AppendRows(AppendDirs(es, dirs).value, files).Some?
    requires |d + s| <= U64_MAX && NumChunks(|d + s|, dom.size) <= U32_MAX + 1
    ensures var rows := AppendRows(AppendDirs(es, dirs).value, files).value;
            var written := WriteData(dom, Total(rows), d + s);
            && (written.Ok? <==> |s| == |Hashed(files)|)
            && (written.Ok? ==>
                  && (Genuine(rows, d + s) <==> s == Hashed(files))
                  && (s == Hashed(files) ==>
                        TreeOf(Items(rows, d + s)) == TreeFiles(TreeDirs(TreeOf(Items(es, d)), dirs), files))
                  && (LayoutOk(rows, dom.size, |written.value|) <==>
                        && |rows| <= MAX_MANIFEST_ENTRIES && NumChunks(|d + s|, dom.size) <= U32_MAX
                        && NamesFit(es, DirSet(dirs), FileSet(files))))
  {
    var mid := AppendDirs(es, dirs).value;
    var rows := AppendRows(mid, files).value;
    DirsGenuine(es, dirs, d);
    AppendValid(es, dirs, files);
    DirsTree(es, dirs, d);
    RowsTree(mid, files, d);
    RowsGenuine(mid, files, d, Hashed(files));
    WriteIff(dom, Total(rows), d + s);
    hide PathsOk, NamesFit, AppendDirs, AppendRows, DirSet, FileSet, Contiguous, Total, Items,
         TreeOf, TreeFiles, TreeDirs, NumChunks, Genuine, Hashed, WriteData, SizesOk;
    if |s| == |Hashed(files)| {
      RowsGenuine(mid, files, d, s);
    }
  }

  /** Adding one file at a path that is not stored as such: the edit reports success. */
  lemma AppendOne(es: Layout, p: Path, file: Added, d: seq<byte>, dom: Domain)
    requires PathsOk(es) && Genuine(es, d) && Admissible(dom) && Normalize(file.path) == Ok(p) && p !in RowPaths(es)
    requires |d + file.hashed| <= U64_MAX && NumChunks(|d + file.hashed|, dom.size) <= U32_MAX + 1
    ensures var all := AppendRows(es, [file]);
            && all.Some? && WriteData(dom, Total(all.value), d + file.hashed).Ok?
            && (PathsOk(all.value) ==> NamesFit(es, {}, {p}))
  {
    assert [file][..0] == [] && AppendDirs(es, []) == Some(es);
    assert AppendRows(es, []) == Some(es) && AppendRows(es, [file]).Some?;
    AppendValid(es, [], [file]);
    FileSetSnoc([file]);
    assert FileSet([]) == {} && DirSet([]) == {};
    assert Hashed([file]) == [] + file.hashed == file.hashed;
    RowsGenuine(es, [file], d, file.hashed);
    WriteIff(dom, Total(AppendRows(es, [file]).value), d + file.hashed);
    hide PathsOk, NamesFit, AppendDirs, AppendRows, DirSet, FileSet, Contiguous, Total, NumChunks, Genuine, Hashed,
         WriteData, SizesOk, Normalize;
    assert {} + {p} == {p};
  }

  /** A stored file above the new one: the edit reports success, yet no reader accepts the result. */
  lemma AppendUnderFile(es: Layout, f: Path, p: Path, file: Added, d: seq<byte>, dom: Domain)
    requires PathsOk(es) && Genuine(es, d) && Admissible(dom) && Normalize(file.path) == Ok(p) && p !in RowPaths(es)
    requires |d + file.hashed| <= U64_MAX && NumChunks(|d + file.hashed|, dom.size) <= U32_MAX + 1
    requires f in NormFiles(es) && f < p
    ensures var all := AppendRows(es, [file]);
            && all.Some? && WriteData(dom, Total(all.value), d + file.hashed).Ok?
            && forall chunk, len :: !LayoutOk(all.value, chunk, len)
  {
    AppendOne(es, p, file, d, dom);
    hide PathsOk, AppendRows, Contiguous, Total, NumChunks, Genuine, WriteData, SizesOk, Normalize;
    assert p in NormSet(es) + {} + {p} && f in NormFiles(es) + {p};
  }

  /** The same path stored under another spelling: success, and again no reader. */
  lemma AppendOtherSpelling(es: Layout, p: Path, file: Added, d: seq<byte>, dom: Domain)
    requires PathsOk(es) && Genuine(es, d) && Admissible(dom) && Normalize(file.path) == Ok(p) && p !in RowPaths(es)
    requires |d + file.hashed| <= U64_MAX && NumChunks(|d + file.hashed|, dom.size) <= U32_MAX + 1
    requires p in NormSet(es)
    ensures var all := AppendRows(es, [file]);
            && all.Some? && WriteData(dom, Total(all.value), d + file.hashed).Ok?
            && forall chunk, len :: !LayoutOk(all.value, chunk, len)
  {
    AppendOne(es, p, file, d, dom);
    StrictOf(file.path);
    StrictNonEmpty(p);
    hide PathsOk, AppendRows, Contiguous, Total, NumChunks, Genuine, WriteData, SizesOk, Normalize, IsStrict, RowPaths;
    assert p in {} + {p} && p[..|p|] == p;
    assert p in Closure({} + {p});
  }

  lemma DotSpelling(p: Path)
    requires IsStrict(p) && ByteLen(Join(p)) + 2 <= MAX_PATH_LEN
    ensures Normalize(Join(["."] + p)) == Ok(p)
  {
    var s := Join(p);
    DotPrefix(p, s);
    hide SpoofingChar, Portable, Join, Unify, Split, ByteLen;
    assert Kept(["."] + Split(Unify(s))) == Kept(Split(Unify(s)));
  }

  lemma DotPrefix(p: Path, s: string)
    requires p != [] && s == Join(p)
    ensures Join(["."] + p) == "./" + s && ByteLen("./" + s) == 2 + ByteLen(s)
    ensures Unify("./" + s) == "." + "/" + Unify(s) && Split(Unify("./" + s)) == ["."] + Split(Unify(s))
  {
    assert Join(["."]) == ".";
    JoinConcat(["."], p);
    ByteLenConcat("./", s);
    assert Unify("./" + s) == "." + "/" + Unify(s);
    hide Join, Unify, ByteLen;
    SplitConcat(".", Unify(s));
    assert "."[1..] == "" && ['.'] + "" == "." && Split("") == [""] && Split(".") == ["."];
  }

  /** There are such containers: one file, named with a leading dot. */
  lemma DottedFile(p: Path, content: seq<byte>, attr: Attr)
    requires IsStrict(p) && ByteLen(Join(p)) + 2 <= MAX_PATH_LEN
    ensures var es := [NewRow(["."] + p, content, attr, 0)];
            PathsOk(es) && Genuine(es, content) && p in NormSet(es) && p !in RowPaths(es)
  {
    hide Normalize, Join, IsStrict, ByteLen;
    DotSpelling(p);
    var row := NewRow(["."] + p, content, attr, 0);
    var es := [row];
    assert StrictNorm(es[0]) == p;
    assert es[0].path == ["."] + p && |es[0].path| == |p| + 1;
    assert es == [] + [row] && [] + content == content;
    assert Genuine([], []) && Total([]) == 0;
    hide Genuine, Total, Contiguous;
    GenuineSnoc([], row, [], content);
  }
}
