/** The entry vector of a v2 manifest, its path index, and how each edit of the
    vector is an operation on the tree. */
module Manifest {
  import opened Base
  import opened Paths
  import opened RandomAccess
  import opened VaultTree

  datatype Kind = File | Dir
  datatype BlobRef = BlobRef(id: string, key: nat, nonce: seq<byte>, chunkSize: nat)
  datatype Entry = Entry(path: Path, kind: Kind, size: nat, attr: Attr, digest: Digest, blob: Option<BlobRef>)

  type Entries = seq<Entry>

  function DirEntry(p: Path): Entry { Entry(p, Dir, 0, NO_ATTR, ZeroDigest, None) }

  function NodeOf(e: Entry): Node
  {
    if e.kind.Dir? then DirNode(e.attr)
    else FileNode(if e.digest.Digest? then e.digest.of else [], e.attr)
  }

  /** The tree a vector of entries denotes. */
  function View(es: Entries): Tree
  {
    if es == [] then map[]
    else View(es[..|es| - 1])[es[|es| - 1].path := NodeOf(es[|es| - 1])]
  }

  /** `index_entries`: each path to its (last) position. */
  function Index(es: Entries): (m: map<Path, nat>)
    ensures forall p :: p in m ==> m[p] < |es| && es[m[p]].path == p
  {
    if es == [] then map[]
    else Index(es[..|es| - 1])[es[|es| - 1].path := |es| - 1]
  }

  lemma Snoc(es: Entries, e: Entry)
    ensures View(es + [e]) == View(es)[e.path := NodeOf(e)]
    ensures Index(es + [e]) == Index(es)[e.path := |es|]
  {
    assert (es + [e])[..|es|] == es;
  }

  /** The index answers exactly what the tree says. */
  lemma {:induction false} IndexView(es: Entries)
    ensures Index(es).Keys == View(es).Keys
    ensures forall p :: p in Index(es) ==> NodeOf(es[Index(es)[p]]) == View(es)[p]
    ensures forall i :: 0 <= i < |es| ==> es[i].path in View(es)
  {
    if es != [] {
      var r, e := es[..|es| - 1], es[|es| - 1];
      assert es == r + [e];
      Snoc(r, e);
      IndexView(r);
      hide NodeOf, View, Index;
      forall p | p in Index(es)
        ensures NodeOf(es[Index(es)[p]]) == View(es)[p]
      {
        if p != e.path {
          assert es[Index(r)[p]] == r[Index(r)[p]];
        }
      }
    }
  }

  predicate Unique(es: Entries)
  {
    forall i, j :: 0 <= i < j < |es| ==> es[i].path != es[j].path
  }

  /** With unique paths the index is a linear search. */
  lemma IndexIsLinearSearch(es: Entries, p: Path)
    requires Unique(es)
    ensures p in Index(es) <==> exists i :: 0 <= i < |es| && es[i].path == p
    ensures forall i :: 0 <= i < |es| && es[i].path == p ==> p in Index(es) && Index(es)[p] == i
  {
    hide View;
    IndexView(es);
  }

  /** `es` lists the nodes of `t`, each once. */
  ghost predicate Denotes(es: Entries, t: Tree)
  {
    && Unique(es)
    && (forall e :: e in es ==> e.path in t && t[e.path] == NodeOf(e))
    && (forall p :: p in t ==> exists e :: e in es && e.path == p)
  }

  lemma ViewDenotes(es: Entries)
    requires Unique(es)
    ensures Denotes(es, View(es))
  {
    hide View, Index;
    IndexView(es);
    forall e | e in es
      ensures e.path in View(es) && View(es)[e.path] == NodeOf(e)
    {
      var i :| 0 <= i < |es| && es[i] == e;
      IndexIsLinearSearch(es, e.path);
    }
    forall p | p in View(es)
      ensures exists e :: e in es && e.path == p
    {
      assert es[Index(es)[p]] in es;
    }
  }

  lemma ViewIs(es: Entries, t: Tree)
    requires Denotes(es, t)
    ensures View(es) == t
  {
    hide View;
    ViewDenotes(es);
    assert View(es).Keys == t.Keys;
  }

  predicate EntryShape(e: Entry)
  {
    LegalPath(e.path) &&
    if e.kind.Dir? then e.blob.None? else e.blob.Some? && e.digest.Digest? && e.size == |e.digest.of|
  }

  predicate Shape(es: Entries) { forall i :: 0 <= i < |es| ==> EntryShape(es[i]) }

  predicate DistinctBlobs(es: Entries)
  {
    forall i, j :: 0 <= i < j < |es| && es[i].blob.Some? && es[j].blob.Some? ==>
        es[i].blob.value.id != es[j].blob.value.id
  }

  function Ids(es: Entries): set<string>
  {
    set i | 0 <= i < |es| && es[i].blob.Some? :: es[i].blob.value.id
  }

  /** The tree invariant: unique paths, every ancestor a directory, no file an
      ancestor of another entry, live blob ids distinct. */
  ghost predicate TreeInv(es: Entries)
  {
    Unique(es) && Shape(es) && DistinctBlobs(es) && Closed(View(es))
  }

  lemma IdsSnoc(es: Entries, e: Entry)
    ensures Ids(es + [e]) == Ids(es) + (if e.blob.Some? then {e.blob.value.id} else {})
  {
    var fs := es + [e];
    forall x | x in Ids(es)
      ensures x in Ids(fs)
    {
      var i :| 0 <= i < |es| && es[i].blob.Some? && es[i].blob.value.id == x;
      assert fs[i] == es[i];
    }
    if e.blob.Some? {
      assert fs[|es|] == e;
    }
  }

  /** Appending an entry at a new path whose ancestors are directories. */
  lemma AppendKeeps(es: Entries, e: Entry)
    requires TreeInv(es) && EntryShape(e) && e.path !in View(es)
    requires forall k :: 0 < k < |e.path| ==> IsDir(View(es), e.path[..k])
    requires e.blob.Some? ==> e.blob.value.id !in Ids(es)
    ensures TreeInv(es + [e]) && View(es + [e]) == View(es)[e.path := NodeOf(e)]
    ensures Ids(es + [e]) == Ids(es) + (if e.blob.Some? then {e.blob.value.id} else {})
  {
    Snoc(es, e);
    IdsSnoc(es, e);
    InsertClosed(View(es), e.path, NodeOf(e));
    hide View, Index, Closed, EntryShape, Ids;
    IndexView(es);
    forall f | f in es
      ensures f.path != e.path && (f.blob.Some? ==> f.blob.value.id in Ids(es))
    {
      IdsMembers(es, if f.blob.Some? then f.blob.value.id else "");
    }
    SnocPairs(es, e);
  }

  lemma SnocPairs(es: Entries, e: Entry)
    requires Unique(es) && DistinctBlobs(es)
    requires forall f :: f in es ==> f.path != e.path
    requires forall f :: f in es && f.blob.Some? && e.blob.Some? ==> f.blob.value.id != e.blob.value.id
    ensures Unique(es + [e]) && DistinctBlobs(es + [e])
  {
  }

  // ----- ensure_dirs -----

  /** Push the missing ancestors of `p`, from the one of `k` components on. */
  function EnsureDirs(es: Entries, p: Path, k: nat): (Entries, bool)
    decreases |p| - k
  {
    if k >= |p| then (es, true)
    else if p[..k] in Index(es) then
      if es[Index(es)[p[..k]]].kind.Dir? then EnsureDirs(es, p, k + 1) else (es, false)
    else EnsureDirs(es + [DirEntry(p[..k])], p, k + 1)
  }

  lemma KindAt(es: Entries, p: Path)
    requires p in Index(es)
    ensures p in View(es) && es[Index(es)[p]].kind.Dir? == IsDir(View(es), p)
  {
    IndexView(es);
  }

  lemma LegalPrefix(p: Path, k: nat)
    requires LegalPath(p) && 0 < k <= |p|
    ensures LegalPath(p[..k])
  {
  }

  /** All or nothing: in a closed tree a blocking file is met before anything is
      pushed; otherwise exactly the missing ancestors are added. */
  lemma {:induction false} EnsureDirsRefines(es: Entries, p: Path, k: nat)
    requires TreeInv(es) && LegalPath(p) && 0 < k
    requires forall j :: 0 < j < k && j < |p| ==> IsDir(View(es), p[..j])
    ensures var (fs, ok) := EnsureDirs(es, p, k);
            && ok == !Blocked(View(es), p)
            && (!ok ==> fs == es)
            && (ok ==> TreeInv(fs) && View(fs) == AddDirs(View(es), p) && Ids(fs) == Ids(es))
    decreases |p| - k
  {
    hide TreeInv, View, Index, AddDirs;
    var t := View(es);
    if k >= |p| {
      NothingMissing(t, p);
    } else {
      var a := p[..k];
      IndexView(es);
      if a in Index(es) {
        KindAt(es, a);
        if IsDir(t, a) {
          EnsureDirsRefines(es, p, k + 1);
        } else {
          assert IsFile(t, p[..k]);
        }
      } else {
        MissingDir(es, p, k);
        EnsureDirsRefines(es + [DirEntry(a)], p, k + 1);
      }
    }
  }

  lemma NothingMissing(t: Tree, p: Path)
    requires forall j :: 0 < j < |p| ==> IsDir(t, p[..j])
    ensures AddDirs(t, p) == t && !Blocked(t, p)
  {
    assert forall q :: q in Ancestors(p) ==> q in t;
  }

  lemma TreeMissing(t: Tree, p: Path, k: nat)
    requires Closed(t) && 0 < k < |p| && p[..k] !in t
    requires forall j :: 0 < j < k ==> IsDir(t, p[..j])
    ensures !Blocked(t, p)
    ensures var u := t[p[..k] := DirNode(NO_ATTR)];
            !Blocked(u, p) && AddDirs(u, p) == AddDirs(t, p) && forall j :: 0 < j < k + 1 ==> IsDir(u, p[..j])
  {
    var a := p[..k];
    forall j | 0 < j < |p|
      ensures !IsFile(t, p[..j])
    {
      if j > k && p[..j] in t {
        assert Under(a, p[..j]);
        AbsentMeansEmpty(t, a, p[..j]);
      }
    }
    assert a in Ancestors(p);
  }

  lemma MissingDir(es: Entries, p: Path, k: nat)
    requires TreeInv(es) && LegalPath(p) && 0 < k < |p| && p[..k] !in View(es)
    requires forall j :: 0 < j < k ==> IsDir(View(es), p[..j])
    ensures !Blocked(View(es), p)
    ensures var fs := es + [DirEntry(p[..k])];
            && TreeInv(fs) && Ids(fs) == Ids(es) && !Blocked(View(fs), p)
            && AddDirs(View(fs), p) == AddDirs(View(es), p)
            && forall j :: 0 < j < k + 1 ==> IsDir(View(fs), p[..j])
  {
    var t, a := View(es), p[..k];
    LegalPrefix(p, k);
    assert Closed(t);
    TreeMissing(t, p, k);
    hide TreeInv, View, Closed, AddDirs, Blocked, Ids, LegalPath;
    forall j | 0 < j < k
      ensures IsDir(t, a[..j])
    {
      assert a[..j] == p[..j];
    }
    DirShape(a);
    AppendKeeps(es, DirEntry(a));
  }

  lemma DirShape(p: Path)
    requires LegalPath(p)
    ensures EntryShape(DirEntry(p))
  {
  }

  // ----- remove -----

  function RemoveEntries(es: Entries, p: Path): Entries
  {
    if es == [] then []
    else
      var e := es[|es| - 1];
      RemoveEntries(es[..|es| - 1], p) + (if Under(p, e.path) then [] else [e])
  }

  function RemovedIds(es: Entries, p: Path): seq<string>
  {
    if es == [] then []
    else
      var e := es[|es| - 1];
      RemovedIds(es[..|es| - 1], p) + (if Under(p, e.path) && e.blob.Some? then [e.blob.value.id] else [])
  }

  lemma {:induction false} RemoveMembers(es: Entries, p: Path)
    ensures forall e :: e in RemoveEntries(es, p) <==> e in es && !Under(p, e.path)
    ensures forall x :: x in RemovedIds(es, p) <==>
            exists e :: e in es && Under(p, e.path) && e.blob.Some? && e.blob.value.id == x
  {
    if es != [] {
      var r, e := es[..|es| - 1], es[|es| - 1];
      RemoveMembers(r, p);
      assert es == r + [e];
    }
  }

  /** Dropping entries keeps what is required of every pair of them. */
  lemma {:induction false} RemoveVector(es: Entries, p: Path)
    requires Unique(es) && DistinctBlobs(es)
    ensures Unique(RemoveEntries(es, p)) && DistinctBlobs(RemoveEntries(es, p))
  {
    hide Unique, DistinctBlobs;
    if es != [] {
      var r, e := es[..|es| - 1], es[|es| - 1];
      var fr := RemoveEntries(r, p);
      LastApart(es);
      RemoveVector(r, p);
      RemoveMembers(r, p);
      assert fr + [] == fr;
      SnocPairs(fr, e);
    } else {
      NoPairs();
    }
  }

  lemma NoPairs()
    ensures Unique([]) && DistinctBlobs([])
  {
  }

  lemma LastApart(es: Entries)
    requires es != [] && Unique(es) && DistinctBlobs(es)
    ensures var r, e := es[..|es| - 1], es[|es| - 1];
            && Unique(r) && DistinctBlobs(r)
            && (forall f :: f in r ==> f.path != e.path)
            && (forall f :: f in r && f.blob.Some? && e.blob.Some? ==> f.blob.value.id != e.blob.value.id)
  {
  }

  lemma {:induction false} RemoveNothing(es: Entries, p: Path)
    ensures |RemoveEntries(es, p)| <= |es|
    ensures |RemoveEntries(es, p)| == |es| ==> RemoveEntries(es, p) == es && RemovedIds(es, p) == []
  {
    if es != [] {
      RemoveNothing(es[..|es| - 1], p);
      assert es == es[..|es| - 1] + [es[|es| - 1]];
    }
  }

  /** Removing a subtree of the vector is removing it from the tree, and what is no
      longer referenced is exactly what is reported. */
  lemma RemoveRefines(es: Entries, p: Path)
    requires TreeInv(es)
    ensures var fs := RemoveEntries(es, p);
            TreeInv(fs) && View(fs) == TreeRemove(View(es), p)
    ensures Ids(RemoveEntries(es, p)) == Ids(es) - (set x | x in RemovedIds(es, p))
  {
    hide View, RemoveEntries, RemovedIds;
    var fs := RemoveEntries(es, p);
    RemoveVector(es, p);
    RemoveClosed(View(es), p);
    RemoveMembers(es, p);
    ViewDenotes(es);
    assert forall i :: 0 <= i < |fs| ==> fs[i] in es;
    ViewIs(fs, TreeRemove(View(es), p));
    forall x
      ensures x in Ids(fs) <==> x in Ids(es) && x !in RemovedIds(es, p)
    {
      IdsMembers(es, x);
      IdsMembers(fs, x);
      if x in RemovedIds(es, p) {
        var e :| e in es && Under(p, e.path) && e.blob.Some? && e.blob.value.id == x;
        forall f | f in fs && f.blob.Some?
          ensures f.blob.value.id != x
        {
          if f.blob.value.id == x {
            SameBlobSameEntry(es, e, f);
          }
        }
      }
    }
  }

  lemma IdsMembers(es: Entries, x: string)
    ensures x in Ids(es) <==> exists e :: e in es && e.blob.Some? && e.blob.value.id == x
  {
  }

  lemma SameBlobSameEntry(es: Entries, e: Entry, f: Entry)
    requires DistinctBlobs(es) && e in es && f in es
    requires e.blob.Some? && f.blob.Some? && e.blob.value.id == f.blob.value.id
    ensures e == f
  {
  }

  // ----- rename -----

  function RenameEntries(es: Entries, from: Path, to: Path): (fs: Entries)
    ensures |fs| == |es|
    ensures forall i :: 0 <= i < |es| ==> fs[i] == es[i].(path := Moved(from, to, es[i].path))
  {
    seq(|es|, i requires 0 <= i < |es| => es[i].(path := Moved(from, to, es[i].path)))
  }

  lemma RenameNoCollision(t: Tree, from: Path, to: Path, q: Path, r: Path)
    requires Closed(t) && from != [] && to != [] && from != to && TreeRename(t, from, to).Some?
    requires q in AddDirs(t, to) && r in AddDirs(t, to) && Moved(from, to, q) == Moved(from, to, r)
    ensures q == r
  {
    var t1 := AddDirs(t, to);
    AddDirsClosed(t, to);
    AncestorNotSelf(t, to);
    if Under(from, q) && Under(from, r) {
      MovedInjective(from, to, q, r);
    } else if Under(from, q) {
      AbsentMeansEmpty(t1, to, r);
    } else if Under(from, r) {
      AbsentMeansEmpty(t1, to, q);
    }
  }

  /** Rewriting the paths of a subtree is renaming it in the tree: no two entries
      collide, blobs stay where they are. `es` already holds the ancestors of `to`. */
  lemma RenameRefines(t: Tree, es: Entries, from: Path, to: Path)
    requires Closed(t) && TreeInv(es) && View(es) == AddDirs(t, to)
    requires LegalPath(from) && LegalPath(to) && from != to && TreeRename(t, from, to).Some?
    ensures var fs := RenameEntries(es, from, to);
            TreeInv(fs) && View(fs) == TreeRename(t, from, to).value && Ids(fs) == Ids(es)
  {
    hide View, TreeRename, AddDirs, EntryShape;
    var fs := RenameEntries(es, from, to);
    ViewDenotes(es);
    forall i, j | 0 <= i < j < |fs|
      ensures fs[i].path != fs[j].path
    {
      assert es[i] in es && es[j] in es;
      if fs[i].path == fs[j].path {
        RenameNoCollision(t, from, to, es[i].path, es[j].path);
      }
    }
    MovedShape(es, from, to);
    RenameView(t, es, from, to);
    RenameClosed(t, from, to);
  }

  lemma MovedShape(es: Entries, from: Path, to: Path)
    requires Shape(es) && DistinctBlobs(es) && LegalPath(to)
    ensures Shape(RenameEntries(es, from, to)) && DistinctBlobs(RenameEntries(es, from, to))
    ensures Ids(RenameEntries(es, from, to)) == Ids(es)
  {
    var fs := RenameEntries(es, from, to);
    forall i | 0 <= i < |es|
      ensures EntryShape(fs[i])
    {
      assert EntryShape(es[i]);
    }
    assert forall i :: 0 <= i < |fs| ==> fs[i].blob == es[i].blob;
    forall x
      ensures x in Ids(fs) <==> x in Ids(es)
    {
    }
  }

  lemma RenameView(t: Tree, es: Entries, from: Path, to: Path)
    requires Closed(t) && Unique(es) && View(es) == AddDirs(t, to) && Unique(RenameEntries(es, from, to))
    requires from != [] && to != [] && from != to && TreeRename(t, from, to).Some?
    ensures View(RenameEntries(es, from, to)) == TreeRename(t, from, to).value
  {
    hide TreeRename, AddDirs, View, RenameEntries, NodeOf, Moved;
    var fs, r := RenameEntries(es, from, to), TreeRename(t, from, to).value;
    ViewDenotes(es);
    forall f | f in fs
      ensures f.path in r && r[f.path] == NodeOf(f)
    {
      var i :| 0 <= i < |fs| && fs[i] == f;
      assert es[i] in es;
      RenamePoints(t, from, to, es[i].path);
      SameNode(es[i], f.path);
    }
    forall p | p in r
      ensures exists f :: f in fs && f.path == p
    {
      var q := RenameDomain(t, from, to, p);
      RenameCovers(es, from, to, q);
    }
    ViewIs(fs, r);
  }

  lemma SameNode(e: Entry, p: Path)
    ensures NodeOf(e.(path := p)) == NodeOf(e)
  {
  }

  lemma RenameCovers(es: Entries, from: Path, to: Path, q: Path)
    requires exists e :: e in es && e.path == q
    ensures exists f :: f in RenameEntries(es, from, to) && f.path == Moved(from, to, q)
  {
    var e :| e in es && e.path == q;
    var i :| 0 <= i < |es| && es[i] == e;
    assert RenameEntries(es, from, to)[i] in RenameEntries(es, from, to);
  }

  // ----- put, set_attr -----

  /** Replacing one entry in place, at its path. */
  lemma ReplaceRefines(es: Entries, i: nat, e: Entry)
    requires Unique(es) && i < |es| && e.path == es[i].path
    ensures View(es[i := e]) == View(es)[e.path := NodeOf(e)] && Unique(es[i := e])
  {
    hide View, NodeOf;
    var fs, want := es[i := e], View(es)[e.path := NodeOf(e)];
    ViewDenotes(es);
    forall f | f in fs
      ensures f.path in want && want[f.path] == NodeOf(f)
    {
      var j :| 0 <= j < |fs| && fs[j] == f;
      if j != i {
        assert es[j] in es;
      }
    }
    forall p | p in want
      ensures exists f :: f in fs && f.path == p
    {
      if p == e.path {
        assert fs[i] in fs;
      } else {
        var f :| f in es && f.path == p;
        var j :| 0 <= j < |es| && es[j] == f;
        assert fs[j] in fs;
      }
    }
    ViewIs(fs, want);
  }
}
