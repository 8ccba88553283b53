/** The tree a vault presents, and the entry vector of its manifest. */
module VaultTree {
  import opened Base
  import opened Paths
  import opened RandomAccess

  // ----- the simple model: a map from paths to nodes -----

  datatype Attr = Attr(mtime: Option<int>, mode: Option<nat>)
  const NO_ATTR: Attr := Attr(None, None)

  datatype Node =
    | FileNode(content: seq<byte>, attr: Attr)
    | DirNode(attr: Attr)

  type Tree = map<Path, Node>

  predicate IsDir(t: Tree, p: Path) { p in t && t[p].DirNode? }
  predicate IsFile(t: Tree, p: Path) { p in t && t[p].FileNode? }

  function Ancestors(p: Path): set<Path>
  {
    set k | 0 < k < |p| :: p[..k]
  }

  /** A file stands where a directory would be needed. */
  predicate Blocked(t: Tree, p: Path) { exists k :: 0 < k < |p| && IsFile(t, p[..k]) }

  /** Every proper ancestor of every entry is present as a directory. */
  ghost predicate Closed(t: Tree)
  {
    forall p, k :: p in t && 0 < k < |p| ==> IsDir(t, p[..k])
  }

  function AddDirs(t: Tree, p: Path): Tree
  {
    t + map q | q in Ancestors(p) && q !in t :: DirNode(NO_ATTR)
  }

  function TreePut(t: Tree, p: Path, content: seq<byte>, attr: Attr): Option<Tree>
  {
    if IsDir(t, p) then None
    else if p in t then Some(t[p := FileNode(content, attr)])
    else if Blocked(t, p) then None
    else Some(AddDirs(t, p)[p := FileNode(content, attr)])
  }

  function TreeMkdir(t: Tree, p: Path): Option<Tree>
  {
    if IsDir(t, p) then Some(t)
    else if p in t then None
    else if Blocked(t, p) then None
    else Some(AddDirs(t, p)[p := DirNode(NO_ATTR)])
  }

  function TreeRemove(t: Tree, p: Path): Tree
  {
    map q | q in t && !Under(p, q) :: t[q]
  }

  /** Where `q` goes when `from` moves to `to`. */
  function Moved(from: Path, to: Path, q: Path): Path
  {
    if Under(from, q) then to + q[|from|..] else q
  }

  function TreeRename(t: Tree, from: Path, to: Path): Option<Tree>
  {
    if from == to then Some(t)
    else if Under(from, to) || from !in t || to in t || Blocked(t, to) then None
    else
      var t1 := AddDirs(t, to);
      Some(TreeRemove(t1, from) + MovedPart(t1, from, to))
  }

  /** The nodes at and beneath `from`, under their new paths. */
  function MovedPart(t: Tree, from: Path, to: Path): (m: Tree)
    ensures forall q :: q in t && Under(from, q) ==> Moved(from, to, q) in m && m[Moved(from, to, q)] == t[q]
    ensures forall p :: p in m ==> exists q :: q in t && Under(from, q) && Moved(from, to, q) == p
  {
    MovedInjectiveAll(from, to);
    map q | q in t && Under(from, q) :: Moved(from, to, q) := t[q]
  }

  lemma MovedInjectiveAll(from: Path, to: Path)
    ensures forall q, r :: Under(from, q) && Under(from, r) && Moved(from, to, q) == Moved(from, to, r) ==> q == r
  {
    forall q, r | Under(from, q) && Under(from, r) && Moved(from, to, q) == Moved(from, to, r)
      ensures q == r
    {
      MovedInjective(from, to, q, r);
    }
  }

  function TreeSetAttr(t: Tree, p: Path, attr: Attr): Option<Tree>
  {
    if p !in t then None else Some(t[p := t[p].(attr := attr)])
  }

  // ----- the tree operations keep the tree closed -----

  lemma AddDirsClosed(t: Tree, p: Path)
    requires Closed(t) && !Blocked(t, p)
    ensures Closed(AddDirs(t, p))
    ensures forall k :: 0 < k < |p| ==> IsDir(AddDirs(t, p), p[..k])
  {
    var u := AddDirs(t, p);
    forall k | 0 < k < |p|
      ensures IsDir(u, p[..k])
    {
      assert p[..k] in Ancestors(p);
    }
    forall q, k | q in u && 0 < k < |q|
      ensures IsDir(u, q[..k])
    {
      if q !in t {
        var j :| 0 < j < |p| && q == p[..j];
        assert q[..k] == p[..k];
      }
    }
  }

  lemma InsertClosed(t: Tree, p: Path, n: Node)
    requires Closed(t) && (forall k :: 0 < k < |p| ==> IsDir(t, p[..k])) && (p in t && t[p].DirNode? ==> n.DirNode?)
    ensures Closed(t[p := n])
  {
    forall q, k | q in t[p := n] && 0 < k < |q|
      ensures IsDir(t[p := n], q[..k])
    {
      assert q != p ==> q in t;
    }
  }

  lemma RemoveClosed(t: Tree, p: Path)
    requires Closed(t)
    ensures Closed(TreeRemove(t, p))
  {
    forall q, k | q in TreeRemove(t, p) && 0 < k < |q|
      ensures IsDir(TreeRemove(t, p), q[..k])
    {
      assert IsDir(t, q[..k]);
    }
  }

  /** In a closed tree, nothing lies beneath an absent path. */
  lemma AbsentMeansEmpty(t: Tree, p: Path, q: Path)
    requires Closed(t) && p != [] && p !in t && q in t
    ensures !Under(p, q)
  {
    if |p| <= |q| {
      assert Under(p, q) ==> p == q[..|p|];
      assert |p| == |q| ==> q[..|p|] == q;
      assert |p| < |q| ==> IsDir(t, q[..|p|]);
    }
  }

  lemma MovedInjective(from: Path, to: Path, q: Path, r: Path)
    requires Under(from, q) && Under(from, r) && Moved(from, to, q) == Moved(from, to, r)
    ensures q == r
  {
    var a, b := q[|from|..], r[|from|..];
    assert (to + a)[|to|..] == a && (to + b)[|to|..] == b;
    assert q == from + a && r == from + b;
  }

  /** What a rename gives: exactly the moved nodes, and no collision. */
  lemma RenamePoints(t: Tree, from: Path, to: Path, q: Path)
    requires Closed(t) && from != [] && to != [] && from != to && TreeRename(t, from, to).Some?
    requires q in AddDirs(t, to)
    ensures var r := TreeRename(t, from, to).value;
            Moved(from, to, q) in r && r[Moved(from, to, q)] == AddDirs(t, to)[q]
  {
    var t1 := AddDirs(t, to);
    if !Under(from, q) {
      AddDirsClosed(t, to);
      AncestorNotSelf(t, to);
      AbsentMeansEmpty(t1, to, q);
      NotMovedThere(t1, from, to, q);
    }
  }

  lemma NotMovedThere(t: Tree, from: Path, to: Path, q: Path)
    requires !Under(to, q)
    ensures q !in MovedPart(t, from, to)
  {
  }

  lemma AncestorNotSelf(t: Tree, p: Path)
    requires p !in t
    ensures p !in AddDirs(t, p)
  {
    assert forall k :: 0 < k < |p| ==> |p[..k]| < |p|;
  }

  lemma RenameDomain(t: Tree, from: Path, to: Path, p: Path) returns (q: Path)
    requires from != to && TreeRename(t, from, to).Some? && p in TreeRename(t, from, to).value
    ensures q in AddDirs(t, to) && Moved(from, to, q) == p
  {
    var t1 := AddDirs(t, to);
    if p in t1 && !Under(from, p) {
      q := p;
    } else {
      assert p in MovedPart(t1, from, to);
      q :| q in t1 && Under(from, q) && Moved(from, to, q) == p;
    }
  }

  lemma RenameClosed(t: Tree, from: Path, to: Path)
    requires Closed(t) && from != [] && to != [] && TreeRename(t, from, to).Some?
    ensures Closed(TreeRename(t, from, to).value)
  {
    if from != to {
      var r, t1 := TreeRename(t, from, to).value, AddDirs(t, to);
      AddDirsClosed(t, to);
      forall p, k | p in r && 0 < k < |p|
        ensures IsDir(r, p[..k])
      {
        var q := RenameDomain(t, from, to, p);
        RenameAncestor(t, from, to, q, k);
      }
    }
  }

  lemma RenameAncestor(t: Tree, from: Path, to: Path, q: Path, k: nat)
    requires Closed(t) && from != [] && to != [] && from != to && TreeRename(t, from, to).Some?
    requires q in AddDirs(t, to) && 0 < k < |Moved(from, to, q)|
    ensures IsDir(TreeRename(t, from, to).value, Moved(from, to, q)[..k])
  {
    var t1, p := AddDirs(t, to), Moved(from, to, q);
    AddDirsClosed(t, to);
    assert !Under(from, to);
    hide AddDirs, TreeRename;
    var a;  // the node that becomes the ancestor
    if !Under(from, q) {
      a := q[..k];
      assert Moved(from, to, a) == a;
    } else if k < |to| {
      a := to[..k];
      assert p[..k] == a;
      assert !Under(from, a);
    } else {
      a := MovedPrefix(from, to, q, k);
      if k == |to| {
        MovedSourceDir(t, from, to, q);
      }
    }
    RenamePoints(t, from, to, a);
  }

  lemma MovedPrefix(from: Path, to: Path, q: Path, k: nat) returns (a: Path)
    requires Under(from, q) && |to| <= k < |Moved(from, to, q)|
    ensures |a| < |q| && a == q[..|a|] && Under(from, a) && Moved(from, to, a) == Moved(from, to, q)[..k]
    ensures k == |to| ==> a == from
  {
    a := q[..|from| + (k - |to|)];
    assert a[|from|..] == q[|from|..][..k - |to|];
  }

  lemma MovedSourceDir(t: Tree, from: Path, to: Path, q: Path)
    requires Closed(t) && !Blocked(t, to) && from != [] && q in AddDirs(t, to) && Under(from, q) && |from| < |q|
    ensures IsDir(AddDirs(t, to), from)
  {
    AddDirsClosed(t, to);
    assert q[..|from|] == from;
  }
}
