/** Which accepted edits leave a manifest that opens again. */
module Limits {
  import opened Base
  import opened Aead
  import opened Stream
  import opened Paths
  import opened RandomAccess
  import opened VaultTree
  import opened Manifest
  import opened Batch
  import opened Validation

  predicate PathFits(p: Path) { |p| <= MAX_PATH_DEPTH && ByteLen(Join(p)) <= MAX_PATH_LEN }

  /** The ancestors of `p` from `k` components on that are missing, by depth. */
  function Missing(es: Entries, p: Path, k: nat): set<nat> { set j | k <= j < |p| && p[..j] !in Index(es) }

  function SizeOf(e: Entry): nat { if e.kind.File? then e.size else 0 }
  function SizeAt(es: Entries, p: Path): nat { if p in Index(es) then SizeOf(es[Index(es)[p]]) else 0 }

  predicate Room(es: Entries, p: Path) { p in Index(es) || |es| + |Missing(es, p, 1)| + 1 <= MAX_MANIFEST_ENTRIES }

  /** What a caller can check before an edit. */
  predicate StaysWithin(es: Entries, op: Op)
  {
    match op
    case Remove(_) => true
    case SetAttr(_, _) => true
    case Mkdir(path, trusted) =>
      var p := Rule(path, trusted);
      p.Ok? && Room(es, p.value)
    case Put(path, trusted, content, _, _, _, _, _, _) =>
      var p := Rule(path, trusted);
      && p.Ok? && Room(es, p.value) && NumChunks(|content|, DEFAULT_CHUNK_SIZE) <= U32_MAX
      && TotalSize(es) - SizeAt(es, p.value) + |content| <= U64_MAX
    case Rename(rawFrom, rawTo) =>
      var from, to := NormalizeStored(rawFrom), Normalize(rawTo);
      from.Ok? && to.Ok? && (from == to || MoveFits(es, from.value, to.value))
  }

  predicate MoveFits(es: Entries, from: Path, to: Path)
  {
    && |es| + |Missing(es, to, 1)| <= MAX_MANIFEST_ENTRIES
    && forall e :: e in es && Under(from, e.path) ==> PathFits(Moved(from, to, e.path))
  }

  predicate EntryWithin(e: Entry)
  {
    PathFits(e.path) && (e.blob.Some? && e.blob.value.chunkSize > 0 ==>
                         NumChunks(e.size, e.blob.value.chunkSize) <= U32_MAX)
  }

  predicate AllWithin(es: Entries) { forall e :: e in es ==> EntryWithin(e) }

  lemma LimitsIff(es: Entries)
    ensures LimitsHold(es) <==> |es| <= MAX_MANIFEST_ENTRIES && TotalSize(es) <= U64_MAX && AllWithin(es)
  {
    hide NumChunks, ByteLen, Join;
  }

  lemma SizeSnoc(es: Entries, e: Entry)
    ensures TotalSize(es + [e]) == TotalSize(es) + SizeOf(e)
    ensures AllWithin(es + [e]) <==> AllWithin(es) && EntryWithin(e)
  {
    hide EntryWithin;
    assert (es + [e])[..|es|] == es;
    assert forall f :: f in es + [e] <==> f in es || f == e;
  }

  lemma {:induction false} SizeReplace(es: Entries, i: nat, e: Entry)
    requires i < |es|
    ensures SizeOf(es[i]) <= TotalSize(es)
    ensures TotalSize(es[i := e]) == TotalSize(es) - SizeOf(es[i]) + SizeOf(e)
  {
    var n := |es| - 1;
    var r, last := es[..n], es[n];
    if i == n {
      assert es[i := e] == r + [e];
      assert (r + [e])[..n] == r;
    } else {
      SizeReplace(r, i, e);
      assert es[i := e][..n] == r[i := e];
    }
  }

  lemma WithinReplace(es: Entries, i: nat, e: Entry)
    requires i < |es| && AllWithin(es)
    ensures AllWithin(es[i := e]) <==> EntryWithin(e)
  {
    hide EntryWithin;
    assert es[i := e][i] == e;
    assert forall f :: f in es[i := e] ==> f == e || f in es;
  }

  // ----- new directories -----

  lemma MissingStep(es: Entries, p: Path, k: nat)
    requires k < |p|
    ensures p[..k] in Index(es) ==> Missing(es, p, k) == Missing(es, p, k + 1)
    ensures p[..k] !in Index(es) ==>
            |Missing(es, p, k)| == 1 + |Missing(es + [DirEntry(p[..k])], p, k + 1)|
  {
    hide Index;
    Snoc(es, DirEntry(p[..k]));
    if p[..k] !in Index(es) {
      var fs := es + [DirEntry(p[..k])];
      assert forall j :: k < j < |p| ==> |p[..j]| != |p[..k]|;
      assert Missing(fs, p, k + 1) == Missing(es, p, k) - {k};
      assert k in Missing(es, p, k);
    }
  }

  lemma PrefixFits(p: Path, k: nat)
    requires Canonical(p) && 0 < k <= |p|
    ensures EntryWithin(DirEntry(p[..k]))
  {
    CanonicalPrefix(p, k);
  }

  /** `ensure_dirs` adds the missing ancestors, one entry each, and these are within limits. */
  lemma {:induction false} DirsGrow(es: Entries, p: Path, k: nat)
    requires Canonical(p) && 0 < k && EnsureDirs(es, p, k).1
    ensures var fs := EnsureDirs(es, p, k).0;
            && |fs| == |es| + |Missing(es, p, k)| && TotalSize(fs) == TotalSize(es) && es <= fs
            && (AllWithin(es) ==> AllWithin(fs))
            && forall i :: |es| <= i < |fs| ==> fs[i].path in Ancestors(p)
    decreases |p| - k
  {
    hide Index, Canonical, AllWithin, TotalSize, Missing;
    if k < |p| {
      var a := DirEntry(p[..k]);
      MissingStep(es, p, k);
      if p[..k] in Index(es) {
        DirsGrow(es, p, k + 1);
      } else {
        PrefixFits(p, k);
        SizeSnoc(es, a);
        hide EntryWithin;
        DirsGrow(es + [a], p, k + 1);
        assert p[..k] in Ancestors(p);
        var fs := EnsureDirs(es, p, k).0;
        assert es + [a] <= fs && fs[|es|] == a;
      }
    } else {
      NoneMissing(es, p, k);
    }
  }

  lemma NoneMissing(es: Entries, p: Path, k: nat)
    requires k >= |p|
    ensures Missing(es, p, k) == {}
  {
  }

  // ----- the edits -----

  lemma {:induction false} RemoveShrinks(es: Entries, p: Path)
    ensures TotalSize(RemoveEntries(es, p)) <= TotalSize(es) && |RemoveEntries(es, p)| <= |es|
  {
    if es != [] {
      var r, e := es[..|es| - 1], es[|es| - 1];
      RemoveShrinks(r, p);
      SizeSnoc(RemoveEntries(r, p), e);
      assert RemoveEntries(r, p) + [] == RemoveEntries(r, p);
    }
  }

  lemma RemoveStays(es: Entries, p: Path)
    requires LimitsHold(es)
    ensures LimitsHold(RemoveEntries(es, p))
  {
    RemoveShrinks(es, p);
    RemoveMembers(es, p);
    LimitsIff(es);
    LimitsIff(RemoveEntries(es, p));
    hide EntryWithin, RemoveEntries, LimitsHold;
  }

  lemma AttrStays(es: Entries, i: nat, attr: Attr)
    requires LimitsHold(es) && i < |es|
    ensures LimitsHold(es[i := es[i].(attr := attr)])
  {
    var e := es[i].(attr := attr);
    LimitsIff(es);
    LimitsIff(es[i := e]);
    SizeReplace(es, i, e);
    assert EntryWithin(es[i]);
    WithinReplace(es, i, e);
  }

  /** A new entry after its missing ancestors. */
  lemma AddedIff(es: Entries, e: Entry)
    requires LimitsHold(es) && Canonical(e.path) && e.path !in Index(es) && EnsureDirs(es, e.path, 1).1
    ensures LimitsHold(EnsureDirs(es, e.path, 1).0 + [e]) <==>
            Room(es, e.path) && TotalSize(es) + SizeOf(e) <= U64_MAX && EntryWithin(e)
  {
    var fs := EnsureDirs(es, e.path, 1).0;
    DirsGrow(es, e.path, 1);
    LimitsIff(es);
    SizeSnoc(fs, e);
    LimitsIff(fs + [e]);
    hide LimitsHold, AllWithin, EntryWithin, TotalSize, EnsureDirs, Index;
  }

  lemma PutWithin(p: Path, b: BlobRef, content: seq<byte>, attr: Attr)
    requires Canonical(p) && b.chunkSize > 0
    ensures EntryWithin(FileEntry(p, b, content, attr)) <==> NumChunks(|content|, b.chunkSize) <= U32_MAX
  {
  }

  lemma {:induction false} RenameSize(es: Entries, from: Path, to: Path)
    ensures TotalSize(RenameEntries(es, from, to)) == TotalSize(es)
  {
    if es != [] {
      RenameSize(es[..|es| - 1], from, to);
      assert RenameEntries(es, from, to)[..|es| - 1] == RenameEntries(es[..|es| - 1], from, to);
    }
  }

  lemma MovedWithin(e: Entry, from: Path, to: Path)
    requires EntryWithin(e)
    ensures var f := e.(path := Moved(from, to, e.path));
            EntryWithin(f) <==> (Under(from, e.path) ==> PathFits(Moved(from, to, e.path)))
  {
  }

  /** `fs` is `es` and then ancestors of `to`, which do not move. */
  lemma RenameWithin(es: Entries, fs: Entries, from: Path, to: Path)
    requires es <= fs && AllWithin(fs) && !Under(from, to)
    requires forall i :: |es| <= i < |fs| ==> fs[i].path in Ancestors(to)
    ensures AllWithin(RenameEntries(fs, from, to)) <==>
            forall e :: e in es && Under(from, e.path) ==> PathFits(Moved(from, to, e.path))
  {
    var moved := RenameEntries(fs, from, to);
    forall i | 0 <= i < |fs|
      ensures EntryWithin(moved[i]) <==> (Under(from, fs[i].path) ==> PathFits(Moved(from, to, fs[i].path)))
      ensures i >= |es| ==> !Under(from, fs[i].path)
    {
      assert fs[i] in fs;
      MovedWithin(fs[i], from, to);
    }
    hide EntryWithin, PathFits, Moved;
    if AllWithin(moved) {
      forall e | e in es && Under(from, e.path)
        ensures PathFits(Moved(from, to, e.path))
      {
        var i :| 0 <= i < |es| && es[i] == e;
        assert fs[i] == e && moved[i] in moved;
      }
    } else {
      var f :| f in moved && !EntryWithin(f);
      var i :| 0 <= i < |moved| && moved[i] == f;
      assert es[i] == fs[i] && es[i] in es;
    }
  }

  lemma RenameIff(es: Entries, from: Path, to: Path)
    requires LimitsHold(es) && Canonical(to) && !Under(from, to) && EnsureDirs(es, to, 1).1
    ensures LimitsHold(RenameEntries(EnsureDirs(es, to, 1).0, from, to)) <==> MoveFits(es, from, to)
  {
    var fs := EnsureDirs(es, to, 1).0;
    DirsGrow(es, to, 1);
    LimitsIff(es);
    hide LimitsHold, AllWithin, TotalSize, EnsureDirs, Canonical;
    RenameWithin(es, fs, from, to);
    RenameSize(fs, from, to);
    LimitsIff(RenameEntries(fs, from, to));
  }

  lemma RuleCanonical(path: string, trusted: bool)
    requires Rule(path, trusted).Ok?
    ensures Canonical(Rule(path, trusted).value)
  {
    hide Canonical;
    NormalizedIsCanonical(path);
  }

  lemma PutStays(env: Env, s: St, op: Op)
    requires op.Put? && LimitsHold(s.entries) && Apply(env, s, op).1
    ensures LimitsHold(Apply(env, s, op).0.entries) <==> StaysWithin(s.entries, op)
  {
    var es, p := s.entries, Rule(op.path, op.trusted).value;
    var b := BlobRef(op.id, op.key, op.nonce, DEFAULT_CHUNK_SIZE);
    var e := FileEntry(p, b, op.claimed, op.attr);
    RuleCanonical(op.path, op.trusted);
    PutWithin(p, b, op.claimed, op.attr);
    hide Rule, WriteBlob, EntryWithin, Canonical, NumChunks, LimitsHold, AllWithin, TotalSize, EnsureDirs, Index,
         Unlink;
    if p in Index(es) {
      var i := Index(es)[p];
      assert Apply(env, s, op).0.entries == es[i := e];
      ReplaceIff(es, i, e);
    } else {
      assert Apply(env, s, op).0.entries == EnsureDirs(es, p, 1).0 + [e];
      AddedIff(es, e);
    }
  }

  lemma ReplaceIff(es: Entries, i: nat, e: Entry)
    requires LimitsHold(es) && i < |es|
    ensures LimitsHold(es[i := e]) <==> TotalSize(es) - SizeOf(es[i]) + SizeOf(e) <= U64_MAX && EntryWithin(e)
  {
    LimitsIff(es);
    LimitsIff(es[i := e]);
    hide LimitsHold, AllWithin, EntryWithin, TotalSize;
    SizeReplace(es, i, e);
    WithinReplace(es, i, e);
  }

  lemma MkdirStays(env: Env, s: St, op: Op)
    requires op.Mkdir? && LimitsHold(s.entries) && Apply(env, s, op).1
    ensures LimitsHold(Apply(env, s, op).0.entries) <==> StaysWithin(s.entries, op)
  {
    var es, p := s.entries, Rule(op.path, op.trusted).value;
    RuleCanonical(op.path, op.trusted);
    PrefixFits(p, |p|);
    assert p[..|p|] == p;
    LimitsIff(es);
    hide Rule, EntryWithin, Canonical, LimitsHold, AllWithin, TotalSize, EnsureDirs, Index;
    if p !in Index(es) {
      AddedIff(es, DirEntry(p));
    }
  }

  lemma RenameStays(env: Env, s: St, op: Op)
    requires op.Rename? && LimitsHold(s.entries) && Apply(env, s, op).1
    ensures LimitsHold(Apply(env, s, op).0.entries) <==> StaysWithin(s.entries, op)
  {
    var from, to := NormalizeStored(op.from), Normalize(op.to);
    RuleCanonical(op.to, false);
    hide NormalizeStored, Normalize, Canonical, LimitsHold, EnsureDirs, Index, MoveFits, RenameEntries;
    if from != to {
      RenameIff(s.entries, from.value, to.value);
    }
  }

  lemma EditStays(env: Env, s: St, op: Op)
    requires LimitsHold(s.entries) && Apply(env, s, op).1
    ensures LimitsHold(Apply(env, s, op).0.entries) <==> StaysWithin(s.entries, op)
  {
    match op
    case Put(_, _, _, _, _, _, _, _, _) => PutStays(env, s, op);
    case Mkdir(_, _) => MkdirStays(env, s, op);
    case Rename(_, _) => RenameStays(env, s, op);
    case Remove(path) =>
      hide NormalizeStored, LimitsHold, RemoveEntries, RemovedIds;
      RemoveStays(s.entries, NormalizeStored(path).value);
    case SetAttr(path, attr) =>
      hide NormalizeStored, LimitsHold, Index;
      AttrStays(s.entries, Index(s.entries)[NormalizeStored(path).value], attr);
  }

  /** An accepted edit of a manifest that opens gives one that opens exactly when the
      condition a caller could have checked beforehand holds. */
  lemma EditReopensIff(env: Env, base: Entries, blobs0: Blobs, s: St, op: Op)
    requires BatchInv(env, base, blobs0, s) && Fresh(env, s, op)
    requires ManifestOk(env, s.entries) && Apply(env, s, op).1
    ensures ManifestOk(env, Apply(env, s, op).0.entries) <==> StaysWithin(s.entries, op)
  {
    ApplyRefines(env, base, blobs0, s, op);
    var s' := Apply(env, s, op).0;
    hide Fresh, Apply, Stored, TreeInv, ManifestOk, LimitsHold, StaysWithin, Ledger, Preserved;
    ValidIffLimits(env, s.entries, s.blobs);
    ValidIffLimits(env, s'.entries, s'.blobs);
    EditStays(env, s, op);
  }

  // ----- a rename that does not reopen -----

  function Deep(n: nat): Path { seq(n, _ => "a") }

  const DEEP: Path := Deep(MAX_PATH_DEPTH)

  function EmptyBatch(blobs: Blobs): St { St([], [], [], false, 0, None, blobs) }

  lemma {:induction false} DeepLength(n: nat)
    requires n > 0
    ensures ByteLen(Join(Deep(n))) == 2 * n - 1
  {
    if n == 1 {
      assert Deep(1) == ["a"] && Join(["a"]) == "a" && "a"[1..] == "";
    } else {
      DeepLength(n - 1);
      assert Deep(n) == Deep(n - 1) + ["a"];
      JoinConcat(Deep(n - 1), ["a"]);
      var s := Join(Deep(n - 1));
      assert "a"[1..] == "" && "/"[1..] == "";
      ByteLenConcat(s + "/", "a");
      ByteLenConcat(s, "/");
    }
  }

  predicate Plain(p: Path) { forall c :: c in p ==> c == "a" || c == "b" || c == "c" }

  lemma PlainLegal(p: Path)
    requires Plain(p)
    ensures forall c :: c in p ==> LegalComponent(c)
    ensures forall c, x :: c in p && x in c ==> !SpoofingChar(x)
  {
    OneLetter("a");
    OneLetter("b");
    OneLetter("c");
    hide LegalComponent, SpoofingChar;
  }

  lemma PlainNames(p: Path)
    requires 1 <= |p| <= MAX_PATH_DEPTH && Plain(p) && ByteLen(Join(p)) <= MAX_PATH_LEN
    ensures Canonical(p) && NormalizeStored(Join(p)) == Ok(p) && Normalize(Join(p)) == Ok(p)
  {
    hide Plain, LegalComponent, NormalizeStored, Join, ByteLen, SpoofingChar;
    PlainLegal(p);
    NormalizationImage(Join(p), p);
  }

  lemma OneLetter(c: string)
    requires |c| == 1 && 'a' <= c[0] <= 'z'
    ensures LegalComponent(c) && !SpoofingChar(c[0])
  {
    assert Stem(c) == c by {
      assert c[1..] == "" && Stem("") == "";
    }
    assert |Upper(Stem(c))| == 1;
  }

  lemma {:induction false} ByteLenBound(s: string)
    ensures ByteLen(s) <= 4 * |s|
  {
    if s != "" {
      ByteLenBound(s[1..]);
    }
  }

  lemma {:induction false} MissingBound(es: Entries, p: Path, k: nat)
    ensures |Missing(es, p, k)| <= if k < |p| then |p| - k else 0
    decreases |p| - k
  {
    if k < |p| {
      MissingBound(es, p, k + 1);
      var more := Missing(es, p, k + 1);
      if p[..k] in Index(es) {
        assert Missing(es, p, k) == more;
      } else {
        assert Missing(es, p, k) == more + {k};
      }
    } else {
      NoneMissing(es, p, k);
    }
  }

  lemma EmptyBatchOpens(env: Env)
    ensures BatchInv(env, [], map[], EmptyBatch(map[])) && ManifestOk(env, []) && View([]) == map[]
  {
    assert TotalSize([]) == 0;
    assert View([]) == map[];
  }

  /** `mkdir` of 64 nested directories. */
  lemma DeepMkdir(env: Env)
    ensures var (s1, ok) := Apply(env, EmptyBatch(map[]), Mkdir(Join(DEEP), false));
            && ok && BatchInv(env, [], map[], s1) && ManifestOk(env, s1.entries) && s1.limit.None?
            && View(s1.entries) == AddDirs(map[], DEEP)[DEEP := DirNode(NO_ATTR)]
  {
    DeepLength(MAX_PATH_DEPTH);
    PlainNames(DEEP);
    EmptyBatchOpens(env);
    MissingBound([], DEEP, 1);
    hide BatchInv, ManifestOk, Normalize, Canonical, Join, ByteLen, View, AddDirs, Missing, Apply;
    var s0, op := EmptyBatch(map[]), Mkdir(Join(DEEP), false);
    ApplyRefines(env, [], map[], s0, op);
    assert TreeOp(map[], op) == Some(AddDirs(map[], DEEP)[DEEP := DirNode(NO_ATTR)]);
    EditReopensIff(env, [], map[], s0, op);
  }

  /** The rename is accepted by the tree. */
  lemma DeepMoves()
    ensures var t := AddDirs(map[], DEEP)[DEEP := DirNode(NO_ATTR)];
            TreeRename(t, ["a"], ["b", "c"]).Some?
  {
    var t: Tree := AddDirs(map[], DEEP)[DEEP := DirNode(NO_ATTR)];
    assert DEEP[..1] == ["a"];
    assert ["a"] in Ancestors(DEEP);
    assert forall q :: q in t ==> q != [] && q[0] == "a";
  }

  lemma MoveNames()
    ensures NormalizeStored("a") == Ok(["a"]) && Normalize("b/c") == Ok(["b", "c"])
  {
    assert Join(["a"]) == "a" && Join(["b", "c"]) == "b/c";
    ByteLenBound("a");
    ByteLenBound("b/c");
    assert Plain(["a"]) && Plain(["b", "c"]);
    hide NormalizeStored, Normalize, Join, ByteLen, Plain;
    PlainNames(["a"]);
    PlainNames(["b", "c"]);
  }

  /** Two accepted edits of an empty vault, after which its manifest no longer opens. */
  lemma DeepRename(env: Env)
    ensures var s1 := Apply(env, EmptyBatch(map[]), Mkdir(Join(DEEP), false)).0;
            var (s2, ok) := Apply(env, s1, Rename("a", "b/c"));
            ManifestOk(env, s1.entries) && ok && !ManifestOk(env, s2.entries)
  {
    DeepMkdir(env);
    DeepMoves();
    MoveNames();
    hide ManifestOk, NormalizeStored, Normalize, Join, ByteLen, View, AddDirs, Missing, Apply, TreeRename, Refines,
         BatchInv;
    var s1 := Apply(env, EmptyBatch(map[]), Mkdir(Join(DEEP), false)).0;
    DeepMoved(env, s1);
  }

  lemma DeepMoved(env: Env, s1: St)
    requires BatchInv(env, [], map[], s1) && ManifestOk(env, s1.entries) && s1.limit.None? && DEEP in View(s1.entries)
    requires TreeRename(View(s1.entries), ["a"], ["b", "c"]).Some?
    requires NormalizeStored("a") == Ok(["a"]) && Normalize("b/c") == Ok(["b", "c"])
    ensures var (s2, ok) := Apply(env, s1, Rename("a", "b/c"));
            ok && !ManifestOk(env, s2.entries)
  {
    hide ManifestOk, NormalizeStored, Normalize, View, Apply, TreeRename, BatchInv, Refines, StaysWithin, Unique,
         Admitted;
    var op := Rename("a", "b/c");
    ApplyRefines(env, [], map[], s1, op);
    MoveAdmitted(env, s1);
    EditReopensIff(env, [], map[], s1, op);
  }

  lemma MoveAdmitted(env: Env, s1: St)
    requires BatchInv(env, [], map[], s1) && s1.limit.None? && DEEP in View(s1.entries)
    requires Refines(env, [], map[], s1, Rename("a", "b/c"))
    requires TreeRename(View(s1.entries), ["a"], ["b", "c"]).Some?
    requires NormalizeStored("a") == Ok(["a"]) && Normalize("b/c") == Ok(["b", "c"])
    ensures Apply(env, s1, Rename("a", "b/c")).1 && !StaysWithin(s1.entries, Rename("a", "b/c"))
  {
    assert Unique(s1.entries);
    hide NormalizeStored, Normalize, View, Apply, TreeRename, BatchInv, MoveFits, Unique;
    TooDeep(s1.entries, ["a"], ["b", "c"], DEEP);
  }

  lemma TooDeep(es: Entries, from: Path, to: Path, p: Path)
    requires Unique(es) && p in View(es) && Under(from, p) && |p| == MAX_PATH_DEPTH && |from| < |to|
    ensures !MoveFits(es, from, to)
  {
    hide View, Unique, ByteLen, Join;
    ViewDenotes(es);
    var e :| e in es && e.path == p;
  }
}
