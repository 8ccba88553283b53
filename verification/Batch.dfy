/** The edits of a `VaultBatch` as functions of its state, and the tree operations
    they perform. */
module Batch {
  import opened Base
  import opened Aead
  import opened Stream
  import opened RandomAccess
  import opened Paths
  import opened VaultTree
  import opened Manifest

  /** The blob directory. */
  type Blobs = map<string, Ct>

  /** What is fixed for a vault, plus the blobs whose unlinking fails. */
  datatype Env = Env(alg: Alg, header: seq<byte>, stuck: set<string>)

  function DomainOf(env: Env, b: BlobRef): Domain
  {
    Domain(Cipher(env.alg, b.key), b.nonce, env.header, b.chunkSize)
  }

  /** Best-effort removal of blobs. */
  function Unlink(env: Env, blobs: Blobs, ids: set<string>): Blobs { blobs - (ids - env.stuck) }

  const BLOB_ID_LEN: nat := 32

  predicate ValidBlobId(id: string)
  {
    |id| == BLOB_ID_LEN && forall i :: 0 <= i < |id| ==> '0' <= id[i] <= '9' || 'a' <= id[i] <= 'f'
  }

  datatype St = St(entries: Entries, staged: seq<string>, superseded: seq<string>,
                   changed: bool, ops: nat, limit: Option<nat>, blobs: Blobs)

  /** `claimed` is what was hashed, `streamed` what was read again to be encrypted;
      `io` is whether the environment let the blob be written. `trusted` edits are the
      builders': the stored-name rule, and not counted. */
  datatype Op =
    | Put(path: string, trusted: bool, claimed: seq<byte>, streamed: seq<byte>, attr: Attr,
          id: string, key: nat, nonce: seq<byte>, io: bool)
    | Mkdir(path: string, trusted: bool)
    | Remove(path: string)
    | Rename(from: string, to: string)
    | SetAttr(path: string, attr: Attr)

  function Rule(path: string, trusted: bool): Result<Path>
  {
    if trusted then NormalizeStored(path) else Normalize(path)
  }

  predicate OverLimit(s: St) { s.limit.Some? && s.ops > s.limit.value }

  function Counted(s: St, trusted: bool): St { if trusted then s else s.(ops := s.ops + 1) }

  predicate DirAt(es: Entries, p: Path) { p in Index(es) && es[Index(es)[p]].kind.Dir? }

  function WriteBlob(env: Env, blobs: Blobs, b: BlobRef, claimed: seq<byte>, streamed: seq<byte>, io: bool)
    : (Blobs, bool)
    requires b.chunkSize > 0
  {
    if !io || !Admissible(DomainOf(env, b)) || NumChunks(|streamed|, b.chunkSize) > U32_MAX + 1 then (blobs, false)
    else
      var written := blobs[b.id := SealFrom(DomainOf(env, b), streamed, 0)];
      if |streamed| != |claimed| || Digest(streamed) != Digest(claimed) then (Unlink(env, written, {b.id}), false)
      else (written, true)
  }

  function FileEntry(p: Path, b: BlobRef, content: seq<byte>, attr: Attr): Entry
  {
    Entry(p, File, |content|, attr, Digest(content), Some(b))
  }

  function IdOf(e: Entry): seq<string> { if e.blob.Some? then [e.blob.value.id] else [] }

  function Place(s: St, e: Entry): (St, bool)
  {
    var s1 := s.(staged := s.staged + IdOf(e));
    if e.path in Index(s.entries) then
      var i := Index(s.entries)[e.path];
      (s1.(entries := s.entries[i := e], superseded := s.superseded + IdOf(s.entries[i]), changed := true), true)
    else
      var (es, ok) := EnsureDirs(s.entries, e.path, 1);
      if ok then (s1.(entries := es + [e], changed := true), true) else (s1.(entries := es), false)
  }

  function ApplyPut(env: Env, s: St, op: Op): (St, bool)
    requires op.Put?
  {
    var s0 := Counted(s, op.trusted);
    var rule := Rule(op.path, op.trusted);
    if (!op.trusted && OverLimit(s0)) || rule.Err? || DirAt(s.entries, rule.value) then (s0, false)
    else
      var b := BlobRef(op.id, op.key, op.nonce, DEFAULT_CHUNK_SIZE);
      var (blobs, ok) := WriteBlob(env, s.blobs, b, op.claimed, op.streamed, op.io);
      if !ok then (s0.(blobs := blobs), false)
      else Place(s0.(blobs := blobs), FileEntry(rule.value, b, op.claimed, op.attr))
  }

  function ApplyMkdir(s: St, path: string, trusted: bool): (St, bool)
  {
    var s0 := Counted(s, trusted);
    var rule := Rule(path, trusted);
    if (!trusted && OverLimit(s0)) || rule.Err? then (s0, false)
    else if rule.value in Index(s.entries) then (s0, DirAt(s.entries, rule.value))
    else
      var (es, ok) := EnsureDirs(s.entries, rule.value, 1);
      if ok then (s0.(entries := es + [DirEntry(rule.value)], changed := true), true) else (s0.(entries := es), false)
  }

  function ApplyRemove(s: St, path: string): (St, bool)
  {
    var s0 := Counted(s, false);
    var rule := NormalizeStored(path);
    if OverLimit(s0) || rule.Err? then (s0, false)
    else
      var es := RemoveEntries(s.entries, rule.value);
      if |es| == |s.entries| then (s0, true)
      else (s0.(entries := es, superseded := s.superseded + RemovedIds(s.entries, rule.value), changed := true), true)
  }

  function ApplyRename(s: St, rawFrom: string, rawTo: string): (St, bool)
  {
    var s0 := Counted(s, false);
    var from, to := NormalizeStored(rawFrom), Normalize(rawTo);
    if OverLimit(s0) || from.Err? || to.Err? then (s0, false)
    else if from == to then (s0, true)
    else if Under(from.value, to.value) || from.value !in Index(s.entries) || to.value in Index(s.entries) then
      (s0, false)
    else
      var (es, ok) := EnsureDirs(s.entries, to.value, 1);
      if ok then (s0.(entries := RenameEntries(es, from.value, to.value), changed := true), true)
      else (s0.(entries := es), false)
  }

  function ApplySetAttr(s: St, path: string, attr: Attr): (St, bool)
  {
    var s0 := Counted(s, false);
    var rule := NormalizeStored(path);
    if OverLimit(s0) || rule.Err? || rule.value !in Index(s.entries) then (s0, false)
    else
      var i := Index(s.entries)[rule.value];
      (s0.(entries := s.entries[i := s.entries[i].(attr := attr)], changed := true), true)
  }

  function Apply(env: Env, s: St, op: Op): (St, bool)
  {
    match op
    case Put(_, _, _, _, _, _, _, _, _) => ApplyPut(env, s, op)
    case Mkdir(path, trusted) => ApplyMkdir(s, path, trusted)
    case Remove(path) => ApplyRemove(s, path)
    case Rename(from, to) => ApplyRename(s, from, to)
    case SetAttr(path, attr) => ApplySetAttr(s, path, attr)
  }

  // ----- the tree operation an edit stands for -----

  function Lift(r: Result<Path>, f: Path -> Option<Tree>): Option<Tree>
  {
    if r.Ok? then f(r.value) else None
  }

  /** What the edit does to the simple model; `None` is a refusal. */
  function TreeOp(t: Tree, op: Op): Option<Tree>
  {
    match op
    case Put(path, trusted, claimed, _, attr, _, _, _, _) =>
      Lift(Rule(path, trusted), p => TreePut(t, p, claimed, attr))
    case Mkdir(path, trusted) => Lift(Rule(path, trusted), p => TreeMkdir(t, p))
    case Remove(path) => Lift(NormalizeStored(path), p => Some(TreeRemove(t, p)))
    case Rename(from, to) => Lift(NormalizeStored(from), p => Lift(Normalize(to), q => TreeRename(t, p, q)))
    case SetAttr(path, attr) => Lift(NormalizeStored(path), p => TreeSetAttr(t, p, attr))
  }

  predicate IsTrusted(op: Op) { (op.Put? || op.Mkdir?) && op.trusted }

  /** The blob of a put is written and holds what was hashed. */
  predicate BlobOk(op: Op)
  {
    op.Put? ==> op.io && op.streamed == op.claimed && NumChunks(|op.streamed|, DEFAULT_CHUNK_SIZE) <= U32_MAX + 1
  }

  // ----- invariants -----

  /** The blob of `e` is on disk and encrypts the content the entry names. */
  ghost predicate Stored(env: Env, e: Entry, blobs: Blobs)
  {
    e.blob.Some? ==>
      var b := e.blob.value;
      b.id in blobs && ValidBlobId(b.id) && e.digest.Digest? && Admissible(DomainOf(env, b)) &&
      blobs[b.id] == SealFrom(DomainOf(env, b), e.digest.of, 0)
  }

  ghost predicate AllStored(env: Env, es: Entries, blobs: Blobs)
  {
    forall e :: e in es ==> Stored(env, e, blobs)
  }

  ghost predicate Sound(env: Env, es: Entries, blobs: Blobs) { TreeInv(es) && AllStored(env, es, blobs) }

  function Elems(s: seq<string>): set<string> { set x | x in s }

  /** `blobs0` is on disk unharmed. */
  ghost predicate Preserved(blobs0: Blobs, blobs: Blobs)
  {
    forall id :: id in blobs0 ==> id in blobs && blobs[id] == blobs0[id]
  }

  /** The books of a batch: which blobs are live, staged, superseded and on disk. */
  ghost predicate Ledger(stuck: set<string>, base: set<string>, disk0: set<string>,
                         disk: set<string>, live: set<string>, staged: set<string>, superseded: set<string>)
  {
    && base <= disk0 && staged !! disk0 && staged <= disk
    && disk <= disk0 + staged + stuck && live <= disk
    && live <= base + staged && base <= live + superseded
    && superseded !! live && superseded <= base + staged
  }

  /** What a batch started on manifest `base` and blob directory `blobs0` keeps. */
  ghost predicate BatchInv(env: Env, base: Entries, blobs0: Blobs, s: St)
  {
    && Sound(env, s.entries, s.blobs)
    && Preserved(blobs0, s.blobs)
    && Ledger(env.stuck, Ids(base), blobs0.Keys, s.blobs.Keys, Ids(s.entries), Elems(s.staged), Elems(s.superseded))
    && (!s.changed ==> s.entries == base)
  }

  /** Staging `x`, live in place of `gone` or not live at all. */
  lemma LedgerStage(stuck: set<string>, base: set<string>, disk0: set<string>,
                    disk: set<string>, live: set<string>, staged: set<string>, superseded: set<string>,
                    x: string, gone: set<string>)
    requires Ledger(stuck, base, disk0, disk, live, staged, superseded)
    requires x !in disk && gone <= live && disk0 <= disk
    ensures Ledger(stuck, base, disk0, disk + {x}, (live - gone) + {x}, staged + {x}, superseded + gone)
    ensures Ledger(stuck, base, disk0, disk + {x}, live, staged + {x}, superseded)
  {
  }

  lemma LedgerDrop(stuck: set<string>, base: set<string>, disk0: set<string>,
                   disk: set<string>, live: set<string>, staged: set<string>, superseded: set<string>,
                   gone: set<string>)
    requires Ledger(stuck, base, disk0, disk, live, staged, superseded) && gone <= live
    ensures Ledger(stuck, base, disk0, disk, live - gone, staged, superseded + gone)
  {
  }

  /** A fresh random blob id, key and nonce. */
  predicate Fresh(env: Env, s: St, op: Op)
  {
    op.Put? ==> ValidBlobId(op.id) && op.id !in s.blobs && |op.nonce| == StreamNonceLen(env.alg)
  }

  lemma ElemsConcat(a: seq<string>, b: seq<string>)
    ensures Elems(a + b) == Elems(a) + Elems(b)
  {
  }

  lemma RuleLegal(path: string, trusted: bool)
    requires Rule(path, trusted).Ok?
    ensures LegalPath(Rule(path, trusted).value)
  {
    NormalizedIsCanonical(path);
  }

  lemma StoredFrame(env: Env, es: Entries, blobs: Blobs, more: Blobs)
    requires AllStored(env, es, blobs) && Preserved(blobs, more)
    ensures AllStored(env, es, more)
  {
    forall e | e in es
      ensures Stored(env, e, more)
    {
      assert Stored(env, e, blobs);
    }
  }

  /** The state after the blob of a put was written, or not. */
  lemma WriteBlobKeeps(env: Env, base: Entries, blobs0: Blobs, s: St, b: BlobRef, claimed: seq<byte>,
                       streamed: seq<byte>, io: bool)
    requires BatchInv(env, base, blobs0, s) && b.chunkSize > 0 && b.id !in s.blobs
    ensures var (blobs, ok) := WriteBlob(env, s.blobs, b, claimed, streamed, io);
            && Preserved(s.blobs, blobs)
            && (!ok ==> BatchInv(env, base, blobs0, s.(blobs := blobs)))
            && (ok ==> streamed == claimed && Admissible(DomainOf(env, b)) &&
                       blobs == s.blobs[b.id := SealFrom(DomainOf(env, b), claimed, 0)])
  {
    hide SealFrom, NumChunks, TreeInv;
    var (blobs, ok) := WriteBlob(env, s.blobs, b, claimed, streamed, io);
    StoredFrame(env, s.entries, s.blobs, blobs);
  }

  /** Placing a freshly staged file, at the level of entries. */
  lemma PlaceEntries(s: St, e: Entry)
    requires TreeInv(s.entries) && EntryShape(e) && e.kind.File? && e.blob.value.id !in Ids(s.entries)
    requires !DirAt(s.entries, e.path)
    ensures var (s', ok) := Place(s, e);
            && TreeInv(s'.entries)
            && TreePut(View(s.entries), e.path, e.digest.of, e.attr) == (if ok then Some(View(s'.entries)) else None)
            && (!ok ==> s' == s.(staged := s.staged + IdOf(e)))
            && (ok ==>
                  && Elems(s'.superseded) - Elems(s.superseded) <= Ids(s.entries)
                  && Elems(s.superseded) <= Elems(s'.superseded)
                  && exists gone :: gone <= Ids(s.entries) && Elems(s'.superseded) == Elems(s.superseded) + gone &&
                                    Ids(s'.entries) == (Ids(s.entries) - gone) + {e.blob.value.id})
  {
    hide TreeInv, View, Index, EnsureDirs, Blocked, AddDirs, Ids, EntryShape;
    IndexView(s.entries);
    ShapeOf(e);
    if e.path in Index(s.entries) {
      var i := Index(s.entries)[e.path];
      KindAt(s.entries, e.path);
      ElemsConcat(s.superseded, IdOf(s.entries[i]));
      ReplaceKeeps(s.entries, i, e);
      IdsMembers(s.entries, if s.entries[i].blob.Some? then s.entries[i].blob.value.id else "");
      assert Elems(IdOf(e)) == {e.blob.value.id};
      assert Elems(IdOf(s.entries[i])) <= Ids(s.entries);
    } else {
      EnsureDirsFromRoot(s.entries, e.path);
      var (es, ok1) := EnsureDirs(s.entries, e.path, 1);
      if ok1 {
        AppendFile(s.entries, es, e);
        assert Elems(s.superseded) == Elems(s.superseded) + {};
        assert Ids(s.entries) - {} == Ids(s.entries);
      }
    }
  }

  lemma ShapeOf(e: Entry)
    requires EntryShape(e) && e.kind.File?
    ensures LegalPath(e.path) && e.blob.Some? && e.digest.Digest?
  {
  }

  lemma PlaceStored(env: Env, s: St, e: Entry)
    requires AllStored(env, s.entries, s.blobs) && Stored(env, e, s.blobs)
    ensures AllStored(env, Place(s, e).0.entries, s.blobs)
  {
    hide Stored, Index, EnsureDirs;
    var s' := Place(s, e).0;
    if e.path in Index(s.entries) {
      assert forall f :: f in s'.entries ==> f == e || f in s.entries;
    } else {
      EnsureDirsStored(env, s.entries, e.path, 1, s.blobs);
      var es := EnsureDirs(s.entries, e.path, 1).0;
      assert forall f :: f in s'.entries ==> f == e || f in es;
    }
  }

  /** Placing a freshly staged file is a put on the tree, or changes nothing. */
  lemma PlaceRefines(env: Env, base: Entries, blobs0: Blobs, s: St, blobs: Blobs, e: Entry)
    requires BatchInv(env, base, blobs0, s) && EntryShape(e) && e.kind.File?
    requires e.blob.value.id !in s.blobs && blobs.Keys == s.blobs.Keys + {e.blob.value.id}
    requires Preserved(s.blobs, blobs) && Stored(env, e, blobs)
    requires !DirAt(s.entries, e.path)
    ensures var (s', ok) := Place(s.(blobs := blobs), e);
            && BatchInv(env, base, blobs0, s')
            && TreePut(View(s.entries), e.path, e.digest.of, e.attr) == (if ok then Some(View(s'.entries)) else None)
            && (!ok ==> s'.entries == s.entries && s'.changed == s.changed)
  {
    hide TreeInv, View, Index, EnsureDirs, TreePut, Stored, AllStored, Ledger, Ids, EntryShape, DirAt;
    ShapeOf(e);
    var id, s1 := e.blob.value.id, s.(blobs := blobs);
    var (s', ok) := Place(s1, e);
    StoredFrame(env, s.entries, s.blobs, blobs);
    IdsOnDisk(env, s.entries, s.blobs);
    PlaceStored(env, s1, e);
    PlaceEntries(s1, e);
    ElemsConcat(s.staged, [id]);
    assert Elems(s'.staged) == Elems(s.staged) + {id};
    var gone: set<string> := {};
    if ok {
      gone :| gone <= Ids(s.entries) && Elems(s'.superseded) == Elems(s.superseded) + gone &&
              Ids(s'.entries) == (Ids(s.entries) - gone) + {id};
    }
    LedgerStage(env.stuck, Ids(base), blobs0.Keys, s.blobs.Keys, Ids(s.entries), Elems(s.staged), Elems(s.superseded),
                id, gone);
  }

  lemma IdsOnDisk(env: Env, es: Entries, blobs: Blobs)
    requires AllStored(env, es, blobs)
    ensures Ids(es) <= blobs.Keys
  {
    forall x | x in Ids(es)
      ensures x in blobs
    {
      var i :| 0 <= i < |es| && es[i].blob.Some? && es[i].blob.value.id == x;
      assert Stored(env, es[i], blobs);
    }
  }

  lemma EnsureDirsFromRoot(es: Entries, p: Path)
    requires TreeInv(es) && LegalPath(p)
    ensures var (fs, ok) := EnsureDirs(es, p, 1);
            && ok == !Blocked(View(es), p)
            && (!ok ==> fs == es)
            && (ok ==> TreeInv(fs) && View(fs) == AddDirs(View(es), p) && Ids(fs) == Ids(es))
  {
    hide TreeInv, View, EnsureDirs, Blocked, AddDirs;
    EnsureDirsRefines(es, p, 1);
  }

  lemma {:induction false} EnsureDirsStored(env: Env, es: Entries, p: Path, k: nat, blobs: Blobs)
    requires AllStored(env, es, blobs)
    ensures AllStored(env, EnsureDirs(es, p, k).0, blobs)
    decreases |p| - k
  {
    hide Index, Stored;
    if k < |p| {
      if p[..k] in Index(es) {
        EnsureDirsStored(env, es, p, k + 1, blobs);
      } else {
        DirStored(env, p[..k], blobs);
        assert forall f :: f in es + [DirEntry(p[..k])] ==> f == DirEntry(p[..k]) || f in es;
        EnsureDirsStored(env, es + [DirEntry(p[..k])], p, k + 1, blobs);
      }
    }
  }

  lemma DirStored(env: Env, p: Path, blobs: Blobs)
    ensures Stored(env, DirEntry(p), blobs)
  {
  }

  /** Appending the entry itself once its ancestors are there. */
  lemma AppendFile(es0: Entries, es: Entries, e: Entry)
    requires TreeInv(es0) && TreeInv(es) && View(es) == AddDirs(View(es0), e.path) && !Blocked(View(es0), e.path)
    requires Ids(es) == Ids(es0) && EntryShape(e) && e.path !in View(es0)
    requires e.blob.Some? ==> e.blob.value.id !in Ids(es0)
    ensures TreeInv(es + [e]) && View(es + [e]) == AddDirs(View(es0), e.path)[e.path := NodeOf(e)]
    ensures Ids(es + [e]) == Ids(es0) + (if e.blob.Some? then {e.blob.value.id} else {})
  {
    AddDirsClosed(View(es0), e.path);
    AncestorNotSelf(View(es0), e.path);
    hide TreeInv, View, Ids;
    AppendKeeps(es, e);
  }

  /** Replacing a file entry by another file at the same path. */
  lemma ReplaceKeeps(es: Entries, i: nat, e: Entry)
    requires TreeInv(es) && i < |es| && EntryShape(e) && e.path == es[i].path && e.kind == es[i].kind
    requires e.blob.Some? ==> e.blob.value.id !in Ids(es) || e.blob == es[i].blob
    ensures TreeInv(es[i := e]) && View(es[i := e]) == View(es)[e.path := NodeOf(e)]
    ensures Ids(es[i := e]) == (Ids(es) - Elems(IdOf(es[i]))) + Elems(IdOf(e))
  {
    ReplaceRefines(es, i, e);
    ReplaceBlobs(es, i, e);
    hide View;
    ViewDenotes(es);
    assert es[i] in es;
    ReplaceClosed(View(es), e.path, NodeOf(e));
  }

  lemma ReplaceClosed(t: Tree, p: Path, n: Node)
    requires Closed(t) && p in t && n.DirNode? == t[p].DirNode?
    ensures Closed(t[p := n])
  {
    InsertClosed(t, p, n);
  }

  lemma ReplaceBlobs(es: Entries, i: nat, e: Entry)
    requires DistinctBlobs(es) && i < |es|
    requires e.blob.Some? ==> e.blob.value.id !in Ids(es) || e.blob == es[i].blob
    ensures DistinctBlobs(es[i := e])
    ensures Ids(es[i := e]) == (Ids(es) - Elems(IdOf(es[i]))) + Elems(IdOf(e))
  {
    var fs := es[i := e];
    assert forall j :: 0 <= j < |es| && es[j].blob.Some? ==> es[j].blob.value.id in Ids(es);
    forall x
      ensures x in Ids(fs) <==> x in (Ids(es) - Elems(IdOf(es[i]))) + Elems(IdOf(e))
    {
      if x in Ids(es) && x !in IdOf(es[i]) {
        var j :| 0 <= j < |es| && es[j].blob.Some? && es[j].blob.value.id == x;
        assert fs[j] == es[j];
      }
      if x in IdOf(e) {
        assert fs[i] == e;
      }
    }
  }

  // ----- every edit refines its tree operation -----

  /** When an edit is carried out: the batch has room, the simple model admits it,
      and its blob could be written. */
  ghost predicate Admitted(s: St, op: Op)
  {
    (IsTrusted(op) || !OverLimit(Counted(s, false))) && TreeOp(View(s.entries), op).Some? && BlobOk(op)
  }

  ghost predicate Refines(env: Env, base: Entries, blobs0: Blobs, s: St, op: Op)
  {
    var (s', ok) := Apply(env, s, op);
    && BatchInv(env, base, blobs0, s')
    && (ok <==> Admitted(s, op))
    && (ok ==> TreeOp(View(s.entries), op) == Some(View(s'.entries)))
    && (!ok ==> s'.entries == s.entries && s'.changed == s.changed)
    && s'.limit == s.limit
  }

  lemma PutRefines(env: Env, base: Entries, blobs0: Blobs, s: St, op: Op)
    requires BatchInv(env, base, blobs0, s) && op.Put? && Fresh(env, s, op)
    ensures Refines(env, base, blobs0, s, op)
  {
    hide TreeInv, View, Index, TreePut, Stored, AllStored, Ledger, Ids, Place, Rule, SealFrom, NumChunks, WriteBlob,
         DirAt, Preserved;
    var rule := Rule(op.path, op.trusted);
    var s0 := Counted(s, op.trusted);
    assert BatchInv(env, base, blobs0, s0);
    if rule.Ok? {
      PutAt(env, base, blobs0, s, op, rule.value);
    }
  }

  lemma PutAt(env: Env, base: Entries, blobs0: Blobs, s: St, op: Op, p: Path)
    requires BatchInv(env, base, blobs0, s) && op.Put? && Fresh(env, s, op) && Rule(op.path, op.trusted) == Ok(p)
    ensures DirAt(s.entries, p) ==> TreePut(View(s.entries), p, op.claimed, op.attr).None?
    ensures var b := BlobRef(op.id, op.key, op.nonce, DEFAULT_CHUNK_SIZE);
            var s0 := Counted(s, op.trusted);
            var (blobs, ok) := WriteBlob(env, s.blobs, b, op.claimed, op.streamed, op.io);
            && ok == BlobOk(op)
            && (!ok ==> BatchInv(env, base, blobs0, s0.(blobs := blobs)))
            && (ok && !DirAt(s.entries, p) ==>
                  var (s', ok') := Place(s0.(blobs := blobs), FileEntry(p, b, op.claimed, op.attr));
                  && BatchInv(env, base, blobs0, s')
                  && TreePut(View(s.entries), p, op.claimed, op.attr) == (if ok' then Some(View(s'.entries)) else None)
                  && (!ok' ==> s'.entries == s.entries && s'.changed == s.changed)
                  && s'.limit == s.limit)
  {
    hide TreeInv, View, Index, Stored, AllStored, Ledger, Ids, Preserved, SealFrom, NumChunks;
    var b := BlobRef(op.id, op.key, op.nonce, DEFAULT_CHUNK_SIZE);
    var s0 := Counted(s, op.trusted);
    var e := FileEntry(p, b, op.claimed, op.attr);
    RuleLegal(op.path, op.trusted);
    if DirAt(s.entries, p) {
      KindAt(s.entries, p);
    }
    assert BatchInv(env, base, blobs0, s0);
    WriteBlobKeeps(env, base, blobs0, s0, b, op.claimed, op.streamed, op.io);
    var (blobs, ok) := WriteBlob(env, s.blobs, b, op.claimed, op.streamed, op.io);
    if ok && !DirAt(s.entries, p) {
      JustStored(env, b, op.claimed, e, blobs);
      PlaceRefines(env, base, blobs0, s0, blobs, e);
    }
  }

  lemma JustStored(env: Env, b: BlobRef, content: seq<byte>, e: Entry, blobs: Blobs)
    requires Admissible(DomainOf(env, b)) && ValidBlobId(b.id) && e.blob == Some(b) && e.digest == Digest(content)
    requires b.id in blobs && blobs[b.id] == SealFrom(DomainOf(env, b), content, 0)
    ensures Stored(env, e, blobs)
  {
  }

  lemma MkdirRefines(env: Env, base: Entries, blobs0: Blobs, s: St, op: Op)
    requires BatchInv(env, base, blobs0, s) && op.Mkdir?
    ensures Refines(env, base, blobs0, s, op)
  {
    hide Refines, BatchInv, Rule, Index;
    var rule := Rule(op.path, op.trusted);
    if rule.Err? {
      MkdirBadPath(env, base, blobs0, s, op);
    } else if rule.value in Index(s.entries) {
      MkdirOld(env, base, blobs0, s, op, rule.value);
    } else {
      MkdirNew(env, base, blobs0, s, op, rule.value);
    }
  }

  lemma MkdirBadPath(env: Env, base: Entries, blobs0: Blobs, s: St, op: Op)
    requires BatchInv(env, base, blobs0, s) && op.Mkdir? && Rule(op.path, op.trusted).Err?
    ensures Refines(env, base, blobs0, s, op)
  {
    hide Sound, View, Index, Ledger, Ids, Rule, Preserved;
  }

  lemma MkdirOld(env: Env, base: Entries, blobs0: Blobs, s: St, op: Op, p: Path)
    requires BatchInv(env, base, blobs0, s) && op.Mkdir?
    requires Rule(op.path, op.trusted) == Ok(p) && p in Index(s.entries)
    ensures Refines(env, base, blobs0, s, op)
  {
    hide Sound, View, Index, Blocked, AddDirs, Ledger, Ids, Rule, Preserved, EnsureDirs;
    IndexView(s.entries);
    KindAt(s.entries, p);
  }

  lemma MkdirNew(env: Env, base: Entries, blobs0: Blobs, s: St, op: Op, p: Path)
    requires BatchInv(env, base, blobs0, s) && op.Mkdir?
    requires Rule(op.path, op.trusted) == Ok(p) && p !in Index(s.entries)
    ensures Refines(env, base, blobs0, s, op)
  {
    hide TreeInv, View, Index, Blocked, AddDirs, Stored, AllStored, Ledger, Ids, Rule, Preserved, EnsureDirs, LegalPath;
    MkdirAbsent(env, base, blobs0, s, p);
    RuleLegal(op.path, op.trusted);
  }

  /** A new directory is its missing ancestors and itself, or nothing. */
  lemma MkdirAbsent(env: Env, base: Entries, blobs0: Blobs, s: St, p: Path)
    requires BatchInv(env, base, blobs0, s) && p !in Index(s.entries)
    ensures p !in View(s.entries)
    ensures LegalPath(p) ==>
            var (es, ok) := EnsureDirs(s.entries, p, 1);
            && ok == !Blocked(View(s.entries), p) && (!ok ==> es == s.entries)
            && (ok ==>
                  var all := es + [DirEntry(p)];
                  && Sound(env, all, s.blobs) && Ids(all) == Ids(s.entries)
                  && View(all) == AddDirs(View(s.entries), p)[p := DirNode(NO_ATTR)])
  {
    hide TreeInv, View, Index, Blocked, AddDirs, Stored, AllStored, Ledger, Ids, Rule, Preserved, EnsureDirs, LegalPath;
    IndexView(s.entries);
    if LegalPath(p) {
      EnsureDirsFromRoot(s.entries, p);
      EnsureDirsStored(env, s.entries, p, 1, s.blobs);
      var (es, ok) := EnsureDirs(s.entries, p, 1);
      if ok {
        DirShape(p);
        AppendFile(s.entries, es, DirEntry(p));
        AppendStored(env, es, DirEntry(p), s.blobs);
        assert Ids(s.entries) + {} == Ids(s.entries);
      }
    }
  }

  lemma AppendStored(env: Env, es: Entries, e: Entry, blobs: Blobs)
    requires AllStored(env, es, blobs) && e.blob.None?
    ensures AllStored(env, es + [e], blobs)
  {
  }

  lemma RemoveOpRefines(env: Env, base: Entries, blobs0: Blobs, s: St, op: Op)
    requires BatchInv(env, base, blobs0, s) && op.Remove?
    ensures Refines(env, base, blobs0, s, op)
  {
    hide TreeInv, View, Stored, Ledger, Ids, Preserved, NormalizeStored, RemoveEntries, RemovedIds, TreeRemove;
    var rule := NormalizeStored(op.path);
    if rule.Ok? {
      var p := rule.value;
      RemoveRefines(s.entries, p);
      RemoveMembers(s.entries, p);
      RemoveNothing(s.entries, p);
      RemovedIdsLive(s.entries, p);
      ElemsConcat(s.superseded, RemovedIds(s.entries, p));
      LedgerDrop(env.stuck, Ids(base), blobs0.Keys, s.blobs.Keys, Ids(s.entries), Elems(s.staged), Elems(s.superseded),
                 Elems(RemovedIds(s.entries, p)));
    }
  }

  lemma RemovedIdsLive(es: Entries, p: Path)
    ensures Elems(RemovedIds(es, p)) <= Ids(es)
  {
    RemoveMembers(es, p);
    forall x | x in RemovedIds(es, p)
      ensures x in Ids(es)
    {
      IdsMembers(es, x);
    }
  }

  lemma RenameOpRefines(env: Env, base: Entries, blobs0: Blobs, s: St, op: Op)
    requires BatchInv(env, base, blobs0, s) && op.Rename?
    ensures Refines(env, base, blobs0, s, op)
  {
    hide TreeInv, View, Stored, AllStored, Ledger, Ids, Preserved, NormalizeStored, Normalize, EnsureDirs,
         RenameEntries, Index, TreeRename;
    var from, to := NormalizeStored(op.from), Normalize(op.to);
    if from.Ok? && to.Ok? {
      RenameAt(env, s, op, from.value, to.value);
    }
  }

  lemma RenameAt(env: Env, s: St, op: Op, from: Path, to: Path)
    requires Sound(env, s.entries, s.blobs) && op.Rename?
    requires NormalizeStored(op.from) == Ok(from) && Normalize(op.to) == Ok(to)
    ensures var t := View(s.entries);
            && (from == to ==> TreeRename(t, from, to) == Some(t))
            && (from != to && (Under(from, to) || from !in Index(s.entries) || to in Index(s.entries)) ==>
                TreeRename(t, from, to).None?)
            && (from != to && !(Under(from, to) || from !in Index(s.entries) || to in Index(s.entries)) ==>
                  var (es, ok) := EnsureDirs(s.entries, to, 1);
                  && (!ok ==> es == s.entries && TreeRename(t, from, to).None?)
                  && (ok ==> var fs := RenameEntries(es, from, to);
                             && TreeRename(t, from, to) == Some(View(fs))
                             && Sound(env, fs, s.blobs) && Ids(fs) == Ids(s.entries)))
  {
    var t := View(s.entries);
    NormalizedIsCanonical(op.from);
    RuleLegal(op.to, false);
    IndexView(s.entries);
    assert Closed(t);
    hide TreeInv, View, AddDirs, Index, Stored, NormalizeStored, Normalize, EnsureDirs, RenameEntries, Ids;
    if from != to && !(Under(from, to) || from !in Index(s.entries) || to in Index(s.entries)) {
      EnsureDirsFromRoot(s.entries, to);
      EnsureDirsStored(env, s.entries, to, 1, s.blobs);
      var (es, ok) := EnsureDirs(s.entries, to, 1);
      if ok {
        RenameRefines(t, es, from, to);
        RenameStored(env, es, from, to, s.blobs);
      }
    }
  }

  lemma RenameStored(env: Env, es: Entries, from: Path, to: Path, blobs: Blobs)
    requires AllStored(env, es, blobs)
    ensures AllStored(env, RenameEntries(es, from, to), blobs)
  {
    var fs := RenameEntries(es, from, to);
    forall f | f in fs
      ensures Stored(env, f, blobs)
    {
      var i :| 0 <= i < |fs| && fs[i] == f;
      assert Stored(env, es[i], blobs);
    }
  }

  lemma SetAttrRefines(env: Env, base: Entries, blobs0: Blobs, s: St, op: Op)
    requires BatchInv(env, base, blobs0, s) && op.SetAttr?
    ensures Refines(env, base, blobs0, s, op)
  {
    hide TreeInv, View, Stored, Ledger, Ids, Preserved, NormalizeStored, Index;
    var rule := NormalizeStored(op.path);
    IndexView(s.entries);
    if rule.Ok? && rule.value in Index(s.entries) {
      var i := Index(s.entries)[rule.value];
      var e := s.entries[i].(attr := op.attr);
      AttrShape(s.entries, i, op.attr);
      ReplaceKeeps(s.entries, i, e);
      AttrStored(env, s.entries, i, op.attr, s.blobs);
      AttrIds(s.entries, i, e);
      AttrNode(s.entries[i], op.attr);
    }
  }

  lemma AttrShape(es: Entries, i: nat, attr: Attr)
    requires TreeInv(es) && i < |es|
    ensures EntryShape(es[i].(attr := attr))
  {
    assert EntryShape(es[i]);
  }

  lemma AttrNode(e: Entry, attr: Attr)
    ensures NodeOf(e.(attr := attr)) == NodeOf(e).(attr := attr)
  {
  }

  lemma AttrIds(es: Entries, i: nat, e: Entry)
    requires i < |es| && e.blob == es[i].blob
    ensures (Ids(es) - Elems(IdOf(es[i]))) + Elems(IdOf(e)) == Ids(es)
  {
    assert IdOf(es[i]) != [] ==> es[i].blob.value.id in Ids(es);
  }

  lemma AttrStored(env: Env, es: Entries, i: nat, attr: Attr, blobs: Blobs)
    requires AllStored(env, es, blobs) && i < |es|
    ensures AllStored(env, es[i := es[i].(attr := attr)], blobs)
  {
    assert Stored(env, es[i], blobs);
    assert forall f :: f in es[i := es[i].(attr := attr)] ==> f == es[i].(attr := attr) || f in es;
  }

  /** Every edit, accepted or refused, is the tree operation it stands for. */
  lemma ApplyRefines(env: Env, base: Entries, blobs0: Blobs, s: St, op: Op)
    requires BatchInv(env, base, blobs0, s) && Fresh(env, s, op)
    ensures Refines(env, base, blobs0, s, op)
  {
    hide BatchInv, Refines, Fresh;
    match op
    case Put(_, _, _, _, _, _, _, _, _) => PutRefines(env, base, blobs0, s, op);
    case Mkdir(_, _) => MkdirRefines(env, base, blobs0, s, op);
    case Remove(_) => RemoveOpRefines(env, base, blobs0, s, op);
    case Rename(_, _) => RenameOpRefines(env, base, blobs0, s, op);
    case SetAttr(_, _) => SetAttrRefines(env, base, blobs0, s, op);
  }

  // ----- which edits change anything -----

  /** An accepted edit changes the manifest, even to what it was, unless it makes a directory that
      is there, removes what is not, or renames a path to itself. */
  predicate Effective(t: Tree, op: Op)
  {
    match op
    case Put(_, _, _, _, _, _, _, _, _) => true
    case SetAttr(_, _) => true
    case Mkdir(path, trusted) => Rule(path, trusted).Ok? && Rule(path, trusted).value !in t
    case Remove(path) => NormalizeStored(path).Ok? && exists q :: q in t && Under(NormalizeStored(path).value, q)
    case Rename(from, to) => NormalizeStored(from) != Normalize(to)
  }

  lemma ChangesIff(env: Env, s: St, op: Op)
    requires Unique(s.entries) && Apply(env, s, op).1
    ensures Apply(env, s, op).0.changed <==> s.changed || Effective(View(s.entries), op)
  {
    hide View, Index, NormalizeStored, Normalize, Under, EnsureDirs, WriteBlob, RemoveEntries, RemovedIds;
    IndexView(s.entries);
    match op
    case Put(_, _, _, _, _, _, _, _, _) =>
    case Mkdir(_, _) =>
    case Remove(path) =>
      RemovesSome(s.entries, NormalizeStored(path).value);
      RemoveNothing(s.entries, NormalizeStored(path).value);
    case Rename(_, _) =>
    case SetAttr(_, _) =>
  }

  /** Fewer entries are left exactly if some lay in the subtree. */
  lemma RemovesSome(es: Entries, p: Path)
    requires Unique(es)
    ensures |RemoveEntries(es, p)| < |es| <==> exists q :: q in View(es) && Under(p, q)
  {
    hide View, RemoveEntries, RemovedIds, Under;
    RemoveNothing(es, p);
    RemoveMembers(es, p);
    ViewDenotes(es);
    if forall e :: e in es ==> !Under(p, e.path) {
      NoneBeneath(es, p);
    }
  }

  lemma {:induction false} NoneBeneath(es: Entries, p: Path)
    requires forall e :: e in es ==> !Under(p, e.path)
    ensures RemoveEntries(es, p) == es
  {
    if es != [] {
      NoneBeneath(es[..|es| - 1], p);
      assert es == es[..|es| - 1] + [es[|es| - 1]];
    }
  }
}
