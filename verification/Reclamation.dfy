/** No blob is forgotten: what is on disk is referenced, queued to be unlinked, or cannot be. */
module Reclamation {
  import opened Base
  import opened Stream
  import opened RandomAccess
  import opened Paths
  import opened VaultTree
  import opened Manifest
  import opened Batch
  import opened Validation
  import opened VaultWorld

  /** Every blob a batch staged is live or superseded again. */
  ghost predicate NoLeak(s: St)
  {
    && Elems(s.staged) <= Ids(s.entries) + Elems(s.superseded)
    && (!s.changed ==> s.staged == [] && s.superseded == [])
  }

  lemma PutNoLeak(env: Env, base: Entries, blobs0: Blobs, s: St, op: Op)
    requires BatchInv(env, base, blobs0, s) && Fresh(env, s, op) && NoLeak(s) && op.Put? && Apply(env, s, op).1
    ensures NoLeak(Apply(env, s, op).0)
  {
    hide TreeInv, View, Index, Stored, AllStored, Ledger, Ids, Preserved, SealFrom, NumChunks, Place, Rule, WriteBlob,
         DirAt, EntryShape, LegalPath;
    var p := Rule(op.path, op.trusted).value;
    var b := BlobRef(op.id, op.key, op.nonce, DEFAULT_CHUNK_SIZE);
    var s0 := Counted(s, op.trusted);
    var s1 := s0.(blobs := WriteBlob(env, s.blobs, b, op.claimed, op.streamed, op.io).0);
    var e := FileEntry(p, b, op.claimed, op.attr);
    RuleLegal(op.path, op.trusted);
    FileShape(p, b, op.claimed, op.attr);
    IdsOnDisk(env, s.entries, s.blobs);
    PlaceEntries(s1, e);
    PlaceBooks(s1, e);
    ElemsConcat(s.staged, [op.id]);
    assert Elems([op.id]) == {op.id};
  }

  lemma FileShape(p: Path, b: BlobRef, content: seq<byte>, attr: Attr)
    requires LegalPath(p)
    ensures EntryShape(FileEntry(p, b, content, attr))
  {
  }

  lemma PlaceBooks(s: St, e: Entry)
    ensures var (s', ok) := Place(s, e); s'.staged == s.staged + IdOf(e) && (ok ==> s'.changed)
  {
    hide Index, EnsureDirs;
  }

  lemma OtherNoLeak(env: Env, base: Entries, blobs0: Blobs, s: St, op: Op)
    requires BatchInv(env, base, blobs0, s) && NoLeak(s) && !op.Put? && Apply(env, s, op).1
    requires Refines(env, base, blobs0, s, op)
    ensures NoLeak(Apply(env, s, op).0)
  {
    hide View, TreeOp, Rule, NormalizeStored, Normalize, Ids, EnsureDirs;
    match op {
      case Mkdir(path, trusted) =>
        hide Index;
        if Rule(path, trusted).value !in Index(s.entries) {
          RuleLegal(path, trusted);
          MkdirAbsent(env, base, blobs0, s, Rule(path, trusted).value);
        }
      case Remove(path) =>
        hide Index, RemoveEntries, RemovedIds;
        var p := NormalizeStored(path).value;
        RemoveRefines(s.entries, p);
        ElemsConcat(s.superseded, RemovedIds(s.entries, p));
      case Rename(from, to) =>
        hide Index, RenameEntries, TreeRename;
        if NormalizeStored(from) != Normalize(to) {
          RenameAt(env, s, op, NormalizeStored(from).value, Normalize(to).value);
        }
      case SetAttr(path, attr) =>
        hide Index;
        var i := Index(s.entries)[NormalizeStored(path).value];
        SameIds(s.entries, i, attr);
    }
  }

  lemma SameIds(es: Entries, i: nat, attr: Attr)
    requires i < |es|
    ensures Ids(es[i := es[i].(attr := attr)]) == Ids(es)
  {
    var fs := es[i := es[i].(attr := attr)];
    assert forall j :: 0 <= j < |es| ==> fs[j].blob == es[j].blob;
    forall x
      ensures x in Ids(fs) <==> x in Ids(es)
    {
    }
  }

  predicate AllMust(script: seq<Step>) { forall k :: 0 <= k < |script| ==> script[k].must }

  /** A script whose every failure is propagated leaks nothing if it gets through. */
  lemma {:induction false} ScriptNoLeak(env: Env, base: Entries, blobs0: Blobs, s: St, script: seq<Step>)
    requires BatchInv(env, base, blobs0, s) && FreshScript(env, s, script) && NoLeak(s) && AllMust(script)
    requires RunScript(env, s, script).1
    ensures NoLeak(RunScript(env, s, script).0)
    decreases |script|
  {
    hide BatchInv, NoLeak, Apply;
    if script != [] {
      var op := script[0].op;
      ApplyRefines(env, base, blobs0, s, op);
      StepNoLeak(env, base, blobs0, s, op);
      ScriptNoLeak(env, base, blobs0, Apply(env, s, op).0, script[1..]);
    }
  }

  lemma StepNoLeak(env: Env, base: Entries, blobs0: Blobs, s: St, op: Op)
    requires BatchInv(env, base, blobs0, s) && Fresh(env, s, op) && NoLeak(s) && Apply(env, s, op).1
    ensures NoLeak(Apply(env, s, op).0)
  {
    hide BatchInv, NoLeak, Apply, Refines;
    ApplyRefines(env, base, blobs0, s, op);
    if op.Put? {
      PutNoLeak(env, base, blobs0, s, op);
    } else {
      OtherNoLeak(env, base, blobs0, s, op);
    }
  }

  /** Every file in the blob directory that could be a blob is referenced, queued, or stuck. */
  ghost predicate Tidy(env: Env, w: World)
  {
    w.reader.Some? &&
    forall x :: x in w.blobs && ValidBlobId(x) ==>
      x in Ids(w.disk.entries) || x in w.reader.value.pending || x in env.stuck
  }

  /** Commits leave no blob behind, whether they are refused, change nothing, or are known to be
      durable or not. */
  lemma CommitTidy(env: Env, w: World, limit: Option<nat>, script: seq<Step>, blobSync: bool, write: WriteOutcome)
    requires WorldInv(env, w) && Tidy(env, w) && FreshScript(env, StartBatch(w, limit), script) && AllMust(script)
    ensures Tidy(env, Commit(env, w, limit, script, blobSync, write).0)
  {
    hide View, RunScript, FreshScript, TreeScript, WorldInv, AllMust, Sound, Ids, Ledger, Preserved;
    StartInv(env, w, limit);
    InvReader(env, w);
    var s0 := StartBatch(w, limit);
    ScriptRefines(env, w.disk.entries, w.blobs, s0, script);
    var (s, ok) := RunScript(env, s0, script);
    CommitBlobs(env, w, limit, script, blobSync, write);
    if ok {
      ScriptNoLeak(env, w.disk.entries, w.blobs, s0, script);
    }
    var (w', report) := Commit(env, w, limit, script, blobSync, write);
    hide BatchInv, Unlink;
    if report.Refused? {
      CommitRefines(env, w, limit, script, blobSync, write);
    } else {
      AcceptedTidy(env, w, s);
      ElemsConcat(w.reader.value.pending, s.superseded);
      UnlinkedAre(env, s.blobs, Elems(w.reader.value.pending + s.superseded));
      UnchangedEntries(env, w.disk.entries, w.blobs, s);
    }
  }

  lemma AcceptedTidy(env: Env, w: World, s: St)
    requires w.reader.Some? && BatchInv(env, w.disk.entries, w.blobs, s) && NoLeak(s) && Tidy(env, w)
    ensures forall x :: x in s.blobs && ValidBlobId(x) ==>
              x in Ids(s.entries) || x in w.reader.value.pending || x in s.superseded || x in env.stuck
  {
    hide Sound, Ids;
  }

  lemma UnlinkedAre(env: Env, blobs: Blobs, ids: set<string>)
    ensures forall x :: x in Unlink(env, blobs, ids) <==> x in blobs && (x !in ids || x in env.stuck)
  {
  }

  /** A complete collection makes any vault tidy, and empties the queue. */
  lemma CollectTidy(env: Env, w: World, dirSync: bool, blobSync: bool)
    requires WorldInv(env, w) && w.reader.Some? && ((dirSync && blobSync) || Tidy(env, w))
    ensures Tidy(env, Collect(env, w, dirSync, blobSync))
    ensures dirSync && blobSync ==> Collect(env, w, dirSync, blobSync).reader.value.pending == []
  {
    CollectKeeps(env, w, dirSync, blobSync);
    hide WorldInv, Ids, Orphans, Unlink;
  }

  predicate Orderly(e: Event) { (e.DoCommit? && AllMust(e.script)) || e.DoCollect? }

  /** Over every run of commits and collections. */
  lemma {:induction false} RunTidy(env: Env, w: World, events: seq<Event>)
    requires WorldInv(env, w) && Tidy(env, w) && EnabledRun(env, w, events)
    requires forall k :: 0 <= k < |events| ==> Orderly(events[k])
    ensures Tidy(env, Run(env, w, events))
    decreases |events|
  {
    hide WorldInv, Tidy, ModelStep, DirectoryStep, Commit, Collect;
    if events != [] {
      var e := events[0];
      ExecRefines(env, w, e);
      TidyReader(env, w);
      match e {
        case DoCommit(limit, script, blobSync, write) => CommitTidy(env, w, limit, script, blobSync, write);
        case DoCollect(dirSync, blobSync) => CollectTidy(env, w, dirSync, blobSync);
      }
      RunTidy(env, Exec(env, w, e), events[1..]);
    }
  }

  lemma TidyReader(env: Env, w: World)
    requires Tidy(env, w)
    ensures w.reader.Some?
  {
  }
}
