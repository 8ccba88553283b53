/** Whole runs of a v2 vault: batches, reclamation, garbage collection, crashes
    and reopening, over a disk whose directory syncs may fail. */
module VaultWorld {
  import opened Base
  import opened Aead
  import opened Stream
  import opened RandomAccess
  import opened Paths
  import opened VaultTree
  import opened Manifest
  import opened Batch
  import opened StateChain
  import opened Validation

  /** A sealed manifest: its state record and the entries it commits to. */
  datatype ManifestFile = ManifestFile(state: State<Entries>, entries: Entries)

  datatype Reader = Reader(entries: Entries, state: State<Entries>, pending: seq<string>)

  /** `disk` is the manifest now in place, `possible` those a crash may leave, and
      `durable` the blobs a crash cannot lose. `synced` says that no manifest was
      written over a blob whose directory entry could not be synced. */
  datatype World = World(disk: ManifestFile, possible: set<ManifestFile>, blobs: Blobs,
                         durable: set<string>, synced: bool, reader: Option<Reader>)

  // ----- scripts -----

  /** One step of the closure given to a batch: `must` edits propagate a failure,
      the others swallow it. */
  datatype Step = Step(op: Op, must: bool)

  function RunScript(env: Env, s: St, script: seq<Step>): (St, bool)
    decreases |script|
  {
    if script == [] then (s, true)
    else
      var (s1, ok) := Apply(env, s, script[0].op);
      if !ok && script[0].must then (s1, false) else RunScript(env, s1, script[1..])
  }

  /** Every put of the script draws a fresh blob id. */
  ghost predicate FreshScript(env: Env, s: St, script: seq<Step>)
    decreases |script|
  {
    script != [] ==>
      && Fresh(env, s, script[0].op)
      && (Apply(env, s, script[0].op).1 || !script[0].must ==>
          FreshScript(env, Apply(env, s, script[0].op).0, script[1..]))
  }

  /** The script on the simple model: `ops` counted so far. */
  function TreeScript(t: Tree, script: seq<Step>, ops: nat, limit: Option<nat>): Option<Tree>
    decreases |script|
  {
    if script == [] then Some(t)
    else
      var op := script[0].op;
      var r := TreeStep(t, op, ops, limit);
      if r.None? && script[0].must then None
      else TreeScript(if r.Some? then r.value else t, script[1..], if IsTrusted(op) then ops else ops + 1, limit)
  }

  /** What one edit does to the simple model, `ops` counted before. */
  function TreeStep(t: Tree, op: Op, ops: nat, limit: Option<nat>): Option<Tree>
  {
    var ops' := if IsTrusted(op) then ops else ops + 1;
    var room := IsTrusted(op) || limit.None? || ops' <= limit.value;
    if room && BlobOk(op) then TreeOp(t, op) else None
  }

  lemma EditStep(env: Env, base: Entries, blobs0: Blobs, s: St, op: Op)
    requires BatchInv(env, base, blobs0, s) && Fresh(env, s, op)
    ensures var (s1, ok) := Apply(env, s, op);
            && BatchInv(env, base, blobs0, s1) && s1.limit == s.limit
            && s1.ops == (if IsTrusted(op) then s.ops else s.ops + 1)
            && TreeStep(View(s.entries), op, s.ops, s.limit) == (if ok then Some(View(s1.entries)) else None)
            && (!ok ==> s1.entries == s.entries)
            && s1.changed == (s.changed || (ok && Effective(View(s.entries), op)))
  {
    hide BatchInv, View, TreeOp, Fresh, Effective;
    ApplyRefines(env, base, blobs0, s, op);
    OpsCount(env, s, op);
    UniqueIn(env, base, blobs0, s);
    if Apply(env, s, op).1 {
      ChangesIff(env, s, op);
    }
    hide Apply;
  }

  /** A whole batch either performs its script on the tree or is refused. */
  lemma {:induction false} ScriptRefines(env: Env, base: Entries, blobs0: Blobs, s: St, script: seq<Step>)
    requires BatchInv(env, base, blobs0, s) && FreshScript(env, s, script)
    ensures var (s', ok) := RunScript(env, s, script);
            && BatchInv(env, base, blobs0, s')
            && TreeScript(View(s.entries), script, s.ops, s.limit) == (if ok then Some(View(s'.entries)) else None)
    decreases |script|
  {
    hide BatchInv, View, TreeStep, Fresh, Apply, Effective;
    if script != [] {
      EditStep(env, base, blobs0, s, script[0].op);
      var (s1, ok) := Apply(env, s, script[0].op);
      if ok || !script[0].must {
        ScriptRefines(env, base, blobs0, s1, script[1..]);
      }
    }
  }

  /** Whether a script that gets through changes anything. */
  predicate TreeChanges(t: Tree, script: seq<Step>, ops: nat, limit: Option<nat>)
    decreases |script|
  {
    script != [] &&
    var op := script[0].op;
    var r := TreeStep(t, op, ops, limit);
    || (r.Some? && Effective(t, op))
    || TreeChanges(if r.Some? then r.value else t, script[1..], if IsTrusted(op) then ops else ops + 1, limit)
  }

  lemma {:induction false} ScriptChanges(env: Env, base: Entries, blobs0: Blobs, s: St, script: seq<Step>)
    requires BatchInv(env, base, blobs0, s) && FreshScript(env, s, script) && RunScript(env, s, script).1
    ensures RunScript(env, s, script).0.changed <==> s.changed || TreeChanges(View(s.entries), script, s.ops, s.limit)
    decreases |script|
  {
    hide BatchInv, View, TreeStep, Fresh, Apply, Effective;
    if script != [] {
      EditStep(env, base, blobs0, s, script[0].op);
      ScriptChanges(env, base, blobs0, Apply(env, s, script[0].op).0, script[1..]);
    }
  }

  lemma UniqueIn(env: Env, base: Entries, blobs0: Blobs, s: St)
    requires BatchInv(env, base, blobs0, s)
    ensures Unique(s.entries)
  {
    hide Ledger, Preserved, AllStored;
  }

  lemma OpsCount(env: Env, s: St, op: Op)
    ensures Apply(env, s, op).0.ops == if IsTrusted(op) then s.ops else s.ops + 1
  {
    hide Index, EnsureDirs, WriteBlob, NormalizeStored, Normalize, RemoveEntries;
  }

  // ----- commits -----

  datatype WriteOutcome = Failed | NotDurable | Durable
  datatype Report = Refused | Unchanged | Committed(durable: bool)

  function StartBatch(w: World, limit: Option<nat>): St
    requires w.reader.Some?
  {
    St(w.reader.value.entries, [], [], false, 0, limit, w.blobs)
  }

  /** The state record the next manifest would carry. */
  function NextState(r: Reader, entries: Entries): Result<State<Entries>>
  {
    Next(r.state.obj, r.state.suite, Some(AnchorOf(r.state)), entries)
  }

  /** `commit_with`: nothing changes unless the new manifest was renamed into place. */
  function Commit(env: Env, w: World, limit: Option<nat>, script: seq<Step>, blobSync: bool, write: WriteOutcome)
    : (World, Report)
    requires w.reader.Some?
  {
    var r := w.reader.value;
    var (s, ok) := RunScript(env, StartBatch(w, limit), script);
    if !ok then (w.(blobs := Unlink(env, s.blobs, Elems(s.staged))), Refused)
    else if !s.changed then (w.(blobs := s.blobs), Unchanged)
    else
      var durable := if blobSync then s.blobs.Keys else w.durable;
      var next := NextState(r, s.entries);
      if next.Err? || write.Failed? then
        (w.(blobs := Unlink(env, s.blobs, Elems(s.staged)),
            durable := durable * Unlink(env, s.blobs, Elems(s.staged)).Keys), Refused)
      else
        var file := ManifestFile(next.value, s.entries);
        var queue := r.pending + s.superseded;
        var blobs := if write.Durable? then Unlink(env, s.blobs, Elems(queue)) else s.blobs;
        (World(file, if write.Durable? then {file} else w.possible + {file}, blobs, durable * blobs.Keys,
               blobSync || (w.synced && s.staged == []),
               Some(Reader(s.entries, next.value, if write.Durable? then [] else queue))), Committed(write.Durable?))
  }

  /** The blobs no entry references. */
  function Orphans(blobs: Blobs, es: Entries): set<string>
  {
    set x | x in blobs && ValidBlobId(x) && x !in Ids(es)
  }

  /** `collect_garbage`: judges only by a manifest that is durable. */
  function Collect(env: Env, w: World, dirSync: bool, blobSync: bool): World
    requires w.reader.Some?
  {
    if !dirSync then w
    else if !blobSync then w.(possible := {w.disk})
    else
      var r := w.reader.value;
      var blobs := Unlink(env, w.blobs, Orphans(w.blobs, r.entries));
      w.(possible := {w.disk}, blobs := blobs, durable := blobs.Keys, synced := true, reader := Some(r.(pending := [])))
  }

  /** `open`: read back and validate the manifest in place. */
  function Reopen(env: Env, w: World): World
  {
    w.(reader := if VerifyPayload(w.disk.state, w.disk.entries) && ManifestOk(env, w.disk.entries)
                 then Some(Reader(w.disk.entries, w.disk.state, [])) else None)
  }

  /** What a crash may leave of the blob directory: the durable blobs unharmed, the
      others kept or lost, and unlinked ones possibly back. */
  ghost predicate CrashBlobs(w: World, blobs: Blobs)
  {
    (forall x :: x in w.durable && x in w.blobs ==> x in blobs) &&
    (forall x :: x in blobs && x in w.blobs ==> blobs[x] == w.blobs[x])
  }

  /** A crash that leaves manifest `m` and blob directory `blobs`, then a restart. */
  function Restart(env: Env, w: World, m: ManifestFile, blobs: Blobs): World
  {
    Reopen(env, World(m, {m}, blobs, blobs.Keys, true, None))
  }

  // ----- the invariant of every run -----

  ghost predicate WorldInv(env: Env, w: World)
  {
    && w.disk in w.possible
    && (forall m :: m in w.possible ==> Sound(env, m.entries, w.blobs) && VerifyPayload(m.state, m.entries))
    && w.durable <= w.blobs.Keys
    && (w.synced ==> forall m :: m in w.possible ==> Ids(m.entries) <= w.durable)
    && (w.reader.Some? ==>
          var r := w.reader.value;
          r.entries == w.disk.entries && r.state == w.disk.state &&
          Elems(r.pending) <= w.blobs.Keys && Elems(r.pending) !! Ids(r.entries))
  }

  /** The simple model of a run: the tree, and the trees a crash may bring back. */
  datatype Model = Model(tree: Tree, survivors: set<Tree>)

  ghost function ModelOf(w: World): Model
  {
    Model(View(w.disk.entries), Trees(w.possible))
  }

  ghost function Trees(possible: set<ManifestFile>): set<Tree> { set m | m in possible :: View(m.entries) }

  lemma StartInv(env: Env, w: World, limit: Option<nat>)
    requires WorldInv(env, w) && w.reader.Some?
    ensures BatchInv(env, w.disk.entries, w.blobs, StartBatch(w, limit))
  {
    hide TreeInv, Stored;
    IdsOnDisk(env, w.disk.entries, w.blobs);
  }

  lemma UnlinkKeeps(env: Env, es: Entries, blobs: Blobs, ids: set<string>)
    requires AllStored(env, es, blobs) && ids !! Ids(es)
    ensures AllStored(env, es, Unlink(env, blobs, ids))
  {
    forall e | e in es
      ensures Stored(env, e, Unlink(env, blobs, ids))
    {
      assert Stored(env, e, blobs);
      if e.blob.Some? {
        IdsMembers(es, e.blob.value.id);
      }
    }
  }

  /** A refused batch, at any edit or at the write, leaves the manifest, the state
      and every stored content as they were, and removes the blobs it staged. */
  lemma RefusedKeeps(env: Env, w: World, s: St)
    requires WorldInv(env, w) && BatchInv(env, w.disk.entries, w.blobs, s)
    ensures var blobs := Unlink(env, s.blobs, Elems(s.staged));
            && (forall x :: x in w.blobs ==> x in blobs && blobs[x] == w.blobs[x])
            && blobs.Keys <= w.blobs.Keys + env.stuck
            && (forall m :: m in w.possible ==> Sound(env, m.entries, blobs))
  {
    hide TreeInv, Stored;
    var blobs := Unlink(env, s.blobs, Elems(s.staged));
    forall m | m in w.possible
      ensures Sound(env, m.entries, blobs)
    {
      StoredFrame(env, m.entries, w.blobs, blobs);
    }
  }

  /** Every commit keeps the invariant, and is the script on the tree or nothing. */
  lemma CommitRefines(env: Env, w: World, limit: Option<nat>, script: seq<Step>, blobSync: bool, write: WriteOutcome)
    requires WorldInv(env, w) && w.reader.Some? && FreshScript(env, StartBatch(w, limit), script)
    ensures var (w', report) := Commit(env, w, limit, script, blobSync, write);
            && WorldInv(env, w')
            && (report.Committed? ==> TreeScript(View(w.disk.entries), script, 0, limit) == Some(View(w'.disk.entries)))
            && (report.Unchanged? ==> TreeScript(View(w.disk.entries), script, 0, limit) == Some(View(w.disk.entries)))
            && (!report.Committed? ==> w'.disk == w.disk && w'.possible == w.possible && w'.reader == w.reader)
            && (report.Refused? <==> TreeScript(View(w.disk.entries), script, 0, limit).None? ||
                                     (RunScript(env, StartBatch(w, limit), script).0.changed &&
                                      (write.Failed? || w.reader.value.state.epoch >= U64_MAX)))
            && (report.Committed? ==> w'.possible == (if write.Durable? then {w'.disk} else w.possible + {w'.disk}))
  {
    hide BatchInv, View, RunScript, FreshScript, TreeScript, Sound, Ids, WorldInv, Unlink;
    StartInv(env, w, limit);
    var s0 := StartBatch(w, limit);
    assert s0.entries == w.disk.entries by { InvReader(env, w); }
    ScriptRefines(env, w.disk.entries, w.blobs, s0, script);
    var (s, ok) := RunScript(env, s0, script);
    UnchangedEntries(env, w.disk.entries, w.blobs, s);
    RefusedInv(env, w, s, blobSync);
    if ok && s.changed && !write.Failed? && NextState(w.reader.value, s.entries).Ok? {
      CommittedInv(env, w, s, blobSync, write);
    } else if ok && !s.changed {
      UnchangedInv(env, w, s);
    }
  }

  /** What a commit reports, by the simple model: refused if the script is, unchanged if it changes
      nothing, and otherwise committed as the write went, while there is an epoch left. */
  function ReportIs(t: Tree, epoch: nat, limit: Option<nat>, script: seq<Step>, write: WriteOutcome): Report
  {
    if TreeScript(t, script, 0, limit).None? then Refused
    else if !TreeChanges(t, script, 0, limit) then Unchanged
    else if write.Failed? || epoch >= U64_MAX then Refused
    else Committed(write.Durable?)
  }

  lemma CommitReports(env: Env, w: World, limit: Option<nat>, script: seq<Step>, blobSync: bool, write: WriteOutcome)
    requires WorldInv(env, w) && w.reader.Some? && FreshScript(env, StartBatch(w, limit), script)
    ensures Commit(env, w, limit, script, blobSync, write).1 ==
            ReportIs(View(w.disk.entries), w.disk.state.epoch, limit, script, write)
  {
    hide BatchInv, View, RunScript, FreshScript, TreeScript, TreeChanges, WorldInv, Unlink;
    StartInv(env, w, limit);
    InvReader(env, w);
    var s0 := StartBatch(w, limit);
    ScriptRefines(env, w.disk.entries, w.blobs, s0, script);
    if RunScript(env, s0, script).1 {
      ScriptChanges(env, w.disk.entries, w.blobs, s0, script);
    }
  }

  /** What a commit leaves in the blob directory. Nothing that was there is lost or changed, but
      a durable commit unlinks exactly what the new manifest, or an earlier one, gave up;
      a refused batch leaves nothing new behind. */
  ghost predicate BlobsAfter(env: Env, w: World, report: Report, w': World)
    requires w.reader.Some?
  {
    match report
    case Refused => Preserved(w.blobs, w'.blobs) && w'.blobs.Keys <= w.blobs.Keys + env.stuck
    case Unchanged => Preserved(w.blobs, w'.blobs)
    case Committed(durable) =>
      w'.reader.Some? &&
      var dropped := Elems(w.reader.value.pending) + (Ids(w.disk.entries) - Ids(w'.disk.entries));
      if durable then
        && w'.reader.value.pending == []
        && (forall x :: x in w.blobs && x in w'.blobs ==> w'.blobs[x] == w.blobs[x])
        && (forall x :: x in w.blobs ==> (x in w'.blobs <==> x !in dropped || x in env.stuck))
      else
        && dropped <= Elems(w'.reader.value.pending) && w.reader.value.pending <= w'.reader.value.pending
        && Preserved(w.blobs, w'.blobs)
  }

  lemma CommitBlobs(env: Env, w: World, limit: Option<nat>, script: seq<Step>, blobSync: bool, write: WriteOutcome)
    requires WorldInv(env, w) && w.reader.Some? && FreshScript(env, StartBatch(w, limit), script)
    ensures var (w', report) := Commit(env, w, limit, script, blobSync, write);
            && BlobsAfter(env, w, report, w')
            && w.durable * w'.blobs.Keys <= w'.durable && (report.Committed? && blobSync ==> w'.synced)
  {
    hide View, RunScript, FreshScript, TreeScript, BatchInv, WorldInv, Unlink, BlobsAfter;
    StartInv(env, w, limit);
    InvReader(env, w);
    var s0 := StartBatch(w, limit);
    ScriptRefines(env, w.disk.entries, w.blobs, s0, script);
    var (s, ok) := RunScript(env, s0, script);
    var (w', report) := Commit(env, w, limit, script, blobSync, write);
    match report {
      case Refused => RefusedBlobs(env, w, s, w');
      case Unchanged => UnchangedBlobs(env, w, s, w');
      case Committed(durable) => CommittedBlobs(env, w, s, durable, w');
    }
    DurableStays(env, w, s);
  }

  lemma DurableStays(env: Env, w: World, s: St)
    requires WorldInv(env, w) && BatchInv(env, w.disk.entries, w.blobs, s)
    ensures w.durable <= s.blobs.Keys
  {
    PreservedKeys(env, w, s);
  }

  lemma RefusedBlobs(env: Env, w: World, s: St, w': World)
    requires WorldInv(env, w) && BatchInv(env, w.disk.entries, w.blobs, s) && w.reader.Some?
    requires w'.blobs == Unlink(env, s.blobs, Elems(s.staged))
    ensures BlobsAfter(env, w, Refused, w')
  {
    RefusedKeeps(env, w, s);
    hide WorldInv, BatchInv, Unlink, Sound;
  }

  lemma UnchangedBlobs(env: Env, w: World, s: St, w': World)
    requires WorldInv(env, w) && BatchInv(env, w.disk.entries, w.blobs, s) && w.reader.Some? && w'.blobs == s.blobs
    ensures BlobsAfter(env, w, Unchanged, w')
  {
    hide Sound, WorldInv;
  }

  lemma CommittedBlobs(env: Env, w: World, s: St, durable: bool, w': World)
    requires WorldInv(env, w) && BatchInv(env, w.disk.entries, w.blobs, s) && w.reader.Some? && w'.reader.Some?
    requires w'.disk.entries == s.entries
    requires var queue := w.reader.value.pending + s.superseded;
             && w'.blobs == (if durable then Unlink(env, s.blobs, Elems(queue)) else s.blobs)
             && w'.reader.value.pending == if durable then [] else queue
    ensures BlobsAfter(env, w, Committed(durable), w')
  {
    assert Elems(w.reader.value.pending) !! Ids(w.disk.entries) && Elems(w.reader.value.pending) <= w.blobs.Keys;
    ElemsConcat(w.reader.value.pending, s.superseded);
    hide WorldInv, Sound, Ids, Elems;
  }

  lemma InvReader(env: Env, w: World)
    requires WorldInv(env, w) && w.reader.Some?
    ensures w.reader.value.entries == w.disk.entries && w.reader.value.state == w.disk.state
  {
  }

  lemma UnchangedEntries(env: Env, base: Entries, blobs0: Blobs, s: St)
    requires BatchInv(env, base, blobs0, s)
    ensures !s.changed ==> s.entries == base
  {
  }

  lemma RefusedInv(env: Env, w: World, s: St, blobSync: bool)
    requires WorldInv(env, w) && BatchInv(env, w.disk.entries, w.blobs, s)
    ensures var blobs := Unlink(env, s.blobs, Elems(s.staged));
            && WorldInv(env, w.(blobs := blobs))
            && WorldInv(env, w.(blobs := blobs, durable := (if blobSync then s.blobs.Keys else w.durable) * blobs.Keys))
  {
    RefusedKeeps(env, w, s);
    hide Sound, BatchInv;
    var blobs := Unlink(env, s.blobs, Elems(s.staged));
    assert w.blobs.Keys <= blobs.Keys;
    assert w.blobs.Keys <= s.blobs.Keys by { PreservedKeys(env, w, s); }
  }

  lemma PreservedKeys(env: Env, w: World, s: St)
    requires BatchInv(env, w.disk.entries, w.blobs, s)
    ensures w.blobs.Keys <= s.blobs.Keys
  {
  }

  lemma UnchangedInv(env: Env, w: World, s: St)
    requires WorldInv(env, w) && BatchInv(env, w.disk.entries, w.blobs, s)
    ensures WorldInv(env, w.(blobs := s.blobs))
  {
    hide TreeInv, Stored;
    forall m | m in w.possible
      ensures Sound(env, m.entries, s.blobs)
    {
      StoredFrame(env, m.entries, w.blobs, s.blobs);
    }
    PreservedKeys(env, w, s);
  }

  /** The heart of crash safety: what a commit unlinks is needed by no manifest that
      may survive it. */
  lemma CommittedInv(env: Env, w: World, s: St, blobSync: bool, write: WriteOutcome)
    requires WorldInv(env, w) && BatchInv(env, w.disk.entries, w.blobs, s) && w.reader.Some? && !write.Failed?
    requires NextState(w.reader.value, s.entries).Ok?
    ensures var r := w.reader.value;
            var durable := if blobSync then s.blobs.Keys else w.durable;
            var next := NextState(r, s.entries);
            var file := ManifestFile(next.value, s.entries);
            var queue := r.pending + s.superseded;
            var blobs := if write.Durable? then Unlink(env, s.blobs, Elems(queue)) else s.blobs;
            WorldInv(env, World(file, if write.Durable? then {file} else w.possible + {file},
                                blobs, durable * blobs.Keys,
                                blobSync || (w.synced && s.staged == []),
                                Some(Reader(s.entries, next.value, if write.Durable? then [] else queue))))
  {
    hide TreeInv, Stored;
    var r := w.reader.value;
    var queue := r.pending + s.superseded;
    ElemsConcat(r.pending, s.superseded);
    var live := Ids(s.entries);
    assert Elems(queue) !! live;
    IdsOnDisk(env, s.entries, s.blobs);
    if write.Durable? {
      UnlinkKeeps(env, s.entries, s.blobs, Elems(queue));
    } else {
      forall m | m in w.possible
        ensures Sound(env, m.entries, s.blobs) && Ids(m.entries) <= s.blobs.Keys
      {
        StoredFrame(env, m.entries, w.blobs, s.blobs);
        IdsOnDisk(env, m.entries, s.blobs);
      }
    }
    assert s.staged == [] ==> Elems(s.staged) == {};
  }

  /** Garbage collection never unlinks a blob a possibly surviving manifest needs. */
  lemma CollectKeeps(env: Env, w: World, dirSync: bool, blobSync: bool)
    requires WorldInv(env, w) && w.reader.Some?
    ensures var w' := Collect(env, w, dirSync, blobSync);
            && WorldInv(env, w') && w'.disk == w.disk
            && w'.possible == (if dirSync then {w.disk} else w.possible)
            && (!(dirSync && blobSync) ==> w'.blobs == w.blobs)
            && (dirSync && blobSync ==> w'.synced && w'.durable == w'.blobs.Keys)
            && (dirSync && blobSync ==> forall x :: x in w'.blobs && ValidBlobId(x) ==>
                x in Ids(w.disk.entries) || x in env.stuck)
  {
    hide TreeInv, Stored;
    if dirSync && blobSync {
      var gone := Orphans(w.blobs, w.disk.entries);
      UnlinkKeeps(env, w.disk.entries, w.blobs, gone);
      IdsOnDisk(env, w.disk.entries, Unlink(env, w.blobs, gone));
    }
  }

  /** A manifest whose blobs are durable, as all are that were written over synced blobs, finds
      them again when a crash brings it back, whatever happened to the others. */
  lemma RestartKeeps(env: Env, w: World, m: ManifestFile, blobs: Blobs)
    requires WorldInv(env, w) && m in w.possible && Ids(m.entries) <= w.durable && CrashBlobs(w, blobs)
    ensures var w' := Restart(env, w, m, blobs);
            && WorldInv(env, w') && w'.disk == m && w'.possible == {m}
            && w'.blobs == blobs && w'.durable == blobs.Keys && w'.synced
            && (w'.reader.Some? <==> LimitsHold(m.entries))
  {
    hide TreeInv;
    assert forall e :: e in m.entries && e.blob.Some? ==> e.blob.value.id in Ids(m.entries);
    forall e | e in m.entries
      ensures Stored(env, e, blobs)
    {
      assert Stored(env, e, w.blobs);
    }
    IdsOnDisk(env, m.entries, blobs);
    ValidIffLimits(env, m.entries, blobs);
  }

  // ----- exactly when a crash is harmless -----

  /** A surviving manifest finds its blobs after every possible crash exactly when
      all of them are durable: the blob-directory sync is what is needed. */
  lemma CrashSafeIff(env: Env, w: World, m: ManifestFile)
    requires WorldInv(env, w) && m in w.possible
    ensures (forall blobs: Blobs :: CrashBlobs(w, blobs) ==> AllStored(env, m.entries, blobs)) <==>
            Ids(m.entries) <= w.durable
  {
    hide TreeInv;
    if Ids(m.entries) <= w.durable {
      forall blobs: Blobs | CrashBlobs(w, blobs)
        ensures AllStored(env, m.entries, blobs)
      {
        forall e | e in m.entries
          ensures Stored(env, e, blobs)
        {
          assert Stored(env, e, w.blobs);
          if e.blob.Some? {
            IdsMembers(m.entries, e.blob.value.id);
          }
        }
      }
    } else {
      var x :| x in Ids(m.entries) && x !in w.durable;
      IdsMembers(m.entries, x);
      var e :| e in m.entries && e.blob.Some? && e.blob.value.id == x;
      var blobs := w.blobs - {x};
      assert CrashBlobs(w, blobs);
      assert !Stored(env, e, blobs);
    }
  }

  /** A commit over a failed blob-directory sync can lose the file it just stored. */
  lemma UnsyncedCommitCanLose(env: Env, w: World, limit: Option<nat>, script: seq<Step>, write: WriteOutcome, x: string)
    requires WorldInv(env, w) && w.reader.Some? && FreshScript(env, StartBatch(w, limit), script)
    requires var (w', report) := Commit(env, w, limit, script, false, write);
             report.Committed? && x in Ids(w'.disk.entries)
    requires x !in w.durable
    ensures var w' := Commit(env, w, limit, script, false, write).0;
            exists blobs: Blobs :: CrashBlobs(w', blobs) && !AllStored(env, w'.disk.entries, blobs)
  {
    hide RunScript, FreshScript, TreeScript, Sound, View, Unlink;
    CommitRefines(env, w, limit, script, false, write);
    var w' := Commit(env, w, limit, script, false, write).0;
    assert w'.durable <= w.durable;
    hide Commit;
    CrashSafeIff(env, w', w'.disk);
  }

  // ----- whole runs -----

  datatype Event =
    | DoCommit(limit: Option<nat>, script: seq<Step>, blobSync: bool, write: WriteOutcome)
    | DoCollect(dirSync: bool, blobSync: bool)
    | DoReopen
    | DoRestart(m: ManifestFile, blobs: Blobs)

  /** Edits and collections go through an open reader and draw fresh blob ids; a crash
      follows the disk model, and leaves a manifest whose blobs are durable. */
  ghost predicate Enabled(env: Env, w: World, e: Event)
  {
    match e
    case DoCommit(limit, script, _, _) => w.reader.Some? && FreshScript(env, StartBatch(w, limit), script)
    case DoCollect(_, _) => w.reader.Some?
    case DoReopen => true
    case DoRestart(m, blobs) => m in w.possible && Ids(m.entries) <= w.durable && CrashBlobs(w, blobs)
  }

  function Exec(env: Env, w: World, e: Event): World
  {
    match e
    case DoCommit(limit, script, blobSync, write) =>
      if w.reader.Some? then Commit(env, w, limit, script, blobSync, write).0 else w
    case DoCollect(dirSync, blobSync) => if w.reader.Some? then Collect(env, w, dirSync, blobSync) else w
    case DoReopen => Reopen(env, w)
    case DoRestart(m, blobs) => Restart(env, w, m, blobs)
  }

  ghost predicate EnabledRun(env: Env, w: World, events: seq<Event>)
    decreases |events|
  {
    events != [] ==> Enabled(env, w, events[0]) && EnabledRun(env, Exec(env, w, events[0]), events[1..])
  }

  function Run(env: Env, w: World, events: seq<Event>): World
    decreases |events|
  {
    if events == [] then w else Run(env, Exec(env, w, events[0]), events[1..])
  }

  /** What one event may do to the simple model: a batch that reported a commit
      performs its script; nothing else changes the tree, except a crash, which may
      bring back one of the survivors. */
  ghost predicate ModelStep(a: Model, e: Event, report: Report, b: Model)
  {
    match e
    case DoCommit(limit, script, _, _) =>
      var t := TreeScript(a.tree, script, 0, limit);
      if report.Committed? then t.Some? &&
          b == Model(t.value, if report.durable then {t.value} else a.survivors + {t.value})
      else (report.Unchanged? ==> t == Some(a.tree)) && b == a
    case DoCollect(dirSync, _) => b == if dirSync then Model(a.tree, {a.tree}) else a
    case DoReopen => b == a
    case DoRestart(m, _) => View(m.entries) in a.survivors && b == Model(View(m.entries), {View(m.entries)})
  }

  /** What it may do to the blob directory. */
  ghost predicate DirectoryStep(env: Env, w: World, e: Event, report: Report, w': World)
  {
    match e
    case DoCommit(_, _, _, _) => w.reader.Some? ==> BlobsAfter(env, w, report, w')
    case DoCollect(dirSync, blobSync) =>
      && Preserved(w'.blobs, w.blobs)
      && (forall x :: x in w.blobs ==>
            (x in w'.blobs <==>
              !(dirSync && blobSync) || !ValidBlobId(x) || x in Ids(w.disk.entries) || x in env.stuck))
    case DoReopen => w'.blobs == w.blobs
    case DoRestart(_, _) => CrashBlobs(w, w'.blobs)
  }

  ghost function ReportOf(env: Env, w: World, e: Event): Report
  {
    if e.DoCommit? && w.reader.Some? then Commit(env, w, e.limit, e.script, e.blobSync, e.write).1 else Unchanged
  }

  /** The simple model follows the run, event by event. */
  ghost predicate ModelFollows(env: Env, w: World, events: seq<Event>)
    decreases |events|
  {
    events != [] ==>
      var w' := Exec(env, w, events[0]);
      && ModelStep(ModelOf(w), events[0], ReportOf(env, w, events[0]), ModelOf(w'))
      && DirectoryStep(env, w, events[0], ReportOf(env, w, events[0]), w')
      && ModelFollows(env, w', events[1..])
  }

  lemma ReopenKeeps(env: Env, w: World)
    requires WorldInv(env, w)
    ensures WorldInv(env, Reopen(env, w)) && (Reopen(env, w).reader.Some? <==> LimitsHold(w.disk.entries))
  {
    hide TreeInv;
    ValidIffLimits(env, w.disk.entries, w.blobs);
  }

  lemma ExecRefines(env: Env, w: World, e: Event)
    requires WorldInv(env, w) && Enabled(env, w, e)
    ensures WorldInv(env, Exec(env, w, e))
    ensures ModelStep(ModelOf(w), e, ReportOf(env, w, e), ModelOf(Exec(env, w, e)))
    ensures DirectoryStep(env, w, e, ReportOf(env, w, e), Exec(env, w, e))
  {
    BlobsFollow(env, w, e);
    hide DirectoryStep;
    hide View, TreeScript, RunScript, FreshScript, Sound, VerifyPayload, CrashBlobs;
    var w' := Exec(env, w, e);
    match e {
      case DoCommit(limit, script, blobSync, write) =>
        CommitRefines(env, w, limit, script, blobSync, write);
        hide Commit;
        SurvivorTrees(w.possible, w'.disk);
        SurvivorTrees({}, w'.disk);
      case DoCollect(dirSync, blobSync) =>
        CollectKeeps(env, w, dirSync, blobSync);
        SurvivorTrees({}, w.disk);
      case DoReopen =>
        ReopenKeeps(env, w);
      case DoRestart(m, blobs) =>
        RestartKeeps(env, w, m, blobs);
        SurvivorTrees({}, m);
    }
  }

  lemma BlobsFollow(env: Env, w: World, e: Event)
    requires WorldInv(env, w) && Enabled(env, w, e)
    ensures DirectoryStep(env, w, e, ReportOf(env, w, e), Exec(env, w, e))
  {
    hide View, TreeScript, RunScript, FreshScript, Sound, VerifyPayload, BlobsAfter;
    match e {
      case DoCommit(limit, script, blobSync, write) =>
        CommitBlobs(env, w, limit, script, blobSync, write);
        hide Commit;
      case _ =>
    }
  }

  lemma SurvivorTrees(possible: set<ManifestFile>, m: ManifestFile)
    ensures Trees(possible + {m}) == Trees(possible) + {View(m.entries)}
    ensures possible == {} ==> Trees({m}) == {View(m.entries)} && possible + {m} == {m}
  {
    forall t | t in Trees(possible) + {View(m.entries)}
      ensures t in Trees(possible + {m})
    {
      if t == View(m.entries) {
        assert m in possible + {m};
      } else {
        var x :| x in possible && View(x.entries) == t;
        assert x in possible + {m};
      }
    }
  }

  /** Over every run the vault is the simple model: each event does to the tree, and to
      the set of trees a crash may bring back, exactly what the model says, and to the blob
      directory what `DirectoryStep` says; whatever manifest may survive references only blobs
      on disk. */
  lemma {:induction false} RunRefines(env: Env, w: World, events: seq<Event>)
    requires WorldInv(env, w) && EnabledRun(env, w, events)
    ensures WorldInv(env, Run(env, w, events)) && ModelFollows(env, w, events)
    decreases |events|
  {
    hide WorldInv, Enabled, Exec, ModelStep, DirectoryStep, ReportOf;
    if events != [] {
      ExecRefines(env, w, events[0]);
      RunRefines(env, Exec(env, w, events[0]), events[1..]);
    }
  }

  /** A freshly created, empty vault. */
  function Created(obj: Obj, suite: nat): World
  {
    var s := Next(obj, suite, None, []).value;
    var m := ManifestFile(s, []);
    World(m, {m}, map[], {}, true, Some(Reader([], s, [])))
  }

  lemma CreatedInv(env: Env, obj: Obj, suite: nat)
    ensures WorldInv(env, Created(obj, suite)) && ModelOf(Created(obj, suite)) == Model(map[], {map[]})
  {
    var w := Created(obj, suite);
    assert Ids([]) == {};
    SurvivorTrees({}, w.disk);
  }
}
