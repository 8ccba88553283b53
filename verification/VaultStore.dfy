/** A vault as the store uses it: the vault on disk, the anchor kept apart from it, and readers
    that edits go through as clones. */
module VaultStore {
  import opened Base
  import opened Stream
  import opened RandomAccess
  import opened Paths
  import opened VaultTree
  import opened Manifest
  import opened Batch
  import opened StateChain
  import opened Validation
  import opened VaultWorld

  /** `readers` are the open readers of a session, each possibly out of date. `failed` says that
      a commit replaced the manifest and its anchor could not be recorded, or that the
      program was restarted, and no reader was opened since; `quarantined`, that an open
      was refused and moved the directory away. */
  datatype Joint = Joint(w: World, obj: Obj, anchor: Option<Anchor<Entries>>, readers: set<Reader>,
                         failed: bool, quarantined: bool)

  /** One bounded batch of a mutation, with what the environment makes of it. */
  datatype Part = Part(script: seq<Step>, blobSync: bool, write: WriteOutcome, storage: bool)

  const LIMIT: Option<nat> := Some(1024)

  /** `ensure_current_vault`. */
  predicate Admits(j: Joint, r: Reader)
  {
    j.anchor.Some? ==> j.anchor.value.epoch == r.state.epoch && j.anchor.value.current == r.state.current
  }

  /** `accept_state`: the anchor after it, or a refusal. */
  function Accepted(anchor: Option<Anchor<Entries>>, s: State<Entries>, storage: bool): Option<Anchor<Entries>>
  {
    match anchor
    case None => if storage then Some(AnchorOf(s)) else None
    case Some(a) =>
      match CheckCandidate(a, s)
      case Err(_) => None
      case Ok(false) => Some(a)
      case Ok(true) => if storage then Some(AnchorOf(s)) else None
  }

  function Dropped(j: Joint): Joint { j.(w := j.w.(reader := None)) }

  /** The batches of a mutation, through the clone `j.w.reader`. */
  function CommitParts(env: Env, j: Joint, parts: seq<Part>): (Joint, bool)
    requires j.w.reader.Some?
    decreases |parts|
  {
    if parts == [] then (Dropped(j), true)
    else
      var p := parts[0];
      var (w, report) := Commit(env, j.w, LIMIT, p.script, p.blobSync, p.write);
      var anchor := Accepted(j.anchor, w.reader.value.state, p.storage);
      if report.Refused? then (Dropped(j.(w := w)), false)
      else if anchor.None? then (Dropped(j.(w := w, failed := true)), false)
      else CommitParts(env, j.(w := w, anchor := anchor), parts[1..])
  }

  /** `mutate_vault` and `mutate_vault_in_batches`: refused unless the reader is the anchored
      state; the clone is dropped, the reader itself never changes. */
  function Mutate(env: Env, j: Joint, r: Reader, parts: seq<Part>): (Joint, bool)
  {
    if j.quarantined || !Admits(j, r) then (j, false)
    else CommitParts(env, j.(w := j.w.(reader := Some(r))), parts)
  }

  /** `open_vault`: the manifest in place is checked against the anchor; garbage is collected. */
  function OpenVault(env: Env, j: Joint, storage: bool, dirSync: bool, blobSync: bool): (Joint, bool)
  {
    var w := Reopen(env, j.w);
    if j.quarantined || w.reader.None? then (j, false)
    else
      var anchor := Accepted(j.anchor, w.disk.state, storage);
      if anchor.None? then (j.(quarantined := true), false)
      else
        var w' := Collect(env, w, dirSync, blobSync);
        (Dropped(j.(w := w', anchor := anchor, readers := j.readers + {w.reader.value}, failed := false)), true)
  }

  /** A crash that leaves manifest `m` and blob directory `blobs`. */
  function Crashed(j: Joint, m: ManifestFile, blobs: Blobs): Joint
  {
    j.(w := World(m, {m}, blobs, blobs.Keys, true, None), readers := {}, failed := true)
  }

  ghost predicate FreshParts(env: Env, j: Joint, parts: seq<Part>)
    requires j.w.reader.Some?
    decreases |parts|
  {
    parts != [] ==>
      var p := parts[0];
      var (w, report) := Commit(env, j.w, LIMIT, p.script, p.blobSync, p.write);
      var anchor := Accepted(j.anchor, w.reader.value.state, p.storage);
      && FreshScript(env, StartBatch(j.w, LIMIT), p.script)
      && (!report.Refused? && anchor.Some? ==> FreshParts(env, j.(w := w, anchor := anchor), parts[1..]))
  }

  // ----- what every run keeps -----

  /** The states of all manifests that may survive: the one in place is the newest. */
  ghost predicate States(j: Joint)
  {
    && (forall m :: m in j.w.possible ==> m.state.obj == j.obj && m.state.epoch <= U64_MAX)
    && (forall m :: m in j.w.possible ==> m == j.w.disk || m.state.epoch < j.w.disk.state.epoch)
    && (j.anchor.Some? ==> j.anchor.value.obj == j.obj && j.anchor.value.epoch <= U64_MAX)
    && (!j.failed ==> j.anchor == Some(AnchorOf(j.w.disk.state)))
  }

  ghost predicate Readers(j: Joint)
  {
    forall r :: r in j.readers ==>
      r.pending == [] && VerifyPayload(r.state, r.entries) && r.state.obj == j.obj && TreeInv(r.entries) &&
          LimitsHold(r.entries)
  }

  ghost predicate JointInv(env: Env, j: Joint)
  {
    WorldInv(env, j.w) && j.w.reader.None? && States(j) && Readers(j)
  }

  /** Within a mutation: the clone is the manifest in place, and that is anchored. */
  ghost predicate InMutation(env: Env, j: Joint)
  {
    WorldInv(env, j.w) && j.w.reader.Some? && States(j) && Readers(j) && !j.failed
  }

  /** The state of a committed manifest follows the clone's. */
  lemma CommitStates(env: Env, w: World, limit: Option<nat>, script: seq<Step>, blobSync: bool, write: WriteOutcome)
    requires w.reader.Some?
    ensures var (w', report) := Commit(env, w, limit, script, blobSync, write);
            && w'.reader.Some? && (!report.Committed? ==>
                                   w'.reader == w.reader && w'.disk == w.disk && w'.possible == w.possible)
            && (report.Committed? ==>
                  && w'.reader.value.state == w'.disk.state && w'.reader.value.entries == w'.disk.entries
                  && NextState(w.reader.value, w'.disk.entries) == Ok(w'.disk.state)
                  && w'.disk in w'.possible && w'.possible <= w.possible + {w'.disk})
  {
    hide RunScript;
  }

  lemma DroppedInv(env: Env, j: Joint)
    requires WorldInv(env, j.w) && States(j) && Readers(j)
    ensures JointInv(env, Dropped(j))
  {
    hide Sound, VerifyPayload;
  }

  /** One batch keeps everything, however it ends. */
  lemma PartKeeps(env: Env, j: Joint, p: Part)
    requires InMutation(env, j) && FreshScript(env, StartBatch(j.w, LIMIT), p.script)
    ensures var (w, report) := Commit(env, j.w, LIMIT, p.script, p.blobSync, p.write);
            var anchor := Accepted(j.anchor, w.reader.value.state, p.storage);
            && (report.Refused? ==> InMutation(env, j.(w := w)))
            && (!report.Refused? && anchor.None? ==>
                  report.Committed? && WorldInv(env, w) && States(j.(w := w, failed := true)))
            && (!report.Refused? && anchor.Some? ==>
                  InMutation(env, j.(w := w, anchor := anchor)) && anchor == Some(AnchorOf(w.disk.state)))
  {
    CommitRefines(env, j.w, LIMIT, p.script, p.blobSync, p.write);
    CommitStates(env, j.w, LIMIT, p.script, p.blobSync, p.write);
    InvReader(env, j.w);
    DiskPossible(env, j.w);
    hide Commit, FreshScript, TreeScript, RunScript, WorldInv, View;
    var (w, report) := Commit(env, j.w, LIMIT, p.script, p.blobSync, p.write);
    var anchor := Accepted(j.anchor, w.reader.value.state, p.storage);
    ReadersFrame(j, j.(w := w));
    ReadersFrame(j, j.(w := w, anchor := anchor));
    hide Readers;
    if report.Committed? {
      NextStates(j, w);
      AnchorFollows(j, w, p.storage);
    } else {
      assert w.reader.value.state == j.w.disk.state;
    }
  }

  lemma ReadersFrame(j: Joint, k: Joint)
    requires Readers(j) && k.readers == j.readers && k.obj == j.obj
    ensures Readers(k)
  {
    hide VerifyPayload, TreeInv, LimitsHold;
  }

  /** The new manifest is the newest of all that may survive. */
  lemma NextStates(j: Joint, w: World)
    requires States(j) && j.w.disk in j.w.possible && j.w.reader.Some? && j.w.reader.value.state == j.w.disk.state
    requires NextState(j.w.reader.value, w.disk.entries) == Ok(w.disk.state) && w.possible <= j.w.possible + {w.disk}
    ensures States(j.(w := w, failed := true)) && States(j.(w := w, anchor := Some(AnchorOf(w.disk.state))))
  {
  }

  /** It is the successor the anchor accepts, if that can be recorded. */
  lemma AnchorFollows(j: Joint, w: World, storage: bool)
    requires States(j) && !j.failed && j.w.reader.Some? && j.w.reader.value.state == j.w.disk.state
    requires NextState(j.w.reader.value, w.disk.entries) == Ok(w.disk.state)
    ensures Accepted(j.anchor, w.disk.state, storage) == if storage then Some(AnchorOf(w.disk.state)) else None
  {
  }

  lemma DiskPossible(env: Env, w: World)
    requires WorldInv(env, w)
    ensures w.disk in w.possible
  {
  }

  /** The batches on the simple model. */
  function TreeParts(t: Tree, parts: seq<Part>): Option<Tree>
    decreases |parts|
  {
    if parts == [] then Some(t)
    else
      match TreeScript(t, parts[0].script, 0, LIMIT)
      case None => None
      case Some(u) => TreeParts(u, parts[1..])
  }

  /** A mutation through the current state keeps everything, however it ends; success is
      exactly its batches on the tree. */
  lemma {:induction false} PartsKeep(env: Env, j: Joint, parts: seq<Part>)
    requires InMutation(env, j) && FreshParts(env, j, parts)
    ensures var (j', ok) := CommitParts(env, j, parts);
            && JointInv(env, j') && j'.obj == j.obj && j'.readers == j.readers && j'.quarantined == j.quarantined
            && (ok ==> !j'.failed && TreeParts(View(j.w.disk.entries), parts) == Some(View(j'.w.disk.entries)))
    decreases |parts|
  {
    hide Commit, TreeScript, WorldInv, View, States, FreshScript;
    if parts == [] {
      DroppedInv(env, j);
    } else {
      var p := parts[0];
      PartKeeps(env, j, p);
      CommitStates(env, j.w, LIMIT, p.script, p.blobSync, p.write);
      CommitRefines(env, j.w, LIMIT, p.script, p.blobSync, p.write);
      var (w, report) := Commit(env, j.w, LIMIT, p.script, p.blobSync, p.write);
      var anchor := Accepted(j.anchor, w.reader.value.state, p.storage);
      if report.Refused? {
        DroppedInv(env, j.(w := w));
      } else if anchor.None? {
        DroppedInv(env, j.(w := w, failed := true));
      } else {
        PartsKeep(env, j.(w := w, anchor := anchor), parts[1..]);
      }
    }
  }

  /** A reader the store admits is the manifest in place, if that is what is anchored. */
  lemma AdmittedIsCurrent(env: Env, j: Joint, r: Reader)
    requires JointInv(env, j) && r in j.readers && Admits(j, r) && j.anchor == Some(AnchorOf(j.w.disk.state))
    ensures r.state == j.w.disk.state && r.entries == j.w.disk.entries
    ensures WorldInv(env, j.w.(reader := Some(r)))
  {
    hide Sound, TreeInv, LimitsHold;
    assert VerifyPayload(j.w.disk.state, j.w.disk.entries) && VerifyPayload(r.state, r.entries);
    assert Elems([]) == {};
  }

  lemma MutateKeeps(env: Env, j: Joint, r: Reader, parts: seq<Part>)
    requires JointInv(env, j) && r in j.readers && !j.failed
    requires FreshParts(env, j.(w := j.w.(reader := Some(r))), parts)
    ensures var (j', ok) := Mutate(env, j, r, parts);
            && JointInv(env, j')
            && (ok ==> !j'.failed && TreeParts(View(j.w.disk.entries), parts) == Some(View(j'.w.disk.entries)))
  {
    if !j.quarantined && Admits(j, r) {
      AdmittedIsCurrent(env, j, r);
      hide WorldInv, FreshParts, CommitParts, TreeParts;
      PartsKeep(env, j.(w := j.w.(reader := Some(r))), parts);
    }
  }

  /** An accepted state is the anchored one. */
  lemma AcceptedIs(anchor: Option<Anchor<Entries>>, s: State<Entries>, storage: bool)
    requires Accepted(anchor, s, storage).Some?
    ensures Accepted(anchor, s, storage) == Some(AnchorOf(s))
  {
  }

  lemma OpenKeeps(env: Env, j: Joint, storage: bool, dirSync: bool, blobSync: bool)
    requires JointInv(env, j)
    ensures var (j', ok) := OpenVault(env, j, storage, dirSync, blobSync);
            JointInv(env, j') && j'.w.disk == j.w.disk && (ok ==> !j'.failed)
  {
    var w := Reopen(env, j.w);
    ReopenKeeps(env, j.w);
    if !j.quarantined && w.reader.Some? && Accepted(j.anchor, w.disk.state, storage).Some? {
      AcceptedIs(j.anchor, w.disk.state, storage);
      CollectKeeps(env, w, dirSync, blobSync);
      assert TreeInv(w.disk.entries) && w.disk in w.possible;
      var w' := Collect(env, w, dirSync, blobSync);
      hide Collect, WorldInv, TreeInv, LimitsHold, ManifestOk;
      var j' := OpenVault(env, j, storage, dirSync, blobSync).0;
      OpenedStates(env, j, w', j');
    }
  }

  lemma OpenedStates(env: Env, j: Joint, w': World, j': Joint)
    requires JointInv(env, j) && WorldInv(env, w') && w'.disk == j.w.disk && w'.possible <= j.w.possible + {j.w.disk}
    requires j'.w == w'.(reader := None) && j'.anchor == Some(AnchorOf(j.w.disk.state)) && j'.obj == j.obj &&
             Readers(j')
    ensures JointInv(env, j')
  {
    hide Sound, TreeInv, LimitsHold, VerifyPayload;
  }

  lemma CrashKeeps(env: Env, j: Joint, m: ManifestFile, blobs: Blobs)
    requires JointInv(env, j) && m in j.w.possible && Ids(m.entries) <= j.w.durable && CrashBlobs(j.w, blobs)
    ensures JointInv(env, Crashed(j, m, blobs))
  {
    RestartKeeps(env, j.w, m, blobs);
    hide CrashBlobs, Sound, VerifyPayload, ManifestOk, LimitsHold, TreeInv;
  }

  // ----- when an operation of the store succeeds -----

  /** A batch goes, by the simple model: its script gets through, and what it changes has an epoch
      left and can be written and anchored. */
  predicate PartGoes(t: Tree, epoch: nat, p: Part)
  {
    && TreeScript(t, p.script, 0, LIMIT).Some?
    && (TreeChanges(t, p.script, 0, LIMIT) ==> !p.write.Failed? && epoch < U64_MAX && p.storage)
  }

  predicate PartsGo(t: Tree, epoch: nat, parts: seq<Part>)
    decreases |parts|
  {
    parts == [] ||
    (PartGoes(t, epoch, parts[0]) &&
     PartsGo(TreeScript(t, parts[0].script, 0, LIMIT).value,
             if TreeChanges(t, parts[0].script, 0, LIMIT) then epoch + 1 else epoch, parts[1..]))
  }

  lemma PartIff(env: Env, j: Joint, p: Part)
    requires InMutation(env, j) && FreshScript(env, StartBatch(j.w, LIMIT), p.script)
    ensures var (w, report) := Commit(env, j.w, LIMIT, p.script, p.blobSync, p.write);
            var anchor := Accepted(j.anchor, w.reader.value.state, p.storage);
            var t, epoch := View(j.w.disk.entries), j.w.disk.state.epoch;
            && (!report.Refused? && anchor.Some? <==> PartGoes(t, epoch, p))
            && (PartGoes(t, epoch, p) ==>
                  && TreeScript(t, p.script, 0, LIMIT) == Some(View(w.disk.entries))
                  && w.disk.state.epoch == if TreeChanges(t, p.script, 0, LIMIT) then epoch + 1 else epoch)
  {
    CommitRefines(env, j.w, LIMIT, p.script, p.blobSync, p.write);
    CommitReports(env, j.w, LIMIT, p.script, p.blobSync, p.write);
    CommitStates(env, j.w, LIMIT, p.script, p.blobSync, p.write);
    InvReader(env, j.w);
    hide Commit, FreshScript, TreeScript, TreeChanges, RunScript, WorldInv, View, Readers;
    var (w, report) := Commit(env, j.w, LIMIT, p.script, p.blobSync, p.write);
    if report.Committed? {
      AnchorFollows(j, w, p.storage);
    } else {
      assert w.reader.value.state == j.w.disk.state;
    }
  }

  lemma {:induction false} PartsIff(env: Env, j: Joint, parts: seq<Part>)
    requires InMutation(env, j) && FreshParts(env, j, parts)
    ensures CommitParts(env, j, parts).1 <==> PartsGo(View(j.w.disk.entries), j.w.disk.state.epoch, parts)
    decreases |parts|
  {
    hide Commit, TreeScript, TreeChanges, PartGoes, WorldInv, States, Readers, View, FreshScript;
    if parts != [] {
      var p := parts[0];
      CommitStates(env, j.w, LIMIT, p.script, p.blobSync, p.write);
      PartKeeps(env, j, p);
      PartIff(env, j, p);
      var (w, report) := Commit(env, j.w, LIMIT, p.script, p.blobSync, p.write);
      var anchor := Accepted(j.anchor, w.reader.value.state, p.storage);
      if !report.Refused? && anchor.Some? {
        PartsIff(env, j.(w := w, anchor := anchor), parts[1..]);
      }
    }
  }

  /** A mutation of a vault whose last commit was anchored is done exactly if its reader is the
      manifest in place and every batch goes. */
  lemma MutateIff(env: Env, j: Joint, r: Reader, parts: seq<Part>)
    requires JointInv(env, j) && r in j.readers && !j.failed && !j.quarantined
    requires FreshParts(env, j.(w := j.w.(reader := Some(r))), parts)
    ensures Mutate(env, j, r, parts).1 <==>
              && r.state == j.w.disk.state && r.entries == j.w.disk.entries
              && PartsGo(View(j.w.disk.entries), j.w.disk.state.epoch, parts)
  {
    if Admits(j, r) {
      AdmittedIsCurrent(env, j, r);
      hide WorldInv, FreshParts, CommitParts, PartsGo, View;
      PartsIff(env, j.(w := j.w.(reader := Some(r))), parts);
    }
  }

  /** The state is anchored, or can be: as the first one, or as the direct successor. */
  predicate Anchorable(anchor: Option<Anchor<Entries>>, s: State<Entries>, storage: bool)
  {
    match anchor
    case None => storage
    case Some(a) => AnchorOf(s) == a || (storage && s.epoch == a.epoch + 1 && s.previous == a.current)
  }

  /** A vault opens exactly if it was not quarantined, its manifest is within the limits, and it is
      the anchored one, or can be anchored as the successor or the first. */
  lemma OpenIff(env: Env, j: Joint, storage: bool, dirSync: bool, blobSync: bool)
    requires JointInv(env, j)
    ensures var s := j.w.disk.state;
            var (j', ok) := OpenVault(env, j, storage, dirSync, blobSync);
            && (ok <==> !j.quarantined && LimitsHold(j.w.disk.entries) && Anchorable(j.anchor, s, storage))
            && (ok ==> j'.anchor == Some(AnchorOf(s)) && !j'.quarantined &&
                       exists r :: r in j'.readers && r.state == s && r.entries == j.w.disk.entries)
            && (!ok ==> j'.w == j.w && j'.anchor == j.anchor && j'.readers == j.readers)
  {
    ReopenKeeps(env, j.w);
    DiskPossible(env, j.w);
    hide WorldInv, ManifestOk, LimitsHold, Readers, Collect;
    var w := Reopen(env, j.w);
    if w.reader.Some? {
      AcceptedIff(j.anchor, j.w.disk.state, storage);
    }
    hide CheckCandidate;
    var (j', ok) := OpenVault(env, j, storage, dirSync, blobSync);
    if ok {
      assert w.reader.value in j'.readers && w.reader.value.state == j.w.disk.state;
    }
  }

  lemma AcceptedIff(anchor: Option<Anchor<Entries>>, s: State<Entries>, storage: bool)
    requires anchor.Some? ==> anchor.value.obj == s.obj && anchor.value.epoch <= U64_MAX && s.epoch <= U64_MAX
    ensures Accepted(anchor, s, storage) == if Anchorable(anchor, s, storage) then Some(AnchorOf(s)) else None
  {
  }

  // ----- whole runs -----

  datatype Event =
    | DoMutate(r: Reader, parts: seq<Part>)
    | DoOpen(storage: bool, dirSync: bool, blobSync: bool)
    | DoCrash(m: ManifestFile, blobs: Blobs)

  /** Edits go through any open reader, stale or not, but not after a commit whose anchor failed
      until the vault was opened again: that is the callers' part. */
  ghost predicate Enabled(env: Env, j: Joint, e: Event)
  {
    match e
    case DoMutate(r, parts) =>
      r in j.readers && !j.failed && FreshParts(env, j.(w := j.w.(reader := Some(r))), parts)
    case DoOpen(_, _, _) => true
    case DoCrash(m, blobs) => m in j.w.possible && Ids(m.entries) <= j.w.durable && CrashBlobs(j.w, blobs)
  }

  function Exec(env: Env, j: Joint, e: Event): Joint
  {
    match e
    case DoMutate(r, parts) => Mutate(env, j, r, parts).0
    case DoOpen(storage, dirSync, blobSync) => OpenVault(env, j, storage, dirSync, blobSync).0
    case DoCrash(m, blobs) => Crashed(j, m, blobs)
  }

  ghost predicate EnabledRun(env: Env, j: Joint, events: seq<Event>)
    decreases |events|
  {
    events != [] ==> Enabled(env, j, events[0]) && EnabledRun(env, Exec(env, j, events[0]), events[1..])
  }

  function Run(env: Env, j: Joint, events: seq<Event>): Joint
    decreases |events|
  {
    if events == [] then j else Run(env, Exec(env, j, events[0]), events[1..])
  }

  /** Over every such run, through clones and stale readers, with anchors that fail and crashes
      that bring back older manifests, no manifest that may survive misses a blob. */
  lemma {:induction false} RunKeeps(env: Env, j: Joint, events: seq<Event>)
    requires JointInv(env, j) && EnabledRun(env, j, events)
    ensures JointInv(env, Run(env, j, events))
    decreases |events|
  {
    hide JointInv, Enabled, Exec;
    if events != [] {
      EventKeeps(env, j, events[0]);
      RunKeeps(env, Exec(env, j, events[0]), events[1..]);
    }
  }

  lemma EventKeeps(env: Env, j: Joint, e: Event)
    requires JointInv(env, j) && Enabled(env, j, e)
    ensures JointInv(env, Exec(env, j, e))
  {
    hide JointInv, FreshParts, Mutate, OpenVault, Crashed, TreeParts, View;
    match e
    case DoMutate(r, parts) => MutateKeeps(env, j, r, parts);
    case DoOpen(storage, dirSync, blobSync) => OpenKeeps(env, j, storage, dirSync, blobSync);
    case DoCrash(m, blobs) => CrashKeeps(env, j, m, blobs);
  }

  // ----- what an open accepts -----

  /** The next open takes a manifest if and only if it is the anchored one or its direct
      successor. */
  lemma OpensIff(a: Anchor<Entries>, s: State<Entries>)
    requires a.obj == s.obj && a.epoch <= U64_MAX && s.epoch <= U64_MAX
    ensures Accepted(Some(a), s, true).Some? <==>
            AnchorOf(s) == a || (s.epoch == a.epoch + 1 && s.previous == a.current)
  {
  }

  /** After any run in which the last commit was anchored, a crash leaves a vault that opens if
      and only if the survivor is the manifest last put in place: an older one, back because
      the rename was not durable, is refused as a rollback and the vault is quarantined. */
  lemma SurvivorOpensIff(env: Env, j: Joint, m: ManifestFile, blobs: Blobs, dirSync: bool, blobSync: bool)
    requires JointInv(env, j) && !j.failed && !j.quarantined
    requires m in j.w.possible && Ids(m.entries) <= j.w.durable && CrashBlobs(j.w, blobs) && LimitsHold(m.entries)
    ensures var (j', ok) := OpenVault(env, Crashed(j, m, blobs), true, dirSync, blobSync);
            && (ok <==> m == j.w.disk) && (!ok ==> j'.quarantined)
  {
    CrashKeeps(env, j, m, blobs);
    var c := Crashed(j, m, blobs);
    ReopenKeeps(env, c.w);
    OpensIff(j.anchor.value, m.state);
    hide Collect, CrashBlobs, Sound, ManifestOk, LimitsHold, TreeInv;
  }

  // ----- a reader whose transaction failed -----

  lemma StartsSound(env: Env, w: World, r: Reader)
    requires Sound(env, r.entries, w.blobs) && w.reader == Some(r)
    ensures BatchInv(env, r.entries, w.blobs, StartBatch(w, LIMIT))
  {
    hide TreeInv, Stored;
    IdsOnDisk(env, r.entries, w.blobs);
    assert Elems([]) == {};
  }

  lemma ScriptSound(env: Env, w: World, r: Reader, script: seq<Step>)
    requires Sound(env, r.entries, w.blobs) && w.reader == Some(r) && FreshScript(env, StartBatch(w, LIMIT), script)
    ensures var s := RunScript(env, StartBatch(w, LIMIT), script).0;
            AllStored(env, s.entries, s.blobs) && Elems(s.superseded) !! Ids(s.entries)
  {
    StartsSound(env, w, r);
    hide FreshScript, TreeInv, View, TreeScript, Stored, RunScript, Ids, Preserved;
    ScriptRefines(env, r.entries, w.blobs, StartBatch(w, LIMIT), script);
  }

  /** A commit through a reader that finds its blobs, whatever is on disk. */
  lemma CommitThrough(env: Env, w: World, r: Reader, script: seq<Step>, blobSync: bool, write: WriteOutcome)
    requires r.pending == [] && Sound(env, r.entries, w.blobs) && w.reader == Some(r)
    requires FreshScript(env, StartBatch(w, LIMIT), script)
    ensures var (w', report) := Commit(env, w, LIMIT, script, blobSync, write);
            report.Committed? ==> AllStored(env, w'.disk.entries, w'.blobs)
  {
    ScriptSound(env, w, r, script);
    hide FreshScript, Sound, AllStored, Unlink, RunScript, Ids, Elems;
    var s := RunScript(env, StartBatch(w, LIMIT), script).0;
    assert [] + s.superseded == s.superseded;
    UnlinkKeeps(env, s.entries, s.blobs, Elems(s.superseded));
  }

  /** A durable commit of a single edit. */
  lemma CommitOne(env: Env, w: World, op: Op, s: St, blobSync: bool)
    requires w.reader.Some? && w.reader.value.pending == [] && w.reader.value.state.epoch < U64_MAX
    requires Apply(env, StartBatch(w, LIMIT), op) == (s, true) && s.changed && Fresh(env, StartBatch(w, LIMIT), op)
    ensures var script := [Step(op, true)];
            var (w', report) := Commit(env, w, LIMIT, script, blobSync, Durable);
            && FreshScript(env, StartBatch(w, LIMIT), script)
            && report.Committed? && w'.blobs == Unlink(env, s.blobs, Elems(s.superseded)) &&
               w'.disk.entries == s.entries
  {
    var script, s0 := [Step(op, true)], StartBatch(w, LIMIT);
    assert script[1..] == [];
    assert RunScript(env, s, []) == (s, true) && FreshScript(env, s, []);
    hide Apply, Fresh, Unlink;
    assert RunScript(env, s0, script) == (s, true);
    assert [] + s.superseded == s.superseded;
  }

  /** The stored path of an entry is found again by its name. */
  lemma FindsEntry(es: Entries, i: nat)
    requires TreeInv(es) && LimitsHold(es) && i < |es|
    ensures NormalizeStored(Join(es[i].path)) == Ok(es[i].path) && es[i].path in Index(es) && Index(es)[es[i].path] == i
  {
    assert EntryShape(es[i]) && es[i] in es;
    hide View, EntryShape;
    LegalNormalizes(es[i].path);
    IndexIsLinearSearch(es, es[i].path);
  }

  lemma TouchApplies(env: Env, s: St, i: nat, attr: Attr)
    requires TreeInv(s.entries) && LimitsHold(s.entries) && i < |s.entries| && s.ops == 0 && s.limit == LIMIT
    ensures var e := s.entries[i];
            Apply(env, s, SetAttr(Join(e.path), attr)) ==
            (s.(ops := 1, entries := s.entries[i := e.(attr := attr)], changed := true), true)
  {
    FindsEntry(s.entries, i);
    hide NormalizeStored, Index, TreeInv, LimitsHold, Join;
    assert Apply(env, s, SetAttr(Join(s.entries[i].path), attr)) == ApplySetAttr(s, Join(s.entries[i].path), attr);
  }

  /** Touching an entry keeps its blob reference and every blob. */
  lemma TouchCommits(env: Env, w: World, r: Reader, i: nat, attr: Attr, blobSync: bool)
    requires w.reader == Some(r) && r.pending == [] && TreeInv(r.entries) && LimitsHold(r.entries)
    requires i < |r.entries| && r.state.epoch < U64_MAX
    ensures var script := [Step(SetAttr(Join(r.entries[i].path), attr), true)];
            var (w', report) := Commit(env, w, LIMIT, script, blobSync, Durable);
            && FreshScript(env, StartBatch(w, LIMIT), script)
            && report.Committed? && w'.blobs == w.blobs &&
               w'.disk.entries == r.entries[i := r.entries[i].(attr := attr)]
  {
    hide TreeInv, LimitsHold, Join, Apply, Commit, FreshScript;
    var s0, op := StartBatch(w, LIMIT), SetAttr(Join(r.entries[i].path), attr);
    TouchApplies(env, s0, i, attr);
    CommitOne(env, w, op, Apply(env, s0, op).0, blobSync);
    assert Elems([]) == {};
    assert w.blobs - {} == w.blobs;
  }

  lemma RemoveApplies(env: Env, s: St, i: nat)
    requires TreeInv(s.entries) && LimitsHold(s.entries) && i < |s.entries| && s.ops == 0 && s.limit == LIMIT
    requires s.entries[i].blob.Some? && s.superseded == []
    ensures var e := s.entries[i];
            var (s', ok) := Apply(env, s, Remove(Join(e.path)));
            ok && s'.changed && e.blob.value.id in s'.superseded
  {
    var e := s.entries[i];
    FindsEntry(s.entries, i);
    RemoveMembers(s.entries, e.path);
    RemoveNothing(s.entries, e.path);
    hide NormalizeStored, Index, TreeInv, LimitsHold, Join, RemoveEntries, RemovedIds;
    assert e in s.entries && Under(e.path, e.path);
    assert e.blob.value.id in RemovedIds(s.entries, e.path);
    assert Apply(env, s, Remove(Join(e.path))) == ApplyRemove(s, Join(e.path));
  }

  /** Removing a file by name supersedes its blob. */
  lemma RemoveCommits(env: Env, w: World, r: Reader, i: nat, blobSync: bool)
    requires w.reader == Some(r) && r.pending == [] && TreeInv(r.entries) && LimitsHold(r.entries)
    requires i < |r.entries| && r.state.epoch < U64_MAX && r.entries[i].blob.Some?
    ensures var script := [Step(Remove(Join(r.entries[i].path)), true)];
            var (w', report) := Commit(env, w, LIMIT, script, blobSync, Durable);
            && FreshScript(env, StartBatch(w, LIMIT), script) && report.Committed?
            && (r.entries[i].blob.value.id !in env.stuck ==> r.entries[i].blob.value.id !in w'.blobs)
  {
    hide TreeInv, LimitsHold, Join, Apply, Commit, FreshScript;
    var s0, op := StartBatch(w, LIMIT), Remove(Join(r.entries[i].path));
    RemoveApplies(env, s0, i);
    var s := Apply(env, s0, op).0;
    CommitOne(env, w, op, s, blobSync);
    assert r.entries[i].blob.value.id in Elems(s.superseded);
  }

  /** Exactly when an edit the store admits keeps every blob, whatever the edit is: the reader
      it goes through finds all its blobs. */
  lemma AdmittedEditIff(env: Env, j: Joint, r: Reader)
    requires JointInv(env, j) && r in j.readers && Admits(j, r) && r.state.epoch < U64_MAX
    ensures var w := j.w.(reader := Some(r));
            (forall script, blobSync, write ::
               FreshScript(env, StartBatch(w, LIMIT), script) ==>
               var (w', report) := Commit(env, w, LIMIT, script, blobSync, write);
               report.Committed? ==> AllStored(env, w'.disk.entries, w'.blobs))
            <==> AllStored(env, r.entries, j.w.blobs)
  {
    var w := j.w.(reader := Some(r));
    hide Commit, FreshScript, WorldInv, States, TreeInv, LimitsHold, Stored;
    if AllStored(env, r.entries, j.w.blobs) {
      forall script, blobSync, write | FreshScript(env, StartBatch(w, LIMIT), script)
        ensures var (w', report) := Commit(env, w, LIMIT, script, blobSync, write);
                report.Committed? ==> AllStored(env, w'.disk.entries, w'.blobs)
      {
        CommitThrough(env, w, r, script, blobSync, write);
      }
    } else {
      var e :| e in r.entries && !Stored(env, e, j.w.blobs);
      var i :| 0 <= i < |r.entries| && r.entries[i] == e;
      TouchCommits(env, w, r, i, e.attr, false);
      assert r.entries[i := e.(attr := e.attr)] == r.entries;
    }
  }

  /** After a commit through the current reader whose anchor could not be recorded, the store
      still admits that reader; it finds all its blobs if and only if the commit was not
      known to be durable or superseded none of them that could be unlinked. */
  lemma FailedCommitIff(env: Env, j: Joint, r: Reader, p: Part)
    requires JointInv(env, j) && !j.failed && r in j.readers && Admits(j, r) && !j.quarantined && !p.storage
    requires FreshScript(env, StartBatch(j.w.(reader := Some(r)), LIMIT), p.script)
    requires Commit(env, j.w.(reader := Some(r)), LIMIT, p.script, p.blobSync, p.write).1.Committed?
    ensures var (j', ok) := Mutate(env, j, r, [p]);
            var s := RunScript(env, StartBatch(j.w.(reader := Some(r)), LIMIT), p.script).0;
            && !ok && Admits(j', r) && j'.failed
            && (AllStored(env, r.entries, j'.w.blobs) <==>
                  !p.write.Durable? || Elems(s.superseded) * Ids(r.entries) <= env.stuck)
  {
    AdmittedIsCurrent(env, j, r);
    var w := j.w.(reader := Some(r));
    OnePart(env, j, r, p);
    CommitStates(env, w, LIMIT, p.script, p.blobSync, p.write);
    AnchorFollows(j.(w := w), Commit(env, w, LIMIT, p.script, p.blobSync, p.write).0, false);
    assert Sound(env, r.entries, j.w.blobs) by { assert j.w.disk in j.w.possible; }
    hide FreshScript, RunScript, TreeScript, View, TreeInv, LimitsHold, States, WorldInv, Mutate, Stored, AllStored,
         Unlink;
    CommitBlobs(env, w, r, p);
  }

  /** What a commit leaves of the blobs its reader needs. */
  lemma CommitBlobs(env: Env, w: World, r: Reader, p: Part)
    requires w.reader == Some(r) && r.pending == [] && Sound(env, r.entries, w.blobs)
    requires FreshScript(env, StartBatch(w, LIMIT), p.script)
    requires Commit(env, w, LIMIT, p.script, p.blobSync, p.write).1.Committed?
    ensures var w' := Commit(env, w, LIMIT, p.script, p.blobSync, p.write).0;
            var s := RunScript(env, StartBatch(w, LIMIT), p.script).0;
            AllStored(env, r.entries, w'.blobs) <==>
                !p.write.Durable? || Elems(s.superseded) * Ids(r.entries) <= env.stuck
  {
    var s0 := StartBatch(w, LIMIT);
    StartsSound(env, w, r);
    ScriptRefines(env, r.entries, w.blobs, s0, p.script);
    var s := RunScript(env, s0, p.script).0;
    assert Preserved(w.blobs, s.blobs) && AllStored(env, r.entries, w.blobs);
    hide FreshScript, RunScript, TreeScript, View, TreeInv, BatchInv, Stored, AllStored, Unlink, Preserved;
    StillStored(env, r.entries, w.blobs, s.blobs);
    UnlinkLoses(env, r.entries, s.blobs, Elems(s.superseded));
    assert [] + s.superseded == s.superseded;
  }

  lemma StillStored(env: Env, es: Entries, blobs: Blobs, more: Blobs)
    requires AllStored(env, es, blobs) && Preserved(blobs, more)
    ensures AllStored(env, es, more)
  {
    forall e | e in es
      ensures Stored(env, e, more)
    {
      assert Stored(env, e, blobs);
    }
  }

  lemma UnlinkLoses(env: Env, es: Entries, blobs: Blobs, ids: set<string>)
    requires AllStored(env, es, blobs)
    ensures AllStored(env, es, Unlink(env, blobs, ids)) <==> ids * Ids(es) <= env.stuck
  {
    if ids * Ids(es) <= env.stuck {
      forall e | e in es
        ensures Stored(env, e, Unlink(env, blobs, ids))
      {
        assert Stored(env, e, blobs);
        if e.blob.Some? {
          IdsMembers(es, e.blob.value.id);
        }
      }
    } else {
      var x :| x in ids * Ids(es) && x !in env.stuck;
      IdsMembers(es, x);
      var e :| e in es && e.blob.Some? && e.blob.value.id == x;
      assert !Stored(env, e, Unlink(env, blobs, ids));
    }
  }

  /** The run that loses a file: it is removed, durably, but the anchor cannot be recorded and
      the mutation is reported as failed; the session goes on with the reader it has,
      which the store admits; its next edit, reported as done, commits a manifest that
      still names the file, whose blob is gone. */
  lemma FailedAnchorLosesFile(env: Env, j: Joint, r: Reader, i: nat, attr: Attr, blobSync: bool)
    requires JointInv(env, j) && !j.failed && !j.quarantined && r in j.readers && Admits(j, r)
    requires i < |r.entries| && r.entries[i].blob.Some? && r.entries[i].blob.value.id !in env.stuck
    requires r.state.epoch < U64_MAX
    ensures var name := Join(r.entries[i].path);
            var (j1, ok1) := Mutate(env, j, r, [Part([Step(Remove(name), true)], blobSync, Durable, false)]);
            var (j2, ok2) := Mutate(env, j1, r, [Part([Step(SetAttr(name, attr), true)], blobSync, Durable, true)]);
            && !ok1 && Admits(j1, r) && ok2
            && r.entries[i].(attr := attr) in j2.w.disk.entries && !AllStored(env, j2.w.disk.entries, j2.w.blobs)
  {
    var name := Join(r.entries[i].path);
    AdmittedIsCurrent(env, j, r);
    assert r.pending == [] && TreeInv(r.entries) && LimitsHold(r.entries);
    assert VerifyPayload(r.state, r.entries) && r.state.obj == j.obj;
    hide TreeInv, LimitsHold, Join, WorldInv, Commit, FreshScript, Mutate, AllStored;
    RemoveCommits(env, j.w.(reader := Some(r)), r, i, blobSync);
    var p1 := Part([Step(Remove(name), true)], blobSync, Durable, false);
    FailedCommitIff(env, j, r, p1);
    var j1 := Mutate(env, j, r, [p1]).0;
    OnePart(env, j, r, p1);
    TouchLoses(env, j1, r, i, attr, blobSync);
  }

  /** The second half: the stale edit. */
  lemma TouchLoses(env: Env, j: Joint, r: Reader, i: nat, attr: Attr, blobSync: bool)
    requires !j.quarantined && j.anchor == Some(AnchorOf(r.state)) && r.pending == [] && r.state.epoch < U64_MAX
    requires TreeInv(r.entries) && LimitsHold(r.entries)
    requires i < |r.entries| && r.entries[i].blob.Some? && r.entries[i].blob.value.id !in j.w.blobs
    ensures var p := Part([Step(SetAttr(Join(r.entries[i].path), attr), true)], blobSync, Durable, true);
            var (j', ok) := Mutate(env, j, r, [p]);
            ok && r.entries[i].(attr := attr) in j'.w.disk.entries && !AllStored(env, j'.w.disk.entries, j'.w.blobs)
  {
    var p := Part([Step(SetAttr(Join(r.entries[i].path), attr), true)], blobSync, Durable, true);
    var v := j.w.(reader := Some(r));
    hide TreeInv, LimitsHold, Join, Commit, FreshScript, Mutate;
    TouchCommits(env, v, r, i, attr, blobSync);
    CommitStates(env, v, LIMIT, p.script, blobSync, Durable);
    var v1 := Commit(env, v, LIMIT, p.script, blobSync, Durable).0;
    SuccessorAccepted(j, r, v1.disk.state, v1.disk.entries);
    OnePart(env, j, r, p);
    var e := r.entries[i].(attr := attr);
    assert v1.disk.entries[i] == e && e in v1.disk.entries;
    assert !Stored(env, e, v1.blobs);
  }

  /** A mutation of a single batch, spelled out. */
  lemma OnePart(env: Env, j: Joint, r: Reader, p: Part)
    requires !j.quarantined && Admits(j, r)
    ensures var (w', report) := Commit(env, j.w.(reader := Some(r)), LIMIT, p.script, p.blobSync, p.write);
            var (j', ok) := Mutate(env, j, r, [p]);
            && w'.reader.Some? && j'.w == w'.(reader := None) && j'.quarantined == j.quarantined && j'.obj == j.obj
            && var anchor := Accepted(j.anchor, w'.reader.value.state, p.storage);
               && (ok <==> !report.Refused? && anchor.Some?)
               && (!ok ==> j'.anchor == j.anchor)
               && (!report.Refused? && anchor.None? ==> j'.failed)
  {
    var w := j.w.(reader := Some(r));
    CommitStates(env, w, LIMIT, p.script, p.blobSync, p.write);
    hide Commit, Accepted;
    assert [p][1..] == [] && [p][0] == p;
    var j0 := j.(w := w);
    var (w', report) := Commit(env, w, LIMIT, p.script, p.blobSync, p.write);
    var anchor := Accepted(j.anchor, w'.reader.value.state, p.storage);
    assert anchor.Some? ==>
        CommitParts(env, j0.(w := w', anchor := anchor), []) == (Dropped(j0.(w := w', anchor := anchor)), true);
  }

  lemma SuccessorAccepted(j: Joint, r: Reader, s: State<Entries>, entries: Entries)
    requires j.anchor == Some(AnchorOf(r.state)) && NextState(r, entries) == Ok(s)
    ensures Accepted(j.anchor, s, true).Some?
  {
  }

  // ----- such a state is reached -----

  /** A vault just created, anchored, with its first reader. */
  function CreatedJoint(obj: Obj, suite: nat): Joint
  {
    var w := Created(obj, suite);
    Joint(w.(reader := None), obj, Some(AnchorOf(w.disk.state)), {Reader([], w.disk.state, [])}, false, false)
  }

  lemma CreatedJointInv(env: Env, obj: Obj, suite: nat)
    ensures JointInv(env, CreatedJoint(obj, suite))
  {
    CreatedInv(env, obj, suite);
    assert TotalSize([]) == 0;
    var j := CreatedJoint(obj, suite);
    assert TreeInv([]) by { assert View([]) == map[]; }
    hide Sound, TreeInv;
  }

  lemma NameA()
    ensures Normalize("a") == Ok(["a"]) && Join(["a"]) == "a" && ByteLen("a") == 1 && LegalPath(["a"])
  {
    assert LegalComponent("a");
    assert Join(["a"]) == "a" && ByteLen("a") == 1;
    LegalNormalizes(["a"]);
    assert forall c, x :: c in ["a"] && x in c ==> !SpoofingChar(x);
  }

  function PutA(id: string, key: nat, nonce: seq<byte>): Op { Put("a", false, [], [], NO_ATTR, id, key, nonce, true) }

  function EntryA(id: string, key: nat, nonce: seq<byte>): Entry
  {
    FileEntry(["a"], BlobRef(id, key, nonce, DEFAULT_CHUNK_SIZE), [], NO_ATTR)
  }

  lemma PutApplies(env: Env, s: St, id: string, key: nat, nonce: seq<byte>)
    requires s == St([], [], [], false, 0, LIMIT, map[]) && |nonce| == StreamNonceLen(env.alg)
    ensures var (s', ok) := Apply(env, s, PutA(id, key, nonce));
            ok && s'.changed && s'.entries == [EntryA(id, key, nonce)] && s'.superseded == []
  {
    NameA();
    hide Normalize, Join, ByteLen, SealFrom;
    assert Index([]) == map[];
    assert EnsureDirs([], ["a"], 1) == ([], true);
    assert NumChunks(0, DEFAULT_CHUNK_SIZE) == 1;
    assert Apply(env, s, PutA(id, key, nonce)) == ApplyPut(env, s, PutA(id, key, nonce));
    assert [] + [EntryA(id, key, nonce)] == [EntryA(id, key, nonce)];
  }

  lemma OneFits(id: string, key: nat, nonce: seq<byte>)
    ensures LimitsHold([EntryA(id, key, nonce)])
  {
    var es := [EntryA(id, key, nonce)];
    NameA();
    hide Join, ByteLen, Normalize;
    assert es[..0] == [] && TotalSize(es[..0]) == 0;
    assert TotalSize(es) == 0;
    assert NumChunks(0, DEFAULT_CHUNK_SIZE) == 1;
    assert forall e :: e in es ==> e == EntryA(id, key, nonce);
  }

  function FirstPut(obj: Obj, suite: nat, id: string, key: nat, nonce: seq<byte>): Event
  {
    DoMutate(Reader([], CreatedJoint(obj, suite).w.disk.state, []),
             [Part([Step(PutA(id, key, nonce), true)], true, Durable, true)])
  }

  lemma FirstCommit(env: Env, w: World, id: string, key: nat, nonce: seq<byte>)
    requires w.reader.Some? && w.reader.value.entries == [] && w.reader.value.pending == [] && w.blobs == map[]
    requires w.reader.value.state.epoch == 1 && ValidBlobId(id) && |nonce| == StreamNonceLen(env.alg)
    ensures var script := [Step(PutA(id, key, nonce), true)];
            var (w', report) := Commit(env, w, LIMIT, script, true, Durable);
            && FreshScript(env, StartBatch(w, LIMIT), script) && report.Committed?
            && w'.disk.entries == [EntryA(id, key, nonce)] && w'.disk.state.epoch == 2
  {
    var op, s0 := PutA(id, key, nonce), StartBatch(w, LIMIT);
    PutApplies(env, s0, id, key, nonce);
    hide Apply, Commit, FreshScript;
    CommitOne(env, w, op, Apply(env, s0, op).0, true);
    CommitStates(env, w, LIMIT, [Step(op, true)], true, Durable);
  }

  lemma FirstPutDone(env: Env, obj: Obj, suite: nat, id: string, key: nat, nonce: seq<byte>)
    requires ValidBlobId(id) && |nonce| == StreamNonceLen(env.alg)
    ensures var j0, e := CreatedJoint(obj, suite), FirstPut(obj, suite, id, key, nonce);
            && Enabled(env, j0, e)
            && var j1 := Exec(env, j0, e);
               && JointInv(env, j1) && !j1.failed && !j1.quarantined
               && j1.w.disk.entries == [EntryA(id, key, nonce)] && j1.w.disk.state.epoch == 2
  {
    var j0, e := CreatedJoint(obj, suite), FirstPut(obj, suite, id, key, nonce);
    var r0, p := e.r, e.parts[0];
    CreatedJointInv(env, obj, suite);
    var w := j0.w.(reader := Some(r0));
    FirstCommit(env, w, id, key, nonce);
    hide Commit, FreshScript, Mutate, JointInv, TreeParts;
    CommitStates(env, w, LIMIT, p.script, true, Durable);
    var w1 := Commit(env, w, LIMIT, p.script, true, Durable).0;
    SuccessorAccepted(j0, r0, w1.disk.state, w1.disk.entries);
    OnePart(env, j0, r0, p);
    assert e.parts == [p] && [p][1..] == [];
    assert FreshParts(env, j0.(w := w), [p]);
    hide FreshParts;
    MutateKeeps(env, j0, r0, [p]);
  }

  lemma RunTwo(env: Env, j: Joint, a: Event, b: Event)
    requires Enabled(env, j, a) && Enabled(env, Exec(env, j, a), b)
    ensures EnabledRun(env, j, [a, b]) && Run(env, j, [a, b]) == Exec(env, Exec(env, j, a), b)
  {
    hide Enabled, Exec;
    var j1 := Exec(env, j, a);
    assert [a, b][1..] == [b] && [b][1..] == [];
    assert EnabledRun(env, Exec(env, j1, b), []) && Run(env, Exec(env, j1, b), []) == Exec(env, j1, b);
    assert EnabledRun(env, j1, [b]) && Run(env, j1, [b]) == Exec(env, j1, b);
  }

  /** A new vault, a file put into it, the vault opened again: from here the session can lose
      the file as `FailedAnchorLosesFile` says. */
  lemma LossIsReachable(env: Env, obj: Obj, suite: nat, id: string, key: nat, nonce: seq<byte>)
    requires ValidBlobId(id) && |nonce| == StreamNonceLen(env.alg)
    ensures var j0 := CreatedJoint(obj, suite);
            var events := [FirstPut(obj, suite, id, key, nonce), DoOpen(true, true, true)];
            && EnabledRun(env, j0, events)
            && var j := Run(env, j0, events);
               exists r :: && JointInv(env, j) && !j.failed && !j.quarantined && r in j.readers && Admits(j, r)
                           && r.entries == [EntryA(id, key, nonce)] && r.state.epoch < U64_MAX
  {
    var j0, a, b := CreatedJoint(obj, suite), FirstPut(obj, suite, id, key, nonce), DoOpen(true, true, true);
    FirstPutDone(env, obj, suite, id, key, nonce);
    OneFits(id, key, nonce);
    hide JointInv, Enabled, Exec, CreatedJoint, FirstPut, LimitsHold, EnabledRun, Run, Admits;
    OpenedReader(env, Exec(env, j0, a), b);
    RunTwo(env, j0, a, b);
  }

  lemma OpenedReader(env: Env, j: Joint, e: Event)
    requires JointInv(env, j) && !j.failed && !j.quarantined && LimitsHold(j.w.disk.entries)
    requires e == DoOpen(true, true, true)
    ensures Enabled(env, j, e)
    ensures var k := Exec(env, j, e);
            && JointInv(env, k) && !k.failed && !k.quarantined
            && var r := Reader(j.w.disk.entries, j.w.disk.state, []); r in k.readers && Admits(k, r)
  {
    OpenKeeps(env, j, true, true, true);
    ReopenKeeps(env, j.w);
    OpensIff(j.anchor.value, j.w.disk.state);
    AcceptedIs(j.anchor, j.w.disk.state, true);
    hide Collect, WorldInv, LimitsHold, ManifestOk, TreeInv;
  }
}
