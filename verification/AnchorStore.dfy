/** One protected object of the local store: its state file, its independent
    anchor, and the transactions of any number of threads, with crashes between
    any two steps and an adversary who can restore any earlier authentic file. */
module AnchorStore {
  import opened Base
  import opened StateChain

  /** The canonical encoding of what a file holds. */
  type Payload = seq<byte>

  /** What a batch makes of the payload it is given. */
  datatype Change = Fails | Same | Becomes(payload: Payload)
  type Edit = Payload -> Change

  /** A save that replaces the payload whatever it was. */
  function Const(payload: Payload): Edit { _ => Becomes(payload) }

  /** Edits one after the other. */
  function Fold(p: Payload, edits: seq<Edit>): Change
  {
    if edits == [] then Becomes(p)
    else
      match Fold(p, edits[..|edits| - 1])
      case Becomes(q) => (match edits[|edits| - 1](q) case Same => Becomes(q) case c => c)
      case c => c
  }

  /** An authentic file: its state record commits to its payload. */
  datatype Record = Record(state: State<Payload>, payload: Payload)

  /** Where the thread holding the lock is within its transaction: `edits` are all it was
      asked to commit, `done` how many are anchored, `before` the ledger it builds on. */
  datatype Pc =
    | Idle
    | Checked(writer: Record, edits: seq<Edit>, done: nat, before: seq<Edit>)
    | Written(next: Record, edits: seq<Edit>, done: nat, before: seq<Edit>)

  /** `produced` are all authentic files ever written, `origin` the edit each came from,
      `history` the anchors ever set and `ledger` the edits anchored, in order. */
  datatype Sys = Sys(obj: Obj, anchor: Option<Anchor<Payload>>, file: Option<Record>,
                     produced: set<Record>, origin: map<Record, Edit>,
                     lock: Option<nat>, pc: Pc, history: seq<Anchor<Payload>>, ledger: seq<Edit>)

  datatype Event =
    | Load(storage: bool)                                            // open and check the file in place
    | Begin(t: nat, reader: Record, edits: seq<Edit>)                // mutate_vault(_in_batches)
    | BeginSave(t: nat, suite: nat, payload: Payload, write: bool)   // save_protected_blob
    | WriteFile(ok: bool)                                            // commit_batch of the next batch
    | CommitAnchor(storage: bool)                                    // commit_state
    | Finish
    | Delete(storage: bool)                                          // retire_tombstone
    | Crash
    | Restore(r: Record)                                             // the adversary puts an old file back

  function SetAnchor(s: Sys, a: Anchor<Payload>): Sys
  {
    s.(anchor := Some(a), history := s.history + [a])
  }

  function Release(s: Sys): Sys { s.(lock := None, pc := Idle) }

  datatype Verdict = Accepted | Refused

  /** `accept_state`: the anchor moves only to the single valid successor. */
  function Accept(s: Sys, st: State<Payload>, storage: bool): (Sys, Verdict)
  {
    match s.anchor
    case None => if storage then (SetAnchor(s, AnchorOf(st)), Accepted) else (s, Refused)
    case Some(a) =>
      match CheckCandidate(a, st)
      case Err(_) => (s, Refused)
      case Ok(false) => (s, Accepted)
      case Ok(true) => if storage then (SetAnchor(s, AnchorOf(st)), Accepted) else (s, Refused)
  }

  /** `ensure_current_vault`. */
  predicate Current(s: Sys, reader: State<Payload>)
  {
    s.anchor.Some? ==> s.anchor.value.epoch == reader.epoch && s.anchor.value.current == reader.current
  }

  function Write(s: Sys, r: Record, edit: Edit): Sys
  {
    s.(file := Some(r), produced := s.produced + {r}, origin := s.origin[r := edit])
  }

  /** What a load that moved the anchor adds to the ledger: the edit of the file it adopted. */
  function Adopted(s: Sys, r: Record): seq<Edit>
  {
    if s.anchor.None? then [Const(r.payload)] else if r in s.origin then [s.origin[r]] else []
  }

  /** One atomic step; the object's transaction lock keeps other threads out. */
  function Exec(s: Sys, e: Event): Sys
  {
    match e
    case Load(storage) =>
      if s.lock.Some? || s.file.None? then s
      else
        var r := s.file.value;
        var (s', v) := Accept(s, r.state, storage);
        if v.Refused? then s'.(file := None)  // quarantined
        else if s'.history == s.history then s'
        else s'.(ledger := s.ledger + Adopted(s, r))
    case Begin(t, reader, edits) =>
      if s.lock.Some? || !Current(s, reader.state) then s
      else
        var before := if s.anchor.None? then s.ledger + [Const(reader.payload)] else s.ledger;
        s.(lock := Some(t), pc := Checked(reader, edits, 0, before))
    case BeginSave(t, suite, payload, write) =>
      if s.lock.Some? then s
      else
        var next := Next(s.obj, suite, s.anchor, payload);
        if next.Err? || !write then s
        else
          var r := Record(next.value, payload);
          Write(s, r, Const(payload)).(lock := Some(t), pc := Written(r, [Const(payload)], 0, s.ledger))
    case WriteFile(ok) =>
      if !s.pc.Checked? || s.pc.done >= |s.pc.edits| then s
      else
        var w, edit := s.pc.writer, s.pc.edits[s.pc.done];
        (match edit(w.payload)
         case Fails => Release(s)
         case Same => s.(pc := Written(w, s.pc.edits, s.pc.done, s.pc.before))
         case Becomes(payload) =>
           var next := Next(w.state.obj, w.state.suite, Some(AnchorOf(w.state)), payload);
           if next.Err? || !ok then Release(s)
           else
             var r := Record(next.value, payload);
             Write(s, r, edit).(pc := Written(r, s.pc.edits, s.pc.done, s.pc.before)))
    case CommitAnchor(storage) =>
      if !s.pc.Written? then s
      else
        var (s', v) := Accept(s, s.pc.next.state, storage);
        if v.Refused? then Release(s')
        else s'.(pc := Checked(s.pc.next, s.pc.edits, s.pc.done + 1, s.pc.before),
                 ledger := if s.pc.done < |s.pc.edits| then s.pc.before + s.pc.edits[..s.pc.done + 1] else s.ledger)
    case Finish => if s.pc.Checked? && s.pc.done >= |s.pc.edits| then Release(s) else s
    case Delete(storage) =>
      if s.lock.Some? || !storage then s else SetAnchor(s, DeletedAnchor(s.obj)).(file := None)
    case Crash => Release(s)
    case Restore(r) => s.(file := Some(r))
  }

  /** Readers hold authentic files; the adversary has only authentic files. */
  predicate Legal(s: Sys, e: Event)
  {
    match e
    case Begin(_, reader, _) => reader in s.produced
    case Restore(r) => r in s.produced
    case _ => true
  }

  ghost predicate LegalRun(s: Sys, events: seq<Event>)
    decreases |events|
  {
    events != [] ==> Legal(s, events[0]) && LegalRun(Exec(s, events[0]), events[1..])
  }

  function Run(s: Sys, events: seq<Event>): Sys
    decreases |events|
  {
    if events == [] then s else Run(Exec(s, events[0]), events[1..])
  }

  // ----- what every run keeps -----

  predicate Authentic(obj: Obj, r: Record)
  {
    VerifyPayload(r.state, r.payload) && r.state.obj == obj && r.state.epoch <= U64_MAX
  }

  ghost predicate FromFile(s: Sys, a: Anchor<Payload>)
  {
    exists r :: r in s.produced && AnchorOf(r.state) == a
  }

  /** `b` is the anchor of an authentic direct successor of `a`. */
  ghost predicate Follows(s: Sys, a: Anchor<Payload>, b: Anchor<Payload>)
  {
    exists r :: r in s.produced && AnchorOf(r.state) == b && r.state.previous == a.current && b.epoch == a.epoch + 1
  }

  /** The anchors form one hash chain, ended only by the terminal one. */
  ghost predicate Chain(s: Sys)
  {
    && (forall i :: 0 <= i < |s.history| ==> s.history[i] == DeletedAnchor(s.obj) || FromFile(s, s.history[i]))
    && (forall i :: 0 < i < |s.history| ==>
          s.history[i] == DeletedAnchor(s.obj) || Follows(s, s.history[i - 1], s.history[i]))
    && (forall i :: 0 <= i < |s.history| - 1 && s.history[i] == DeletedAnchor(s.obj) ==>
          s.history[i + 1] == DeletedAnchor(s.obj))
  }

  ghost predicate PcInv(s: Sys)
  {
    match s.pc
    case Idle => s.lock.None?
    case Checked(w, _, _, _) =>
      s.lock.Some? && w in s.produced && (s.anchor.Some? ==> s.anchor.value == AnchorOf(w.state))
    case Written(n, _, _, _) =>
      s.lock.Some? && n in s.produced &&
      (s.anchor.Some? ==>
         s.anchor.value == AnchorOf(n.state) ||
         (n.state.previous == s.anchor.value.current && n.state.epoch == s.anchor.value.epoch + 1))
  }

  ghost predicate Inv(s: Sys)
  {
    && (forall r :: r in s.produced ==> Authentic(s.obj, r))
    && (s.file.Some? ==> s.file.value in s.produced)
    && (s.anchor == if s.history == [] then None else Some(s.history[|s.history| - 1]))
    && Chain(s) && PcInv(s)
  }

  lemma ChainGrows(s: Sys, a: Anchor<Payload>)
    requires Chain(s) && (a == DeletedAnchor(s.obj) || FromFile(s, a))
    requires s.history != [] ==>
               var last := s.history[|s.history| - 1];
               a == DeletedAnchor(s.obj) || (last != DeletedAnchor(s.obj) && Follows(s, last, a))
    ensures Chain(SetAnchor(s, a))
  {
    var s' := SetAnchor(s, a);
    forall i | 0 <= i < |s'.history|
      ensures s'.history[i] == DeletedAnchor(s.obj) || FromFile(s', s'.history[i])
    {
      if i < |s.history| {
        assert s'.history[i] == s.history[i];
        if s.history[i] != DeletedAnchor(s.obj) {
          var r :| r in s.produced && AnchorOf(r.state) == s.history[i];
          assert r in s'.produced;
        }
      } else if a != DeletedAnchor(s.obj) {
        var r :| r in s.produced && AnchorOf(r.state) == a;
        assert r in s'.produced;
      }
    }
    forall i | 0 < i < |s'.history|
      ensures s'.history[i] == DeletedAnchor(s.obj) || Follows(s', s'.history[i - 1], s'.history[i])
    {
      if i < |s.history| {
        assert s.history[i] == DeletedAnchor(s.obj) || Follows(s, s.history[i - 1], s.history[i]);
      }
    }
  }

  /** The chain depends on the files and the anchors only, and more files do no harm. */
  lemma ChainFrame(s: Sys, s': Sys)
    requires Chain(s) && s.produced <= s'.produced && s'.history == s.history && s'.obj == s.obj
    ensures Chain(s')
  {
    forall a | FromFile(s, a)
      ensures FromFile(s', a)
    {
      var r :| r in s.produced && AnchorOf(r.state) == a;
      assert r in s'.produced;
    }
    forall a, b | Follows(s, a, b)
      ensures Follows(s', a, b)
    {
      var r :| r in s.produced && AnchorOf(r.state) == b && r.state.previous == a.current && b.epoch == a.epoch + 1;
      assert r in s'.produced;
    }
  }

  /** Accepting an authentic state keeps the chain; the anchor ends at that state. */
  lemma AcceptKeeps(s: Sys, r: Record, storage: bool)
    requires Inv(s) && r in s.produced
    ensures var (s', v) := Accept(s, r.state, storage);
            && Chain(s') && s' == s.(anchor := s'.anchor, history := s'.history)
            && (s'.anchor == if s'.history == [] then None else Some(s'.history[|s'.history| - 1]))
            && (s'.history == s.history || s'.history == s.history + [AnchorOf(r.state)])
            && (v.Accepted? ==> s'.anchor == Some(AnchorOf(r.state)))
            && (v.Refused? ==> s' == s)
  {
    hide Chain, Inv, FromFile, Follows;
    InvFacts(s, r);
    var (s', v) := Accept(s, r.state, storage);
    if s' != s {
      WasFile(s, r);
      if s.anchor.Some? {
        DirectSuccessor(s, r);
      }
      ChainGrows(s, AnchorOf(r.state));
    } else if v.Accepted? && s.anchor.Some? {
      SameAnchor(s, r);
    }
  }

  lemma InvFacts(s: Sys, r: Record)
    requires Inv(s) && r in s.produced
    ensures Chain(s) && Authentic(s.obj, r)
    ensures s.anchor == if s.history == [] then None else Some(s.history[|s.history| - 1])
  {
  }

  lemma WasFile(s: Sys, r: Record)
    requires r in s.produced
    ensures FromFile(s, AnchorOf(r.state))
  {
  }

  /** An authentic file is never taken for the terminal anchor. */
  lemma DirectSuccessor(s: Sys, r: Record)
    requires Authentic(s.obj, r) && r in s.produced && s.anchor.Some?
    requires CheckCandidate(s.anchor.value, r.state) == Ok(true)
    ensures s.anchor.value != DeletedAnchor(s.obj) && Follows(s, s.anchor.value, AnchorOf(r.state))
  {
  }

  lemma SameAnchor(s: Sys, r: Record)
    requires s.anchor.Some? && Authentic(s.obj, r) && CheckCandidate(s.anchor.value, r.state) == Ok(false)
    ensures s.anchor.value == AnchorOf(r.state)
  {
  }

  lemma LoadKeeps(s: Sys, storage: bool)
    requires Inv(s)
    ensures Inv(Exec(s, Load(storage))) && s.history <= Exec(s, Load(storage)).history
  {
    if s.lock.None? && s.file.Some? {
      AcceptKeeps(s, s.file.value, storage);
      var s', s1 := Exec(s, Load(storage)), Accept(s, s.file.value.state, storage).0;
      hide Chain, Accept;
      assert Chain(s') by { ChainFrame(s1, s'); }
    }
  }

  lemma DeleteKeeps(s: Sys, storage: bool)
    requires Inv(s)
    ensures Inv(Exec(s, Delete(storage))) && s.history <= Exec(s, Delete(storage)).history
  {
    if s.lock.None? && storage {
      ChainGrows(s, DeletedAnchor(s.obj));
      var s', s1 := Exec(s, Delete(storage)), SetAnchor(s, DeletedAnchor(s.obj));
      hide Chain;
      assert Chain(s') by { ChainFrame(s1, s'); }
    }
  }

  lemma QuietKeeps(s: Sys, e: Event)
    requires Inv(s) && Legal(s, e) && (e.Finish? || e.Crash? || e.Restore?)
    ensures Inv(Exec(s, e)) && Exec(s, e).history == s.history
  {
    ChainFrame(s, Exec(s, e));
    hide Chain;
  }

  /** Every step keeps the invariant, and only ever extends the history. */
  lemma ExecKeeps(s: Sys, e: Event)
    requires Inv(s) && Legal(s, e)
    ensures Inv(Exec(s, e)) && s.history <= Exec(s, e).history
  {
    hide Inv, Exec;
    match e
    case Load(storage) => LoadKeeps(s, storage);
    case Begin(t, reader, edits) => BeginKeeps(s, t, reader, edits);
    case BeginSave(t, suite, payload, write) => SaveKeeps(s, t, suite, payload, write);
    case WriteFile(ok) => WriteKeeps(s, ok);
    case CommitAnchor(storage) => CommitKeeps(s, storage);
    case Finish => QuietKeeps(s, e);
    case Delete(storage) => DeleteKeeps(s, storage);
    case Crash => QuietKeeps(s, e);
    case Restore(r) => QuietKeeps(s, e);
  }

  lemma BeginKeeps(s: Sys, t: nat, reader: Record, edits: seq<Edit>)
    requires Inv(s) && reader in s.produced
    ensures Inv(Exec(s, Begin(t, reader, edits))) && Exec(s, Begin(t, reader, edits)).history == s.history
  {
    if s.lock.None? && Current(s, reader.state) {
      if s.anchor.Some? {
        CurrentIsAnchored(s, reader);
      }
      ChainFrame(s, Exec(s, Begin(t, reader, edits)));
      hide Chain;
    }
  }

  /** A reader that passes the compare is the anchored state. */
  lemma CurrentIsAnchored(s: Sys, r: Record)
    requires Inv(s) && r in s.produced && Current(s, r.state) && s.anchor.Some?
    ensures s.anchor.value == AnchorOf(r.state)
  {
    var a := s.anchor.value;
    assert a == s.history[|s.history| - 1];
    if a != DeletedAnchor(s.obj) {
      var q :| q in s.produced && AnchorOf(q.state) == a;
      assert Authentic(s.obj, q) && Authentic(s.obj, r);
    }
  }

  /** The reader of an authentic file is current exactly if nothing, or its very state, is
      anchored. */
  lemma CurrentIff(s: Sys, r: Record)
    requires Inv(s) && r in s.produced
    ensures Current(s, r.state) <==> s.anchor.None? || s.anchor.value == AnchorOf(r.state)
  {
    if Current(s, r.state) && s.anchor.Some? {
      CurrentIsAnchored(s, r);
    }
  }

  lemma SaveKeeps(s: Sys, t: nat, suite: nat, payload: Payload, write: bool)
    requires Inv(s)
    ensures Inv(Exec(s, BeginSave(t, suite, payload, write)))
    ensures Exec(s, BeginSave(t, suite, payload, write)).history == s.history
  {
    ChainFrame(s, Exec(s, BeginSave(t, suite, payload, write)));
    hide Chain;
  }

  /** What writing a batch can come to: nothing, an end, an unchanged manifest, or a new file
      that follows the writer's. */
  lemma WriteEffect(s: Sys, ok: bool)
    requires s.pc.Checked? && s.pc.done < |s.pc.edits|
    ensures var s', w, edit := Exec(s, WriteFile(ok)), s.pc.writer, s.pc.edits[s.pc.done];
            || s' == Release(s)
            || (edit(w.payload).Same? && s' == s.(pc := Written(w, s.pc.edits, s.pc.done, s.pc.before)))
            || (exists r :: Successor(w, r) && edit(w.payload) == Becomes(r.payload) &&
                            s' == Write(s, r, edit).(pc := Written(r, s.pc.edits, s.pc.done, s.pc.before)))
  {
    var w, edit := s.pc.writer, s.pc.edits[s.pc.done];
    if edit(w.payload).Becomes? {
      var next := Next(w.state.obj, w.state.suite, Some(AnchorOf(w.state)), edit(w.payload).payload);
      if next.Ok? && ok {
        assert Successor(w, Record(next.value, edit(w.payload).payload));
      }
    }
  }

  /** `r` is what `next` makes of `w`. */
  predicate Successor(w: Record, r: Record)
  {
    && r.state.obj == w.state.obj && r.state.previous == w.state.current && r.state.epoch == w.state.epoch + 1
    && r.state.epoch <= U64_MAX && VerifyPayload(r.state, r.payload)
  }

  lemma WriteKeeps(s: Sys, ok: bool)
    requires Inv(s)
    ensures Inv(Exec(s, WriteFile(ok))) && Exec(s, WriteFile(ok)).history == s.history
  {
    if s.pc.Checked? && s.pc.done < |s.pc.edits| {
      var s' := Exec(s, WriteFile(ok));
      WriteEffect(s, ok);
      hide Exec;
      ChainFrame(s, s');
      hide Chain;
    }
  }

  lemma CommitKeeps(s: Sys, storage: bool)
    requires Inv(s)
    ensures Inv(Exec(s, CommitAnchor(storage))) && s.history <= Exec(s, CommitAnchor(storage)).history
  {
    hide Chain, Accept;
    if s.pc.Written? {
      AcceptKeeps(s, s.pc.next, storage);
      var s', s1 := Exec(s, CommitAnchor(storage)), Accept(s, s.pc.next.state, storage).0;
      assert Chain(s') by { ChainFrame(s1, s'); }
    }
  }

  lemma {:induction false} RunKeeps(s: Sys, events: seq<Event>)
    requires Inv(s) && LegalRun(s, events)
    ensures Inv(Run(s, events)) && s.history <= Run(s, events).history
    decreases |events|
  {
    hide Inv, Legal, Exec;
    if events != [] {
      ExecKeeps(s, events[0]);
      RunKeeps(Exec(s, events[0]), events[1..]);
    }
  }

  /** Nothing is stored yet. */
  function Empty(obj: Obj): Sys { Sys(obj, None, None, {}, map[], None, Idle, [], []) }

  /** Every run of a new object keeps both invariants. */
  lemma EveryRun(obj: Obj, events: seq<Event>)
    requires LegalRun(Empty(obj), events)
    ensures Inv(Run(Empty(obj), events)) && Content(Run(Empty(obj), events))
  {
    assert Inv(Empty(obj)) && Content(Empty(obj));
    hide Inv, Content;
    RunContent(Empty(obj), events);
  }

  // ----- rollback safety over whole runs -----

  lemma {:induction false} EpochsOrdered(s: Sys, i: nat, j: nat)
    requires Inv(s) && i <= j < |s.history|
    ensures s.history[i].epoch <= s.history[j].epoch
    ensures s.history[i].epoch == s.history[j].epoch ==>
              s.history[i] == s.history[j] || s.history[j] == DeletedAnchor(s.obj)
    ensures s.history[i] == DeletedAnchor(s.obj) ==> s.history[j] == DeletedAnchor(s.obj)
    decreases j
  {
    AnchorBounded(s, i);
    if i < j {
      EpochsOrdered(s, i, j - 1);
      AnchorBounded(s, j - 1);
      assert s.history[j] == DeletedAnchor(s.obj) || Follows(s, s.history[j - 1], s.history[j]);
    }
  }

  lemma AnchorBounded(s: Sys, i: nat)
    requires Inv(s) && i < |s.history|
    ensures s.history[i].epoch <= U64_MAX
  {
    if s.history[i] != DeletedAnchor(s.obj) {
      var r :| r in s.produced && AnchorOf(r.state) == s.history[i];
      assert Authentic(s.obj, r);
    }
  }

  /** Over every run the anchored epoch never decreases. */
  lemma EpochNeverDecreases(s: Sys, events: seq<Event>)
    requires Inv(s) && LegalRun(s, events) && s.anchor.Some?
    ensures var s' := Run(s, events); s'.anchor.Some? && s.anchor.value.epoch <= s'.anchor.value.epoch
  {
    hide Inv, Run, LegalRun;
    RunKeeps(s, events);
    var s' := Run(s, events);
    AnchorIsLast(s);
    AnchorIsLast(s');
    assert s.history[|s.history| - 1] == s'.history[|s.history| - 1];
    EpochsOrdered(s', |s.history| - 1, |s'.history| - 1);
  }

  /** The file in place is accepted by a load. */
  predicate Loads(s: Sys)
  {
    s.lock.None? && s.file.Some? && Accept(s, s.file.value.state, true).1.Accepted?
  }

  lemma LoadAnchors(s: Sys)
    requires Inv(s) && Loads(s)
    ensures Exec(s, Load(true)).anchor == Some(AnchorOf(s.file.value.state))
  {
    AcceptKeeps(s, s.file.value, true);
  }

  /** No fork: of all files ever accepted, at any two points of any run, no two of
      the same epoch differ. */
  lemma NoForks(s: Sys, events: seq<Event>)
    requires Inv(s) && Loads(s)
    requires LegalRun(Exec(s, Load(true)), events)
    requires var s2 := Run(Exec(s, Load(true)), events);
             Loads(s2) && s2.file.value.state.epoch == s.file.value.state.epoch
    ensures Run(Exec(s, Load(true)), events).file == s.file
  {
    var s1 := Exec(s, Load(true));
    LoadAnchors(s);
    LoadKeeps(s, true);
    RunKeeps(s1, events);
    var s2 := Run(s1, events);
    LoadAnchors(s2);
    LoadKeeps(s2, true);
    var s3 := Exec(s2, Load(true));
    SameEpochSameFile(s1, s3, s.file.value, s2.file.value);
  }

  lemma SameEpochSameFile(s1: Sys, s3: Sys, r1: Record, r2: Record)
    requires Inv(s1) && Inv(s3) && s1.history <= s3.history
    requires s1.anchor == Some(AnchorOf(r1.state)) && s3.anchor == Some(AnchorOf(r2.state))
    requires VerifyPayload(r1.state, r1.payload) && VerifyPayload(r2.state, r2.payload)
    requires r1.state.epoch == r2.state.epoch
    ensures r1 == r2
  {
    hide Inv;
    AnchorIsLast(s1);
    AnchorIsLast(s3);
    EpochsOrdered(s3, |s1.history| - 1, |s3.history| - 1);
  }

  lemma AnchorIsLast(s: Sys)
    requires Inv(s)
    ensures s.anchor == if s.history == [] then None else Some(s.history[|s.history| - 1])
  {
  }

  /** A commit that wrote its file and did not record its anchor, because the program died or
      because the anchor storage failed, is accepted by the next load. */
  lemma InterruptedCommitLoads(s: Sys, e: Event, stop: Event)
    requires Inv(s) && Legal(s, e) && (e.WriteFile? || e.BeginSave?) && !s.pc.Written? && Exec(s, e).pc.Written?
    requires Exec(s, e).file != s.file && (stop == Crash || stop == CommitAnchor(false))
    ensures var s1 := Exec(s, e);
            var s2 := Exec(s1, stop);
            && Loads(s2) && s2.file == s1.file == Some(s1.pc.next) && s2.anchor == s.anchor
            && Exec(s2, Load(true)).anchor == Some(AnchorOf(s1.pc.next.state))
  {
    ExecKeeps(s, e);
    var s1 := Exec(s, e);
    WroteSuccessor(s, e);
    hide Inv;
  }

  lemma WroteSuccessor(s: Sys, e: Event)
    requires Inv(s) && (e.WriteFile? || e.BeginSave?) && !s.pc.Written? && Exec(s, e).pc.Written?
    requires Exec(s, e).file != s.file
    ensures var s1 := Exec(s, e);
            && s1.file == Some(s1.pc.next) && s1.anchor == s.anchor
            && (s.anchor.Some? ==> CheckCandidate(s.anchor.value, s1.pc.next.state) == Ok(true))
  {
    hide Chain;
    if s.pc.Checked? {
      assert Authentic(s.obj, s.pc.writer);
    } else if s.anchor.Some? {
      AnchorObj(s);
    }
  }

  lemma AnchorObj(s: Sys)
    requires Inv(s) && s.anchor.Some?
    ensures s.anchor.value.obj == s.obj
  {
    var a := s.history[|s.history| - 1];
    if a != DeletedAnchor(s.obj) {
      var q :| q in s.produced && AnchorOf(q.state) == a;
      assert Authentic(s.obj, q);
    }
  }

  /** After the terminal anchor no state of the object is ever accepted again, however
      files are restored. */
  lemma {:induction false} DeletedStaysDeleted(s: Sys, events: seq<Event>)
    requires Inv(s) && LegalRun(s, events) && s.anchor == Some(DeletedAnchor(s.obj))
    ensures Run(s, events).anchor == Some(DeletedAnchor(s.obj)) && !Loads(Run(s, events))
    decreases |events|
  {
    if events == [] {
      if s.file.Some? {
        assert Authentic(s.obj, s.file.value);
      }
    } else {
      ExecKeeps(s, events[0]);
      var s1 := Exec(s, events[0]);
      assert s1.obj == s.obj;
      AnchorIsLast(s);
      AnchorIsLast(s1);
      hide Exec, Accept, Chain;
      assert s1.history[|s.history| - 1] == DeletedAnchor(s.obj);
      EpochsOrdered(s1, |s.history| - 1, |s1.history| - 1);
      DeletedStaysDeleted(s1, events[1..]);
    }
  }

  /** Recording the terminal anchor is enough, and nothing less is done by halves: once it is
      recorded, no file is in place and none is ever accepted again; if it could not be,
      nothing happened. */
  lemma DeletionIsFinal(s: Sys, events: seq<Event>)
    requires Inv(s) && s.pc.Idle? && LegalRun(Exec(s, Delete(true)), events)
    ensures Exec(s, Delete(false)) == s && Exec(s, Delete(true)).file.None?
    ensures var z := Run(Exec(s, Delete(true)), events);
            z.anchor == Some(DeletedAnchor(s.obj)) && !Loads(z)
  {
    DeleteKeeps(s, true);
    var d := Exec(s, Delete(true));
    assert d.anchor == Some(DeletedAnchor(s.obj)) && d.obj == s.obj;
    hide Exec, Inv;
    DeletedStaysDeleted(d, events);
  }

  // ----- no lost updates -----

  /** Every file came from an edit of the payload before it. */
  ghost predicate Origins(s: Sys)
  {
    && s.produced <= s.origin.Keys
    && (forall r :: r in s.produced ==> Rooted(s, r))
    && (forall r, q :: r in s.produced && q in s.produced && q.state.current == r.state.previous ==>
          s.origin[r](q.payload) == Becomes(r.payload))
  }

  ghost predicate Rooted(s: Sys, r: Record)
  {
    r.state.previous.Genesis? || exists q :: q in s.produced && q.state.current == r.state.previous
  }

  /** The anchored payload is the fold of the ledger, and the transaction under way has added
      exactly its first `done` edits to it. */
  ghost predicate Ledger(s: Sys)
  {
    && Fold([], s.ledger).Becomes?
    && (s.anchor.Some? && s.anchor.value.current.H? ==> Fold([], s.ledger) == Becomes(s.anchor.value.current.payload))
    && match s.pc
       case Idle => true
       case Checked(w, edits, done, before) =>
         && done <= |edits| && Fold([], before + edits[..done]) == Becomes(w.payload)
         && (if s.anchor.Some? then s.ledger == before + edits[..done] else done == 0 && s.ledger <= before)
       case Written(n, edits, done, before) =>
         && done < |edits| && Fold([], before + edits[..done + 1]) == Becomes(n.payload)
         && (if s.anchor.Some? then s.ledger == before + edits[..done] else done == 0 && s.ledger <= before)
  }

  ghost predicate Content(s: Sys) { Origins(s) && Ledger(s) }

  lemma FoldSnoc(p: Payload, edits: seq<Edit>, f: Edit)
    ensures Fold(p, edits + [f]) ==
            match Fold(p, edits)
            case Becomes(q) => (match f(q) case Same => Becomes(q) case c => c)
            case c => c
  {
    assert (edits + [f])[..|edits|] == edits;
  }

  /** Equal hashes, equal payloads. */
  lemma HashNames(obj: Obj, q: Record, r: Record)
    requires Authentic(obj, q) && Authentic(obj, r) && q.state.current == r.state.current
    ensures q.payload == r.payload
  {
  }

  lemma WriteOrigins(s: Sys, r: Record, edit: Edit)
    requires Origins(s) && (forall q :: q in s.produced ==> Authentic(s.obj, q)) && Authentic(s.obj, r)
    requires Rooted(s, r)
    requires forall q :: (q in s.produced || q == r) && q.state.current == r.state.previous ==>
             edit(q.payload) == Becomes(r.payload)
    ensures Origins(Write(s, r, edit))
  {
    var s' := Write(s, r, edit);
    forall x | x in s'.produced
      ensures Rooted(s', x)
    {
      if !x.state.previous.Genesis? {
        assert Rooted(s, x);
        var q :| q in s.produced && q.state.current == x.state.previous;
        assert q in s'.produced;
      }
    }
    forall x, q | x in s'.produced && q in s'.produced && q.state.current == x.state.previous
      ensures s'.origin[x](q.payload) == Becomes(x.payload)
    {
      if x != r {
        assert Rooted(s, x) && q.state.current.H?;
        var y :| y in s.produced && y.state.current == x.state.previous;
        HashNames(s.obj, y, q);
      }
    }
  }

  lemma WriteContent(s: Sys, ok: bool)
    requires Inv(s) && Content(s)
    ensures Content(Exec(s, WriteFile(ok)))
  {
    if s.pc.Checked? && s.pc.done < |s.pc.edits| {
      var s', w, edit := Exec(s, WriteFile(ok)), s.pc.writer, s.pc.edits[s.pc.done];
      WriteEffect(s, ok);
      assert w in s.produced;
      hide Exec, Origins, Ledger, Fold, Inv, Successor;
      if s' == Release(s) {
        OriginsFrame(s, s');
        ReleasedLedger(s);
      } else if edit(w.payload).Same? && s' == s.(pc := Written(w, s.pc.edits, s.pc.done, s.pc.before)) {
        OriginsFrame(s, s');
        WrittenLedger(s, s', w);
      } else {
        var r :| Successor(w, r) && edit(w.payload) == Becomes(r.payload) &&
                 s' == Write(s, r, edit).(pc := Written(r, s.pc.edits, s.pc.done, s.pc.before));
        SuccessorOrigins(s, w, r, edit);
        OriginsFrame(Write(s, r, edit), s');
        WrittenLedger(s, s', r);
      }
    }
  }

  lemma ReleasedLedger(s: Sys)
    requires Ledger(s)
    ensures Ledger(Release(s))
  {
    hide Fold;
  }

  lemma WrittenLedger(s: Sys, s': Sys, n: Record)
    requires Ledger(s) && s.pc.Checked? && s.pc.done < |s.pc.edits|
    requires s'.ledger == s.ledger && s'.anchor == s.anchor
    requires s'.pc == Written(n, s.pc.edits, s.pc.done, s.pc.before)
    requires var edit := s.pc.edits[s.pc.done];
             var p := s.pc.writer.payload;
             edit(p) == Becomes(n.payload) || (edit(p).Same? && n.payload == p)
    ensures Ledger(s')
  {
    NextEdit(s);
    hide Fold;
  }

  /** The next edit of the transaction, folded in. */
  lemma NextEdit(s: Sys)
    requires Ledger(s) && s.pc.Checked? && s.pc.done < |s.pc.edits|
    ensures var pc, f := s.pc, s.pc.edits[s.pc.done];
            && pc.edits[..pc.done + 1] == pc.edits[..pc.done] + [f]
            && pc.before + pc.edits[..pc.done + 1] == (pc.before + pc.edits[..pc.done]) + [f]
            && Fold([], pc.before + pc.edits[..pc.done + 1]) ==
               match f(pc.writer.payload) case Same => Becomes(pc.writer.payload) case c => c
  {
    var pc, f := s.pc, s.pc.edits[s.pc.done];
    assert pc.before + pc.edits[..pc.done + 1] == (pc.before + pc.edits[..pc.done]) + [f];
    FoldSnoc([], pc.before + pc.edits[..pc.done], f);
  }

  lemma OriginsFrame(s: Sys, s': Sys)
    requires Origins(s) && s'.produced == s.produced && s'.origin == s.origin
    ensures Origins(s')
  {
    forall r | r in s'.produced
      ensures Rooted(s', r)
    {
      assert Rooted(s, r);
    }
  }

  lemma SuccessorOrigins(s: Sys, w: Record, r: Record, edit: Edit)
    requires Inv(s) && Origins(s) && w in s.produced && Successor(w, r) && edit(w.payload) == Becomes(r.payload)
    ensures Origins(Write(s, r, edit))
  {
    hide Chain, Origins;
    assert Authentic(s.obj, w) && Authentic(s.obj, r);
    forall q | (q in s.produced || q == r) && q.state.current == r.state.previous
      ensures edit(q.payload) == Becomes(r.payload)
    {
      HashNames(s.obj, q, w);
    }
    assert Rooted(s, r);
    WriteOrigins(s, r, edit);
  }

  lemma SaveContent(s: Sys, t: nat, suite: nat, payload: Payload, write: bool)
    requires Inv(s) && Content(s)
    ensures Content(Exec(s, BeginSave(t, suite, payload, write)))
  {
    hide Inv, Chain, Origins, Ledger, Fold, Next;
    var s', next := Exec(s, BeginSave(t, suite, payload, write)), Next(s.obj, suite, s.anchor, payload);
    if s.lock.None? && next.Ok? && write {
      var r := Record(next.value, payload);
      SavedRecord(s, suite, payload);
      AllAuthentic(s);
      WriteOrigins(s, r, Const(payload));
      OriginsFrame(Write(s, r, Const(payload)), s');
      SavedLedger(s, s', r);
    }
  }

  lemma SavedRecord(s: Sys, suite: nat, payload: Payload)
    requires Inv(s) && Next(s.obj, suite, s.anchor, payload).Ok?
    ensures var r := Record(Next(s.obj, suite, s.anchor, payload).value, payload);
            Rooted(s, r) && Authentic(s.obj, r)
  {
    if s.anchor.Some? {
      AnchorWasFile(s);
      hide Inv, Chain;
      var q :| q in s.produced && AnchorOf(q.state) == s.anchor.value;
      assert q.state.current == Next(s.obj, suite, s.anchor, payload).value.previous;
    }
  }

  lemma SavedLedger(s: Sys, s': Sys, r: Record)
    requires Ledger(s) && s'.ledger == s.ledger && s'.anchor == s.anchor
    requires s'.pc == Written(r, [Const(r.payload)], 0, s.ledger)
    ensures Ledger(s')
  {
    var es := [Const(r.payload)];
    FoldSnoc([], s.ledger, es[0]);
    assert es[..1] == es && es[..0] == [] && s.ledger + [] == s.ledger;
    hide Fold;
  }

  lemma AllAuthentic(s: Sys)
    requires Inv(s)
    ensures forall q :: q in s.produced ==> Authentic(s.obj, q)
  {
  }

  lemma AnchorWasFile(s: Sys)
    requires Inv(s) && s.anchor.Some? && s.anchor.value.epoch < U64_MAX
    ensures FromFile(s, s.anchor.value)
  {
  }

  lemma CommitContent(s: Sys, storage: bool)
    requires Inv(s) && Content(s)
    ensures Content(Exec(s, CommitAnchor(storage)))
  {
    hide Accept, Inv, Chain, Origins, Ledger, Fold, Authentic;
    var s' := Exec(s, CommitAnchor(storage));
    if s.pc.Written? {
      WrittenAuthentic(s);
      AcceptKeeps(s, s.pc.next, storage);
      OriginsFrame(s, s');
      if Accept(s, s.pc.next.state, storage).1.Refused? {
        ReleasedLedger(s);
      } else {
        CommittedLedger(s, s');
      }
    }
  }

  lemma WrittenAuthentic(s: Sys)
    requires Inv(s) && s.pc.Written?
    ensures s.pc.next in s.produced && Authentic(s.obj, s.pc.next)
  {
  }

  lemma CommittedLedger(s: Sys, s': Sys)
    requires Ledger(s) && s.pc.Written? && Authentic(s.obj, s.pc.next)
    requires s'.anchor == Some(AnchorOf(s.pc.next.state))
    requires s'.pc == Checked(s.pc.next, s.pc.edits, s.pc.done + 1, s.pc.before)
    requires s'.ledger == if s.pc.done < |s.pc.edits| then s.pc.before + s.pc.edits[..s.pc.done + 1] else s.ledger
    ensures Ledger(s')
  {
    hide Fold;
  }

  lemma LoadContent(s: Sys, storage: bool)
    requires Inv(s) && Content(s)
    ensures Content(Exec(s, Load(storage)))
  {
    if s.lock.None? && s.file.Some? {
      var r, s' := s.file.value, Exec(s, Load(storage));
      AcceptKeeps(s, r, storage);
      assert Authentic(s.obj, r) && s.pc.Idle?;
      OriginsFrame(s, s');
      if s'.history != s.history {
        AdoptedFolds(s, r);
      }
      hide Accept, Inv, Chain, Origins, Fold;
    }
  }

  /** Adopting the file in place is applying the edit it came from. */
  lemma AdoptedFolds(s: Sys, r: Record)
    requires Inv(s) && Content(s) && r in s.produced
    requires s.anchor.Some? ==> CheckCandidate(s.anchor.value, r.state) == Ok(true)
    ensures Fold([], s.ledger + Adopted(s, r)) == Becomes(r.payload)
  {
    if s.anchor.None? {
      FoldSnoc([], s.ledger, Const(r.payload));
    } else {
      assert Authentic(s.obj, r);
      DirectSuccessor(s, r);
      AnchorWasFile(s);
      var q :| q in s.produced && AnchorOf(q.state) == s.anchor.value;
      assert Authentic(s.obj, q);
      assert s.origin[r](q.payload) == Becomes(r.payload);
      FoldSnoc([], s.ledger, s.origin[r]);
    }
  }

  lemma BeginContent(s: Sys, t: nat, reader: Record, edits: seq<Edit>)
    requires Inv(s) && Content(s) && reader in s.produced
    ensures Content(Exec(s, Begin(t, reader, edits)))
  {
    var s' := Exec(s, Begin(t, reader, edits));
    if s.lock.None? && Current(s, reader.state) {
      OriginsFrame(s, s');
      assert Authentic(s.obj, reader);
      if s.anchor.Some? {
        CurrentIsAnchored(s, reader);
      }
      hide Inv, Chain, Origins;
      FoldSnoc([], s.ledger, Const(reader.payload));
      assert s'.pc.before + edits[..0] == s'.pc.before;
      hide Fold;
    }
  }

  lemma ExecContent(s: Sys, e: Event)
    requires Inv(s) && Content(s) && Legal(s, e)
    ensures Content(Exec(s, e))
  {
    match e
    case Load(storage) => LoadContent(s, storage);
    case Begin(t, reader, edits) => BeginContent(s, t, reader, edits);
    case BeginSave(t, suite, payload, write) => SaveContent(s, t, suite, payload, write);
    case WriteFile(ok) => WriteContent(s, ok);
    case CommitAnchor(storage) => CommitContent(s, storage);
    case _ =>
      OriginsFrame(s, Exec(s, e));
      hide Inv, Origins, Fold;
  }

  /** The ledger grows only by an edit that is reported as committed, or by that of an
      interrupted commit whose file a load adopts; and a step that ends a transaction adds
      nothing. */
  lemma LedgerStep(s: Sys, e: Event)
    requires Inv(s) && Content(s)
    ensures var s' := Exec(s, e);
            && s.ledger <= s'.ledger
            && (s'.ledger != s.ledger ==>
                  || (e.CommitAnchor? && s.pc.Written? && s'.pc.Checked? &&
                      s'.ledger == s.pc.before + s.pc.edits[..s.pc.done + 1])
                  || (e.Load? && s.pc.Idle? && s.file.Some? && s'.ledger == s.ledger + Adopted(s, s.file.value)))
            && (s.pc.Checked? || s.pc.Written? ==> s'.pc.Idle? ==> s'.ledger == s.ledger && s'.history == s.history)
  {
    var s' := Exec(s, e);
    hide Chain, Origins, Fold, CheckCandidate;
    if e.CommitAnchor? && s.pc.Written? {
      var pc := s.pc;
      assert pc.before + pc.edits[..pc.done] <= pc.before + pc.edits[..pc.done + 1];
      hide Accept;
      assert Accept(s, pc.next.state, e.storage).1.Refused? ==> Accept(s, pc.next.state, e.storage).0 == s by {
        RefusedIsSame(s, pc.next.state, e.storage);
      }
    } else if e.WriteFile? && s.pc.Checked? && s.pc.done < |s.pc.edits| {
      WriteEffect(s, e.ok);
      hide Exec;
    }
  }

  lemma RefusedIsSame(s: Sys, st: State<Payload>, storage: bool)
    ensures Accept(s, st, storage).1.Refused? ==> Accept(s, st, storage).0 == s
  {
  }

  lemma {:induction false} RunContent(s: Sys, events: seq<Event>)
    requires Inv(s) && Content(s) && LegalRun(s, events)
    ensures Inv(Run(s, events)) && Content(Run(s, events)) && s.ledger <= Run(s, events).ledger
    decreases |events|
  {
    hide Inv, Content, Legal, Exec;
    if events != [] {
      ExecKeeps(s, events[0]);
      ExecContent(s, events[0]);
      LedgerStep(s, events[0]);
      RunContent(Exec(s, events[0]), events[1..]);
    }
  }

  /** No lost updates, in every interleaving: the anchored payload is the fold of the ledger,
      which is only ever appended to; a transaction in progress was begun on the anchored
      payload and has appended exactly its first `done` edits, the writer holding their
      result; it reports success only when all are done; and whichever step ends it adds
      nothing more. */
  lemma NoLostUpdates(s: Sys, events: seq<Event>, e: Event)
    requires Inv(s) && Content(s) && LegalRun(s, events)
    ensures var z := Run(s, events);
            && s.ledger <= z.ledger <= Exec(z, e).ledger
            && (z.anchor.Some? && z.anchor.value != DeletedAnchor(z.obj) ==>
                  z.anchor.value.current.H? && Fold([], z.ledger) == Becomes(z.anchor.value.current.payload))
            && (z.pc.Checked? ==>
                  && z.pc.done <= |z.pc.edits|
                  && Fold([], z.pc.before + z.pc.edits[..z.pc.done]) == Becomes(z.pc.writer.payload)
                  && (z.anchor.Some? ==>
                        && z.ledger == z.pc.before + z.pc.edits[..z.pc.done]
                        && z.anchor.value == AnchorOf(z.pc.writer.state)))
            && (z.pc.Checked? && Exec(z, Finish).pc.Idle? ==> z.pc.done == |z.pc.edits|)
            && (!z.pc.Idle? && Exec(z, e).pc.Idle? ==> Exec(z, e).ledger == z.ledger)
  {
    RunContent(s, events);
    var z := Run(s, events);
    hide Run, LegalRun;
    LedgerStep(z, e);
    AnchorNames(z);
    hide Exec;
    if z.pc.Checked? && Exec(z, Finish).pc.Idle? {
      FinishMeansDone(z);
    }
    hide Chain, Origins, Fold;
  }

  lemma AnchorNames(s: Sys)
    requires Inv(s)
    ensures s.anchor.Some? && s.anchor.value != DeletedAnchor(s.obj) ==> s.anchor.value.current.H?
  {
    if s.anchor.Some? && s.anchor.value != DeletedAnchor(s.obj) {
      var q :| q in s.produced && AnchorOf(q.state) == s.history[|s.history| - 1];
      assert Authentic(s.obj, q);
    }
  }

  lemma FinishMeansDone(s: Sys)
    requires s.pc.Checked? && Exec(s, Finish).pc.Idle?
    ensures s.pc.done >= |s.pc.edits|
  {
  }

  /** The lock is held throughout. */
  ghost predicate Held(s: Sys, events: seq<Event>)
    decreases |events|
  {
    !s.pc.Idle? && (events != [] ==> Held(Exec(s, events[0]), events[1..]))
  }

  /** While a transaction holds the lock, whatever the other threads try, it is the one that
      began: its edits and the ledger it builds on do not change. */
  lemma {:induction false} SameTransaction(s: Sys, events: seq<Event>)
    requires Inv(s) && LegalRun(s, events) && Held(s, events)
    ensures var z := Run(s, events); !z.pc.Idle? && z.pc.edits == s.pc.edits && z.pc.before == s.pc.before
    decreases |events|
  {
    if events != [] {
      ExecKeeps(s, events[0]);
      StepInside(s, events[0]);
      hide Inv, Exec, Legal;
      SameTransaction(Exec(s, events[0]), events[1..]);
    }
  }

  lemma StepInside(s: Sys, e: Event)
    requires Inv(s) && !s.pc.Idle? && !Exec(s, e).pc.Idle?
    ensures Exec(s, e).pc.edits == s.pc.edits && Exec(s, e).pc.before == s.pc.before
  {
    hide Chain, CheckCandidate;
    if e.WriteFile? && s.pc.Checked? && s.pc.done < |s.pc.edits| {
      WriteEffect(s, e.ok);
      hide Exec;
    }
  }

  lemma {:induction false} FoldConcat(p: Payload, a: seq<Edit>, b: seq<Edit>)
    requires Fold(p, a).Becomes?
    ensures Fold(p, a + b) == Fold(Fold(p, a).payload, b)
    decreases |b|
  {
    if b == [] {
      assert a + b == a;
    } else {
      var n := |b| - 1;
      FoldConcat(p, a, b[..n]);
      assert a + b == (a + b[..n]) + [b[n]] && b == b[..n] + [b[n]];
      FoldSnoc(p, a + b[..n], b[n]);
      FoldSnoc(Fold(p, a).payload, b[..n], b[n]);
    }
  }

  /** A whole mutation: begun on the anchored payload `reader.payload`, and ended by `e` after
      any interleaving, it has made of it what exactly its first `done` edits make of it,
      all of them if it reported success; nobody else changed anything meanwhile. */
  lemma TransactionEffect(s: Sys, t: nat, reader: Record, edits: seq<Edit>, events: seq<Event>, e: Event)
    requires Inv(s) && Content(s) && reader in s.produced
    requires var s1 := Exec(s, Begin(t, reader, edits));
             s.pc.Idle? && s1.pc.Checked? && s.anchor.Some? && LegalRun(s1, events) && Held(s1, events)
    requires var z := Run(Exec(s, Begin(t, reader, edits)), events); Exec(z, e).pc.Idle?
    ensures var z := Run(Exec(s, Begin(t, reader, edits)), events);
            var u := Exec(z, e);
            && s.anchor.value.current.H? && s.anchor.value.current.payload == reader.payload
            && !z.pc.Idle? && z.pc.done <= |edits| && u.ledger == s.ledger + edits[..z.pc.done]
            && (u.anchor.Some? && u.anchor.value.current.H? ==>
                  Fold(reader.payload, edits[..z.pc.done]) == Becomes(u.anchor.value.current.payload))
            && (e == Finish && z.pc.Checked? ==> z.pc.done == |edits|)
  {
    var s1 := Exec(s, Begin(t, reader, edits));
    assert s1 == s.(lock := Some(t), pc := Checked(reader, edits, 0, s.ledger));
    BeginKeeps(s, t, reader, edits);
    BeginContent(s, t, reader, edits);
    CurrentIsAnchored(s, reader);
    assert Authentic(s.obj, reader) by { AllAuthentic(s); }
    hide Exec;
    RunContent(s1, events);
    SameTransaction(s1, events);
    var z := Run(s1, events);
    AnchorStays(s1, events);
    hide Run, LegalRun, Held;
    LedgerStep(z, e);
    FoldConcat([], s.ledger, edits[..z.pc.done]);
    if e == Finish && z.pc.Checked? {
      FinishMeansDone(z);
    }
    EndContent(z, e);
    hide Inv, Origins, Fold;
  }

  lemma EndContent(z: Sys, e: Event)
    requires Inv(z) && Content(z) && !z.pc.Idle? && Exec(z, e).pc.Idle?
    ensures Exec(z, e).anchor == z.anchor
  {
    hide Chain, Origins, Fold, CheckCandidate;
    if e.WriteFile? && z.pc.Checked? && z.pc.done < |z.pc.edits| {
      WriteEffect(z, e.ok);
      hide Exec;
    } else if e.CommitAnchor? && z.pc.Written? {
      RefusedIsSame(z, z.pc.next.state, e.storage);
    }
  }

  lemma {:induction false} AnchorStays(s: Sys, events: seq<Event>)
    requires Inv(s) && LegalRun(s, events) && s.anchor.Some?
    ensures Run(s, events).anchor.Some?
  {
    hide Inv, Run, LegalRun;
    RunKeeps(s, events);
    AnchorIsLast(s);
    AnchorIsLast(Run(s, events));
  }
}
