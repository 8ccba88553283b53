/** The store's transactions as the code runs them, on the anchor and the file of one
    object, each proved to be a run of the protocol. */
module StoreTransactions {
  import opened Base
  import opened StateChain
  import opened AnchorStore

  lemma {:induction false} RunSnoc(s: Sys, events: seq<Event>, e: Event)
    requires LegalRun(s, events) && Legal(Run(s, events), e)
    ensures LegalRun(s, events + [e]) && Run(s, events + [e]) == Exec(Run(s, events), e)
    decreases |events|
  {
    hide Exec, Legal;
    var all := events + [e];
    if events == [] {
      assert all == [e] && all[1..] == [];
      assert LegalRun(Exec(s, e), all[1..]) && Run(Exec(s, e), all[1..]) == Exec(s, e);
    } else {
      assert all[0] == events[0] && all[1..] == events[1..] + [e];
      RunSnoc(Exec(s, events[0]), events[1..], e);
    }
  }

  class ObjectStore {
    const obj: Obj
    var anchor: Option<Anchor<Payload>>
    var file: Option<Record>
    ghost var sys: Sys      // the protocol state, between transactions

    ghost predicate Valid()
      reads this
    {
      sys.obj == obj && sys.anchor == anchor && sys.file == file && Inv(sys) && Content(sys) && sys.pc.Idle?
    }

    constructor (s: Sys)
      requires Inv(s) && Content(s) && s.pc.Idle?
      ensures Valid() && sys == s
    {
      obj, anchor, file, sys := s.obj, s.anchor, s.file, s;
    }

    /** `accept_state`, without the quarantine. `storage` is whether the anchor store works. */
    method AcceptState(state: State<Payload>, storage: bool, ghost s: Sys) returns (v: Verdict)
      requires s.anchor == anchor
      modifies this`anchor
      ensures Accept(s, state, storage).1 == v && Accept(s, state, storage).0.anchor == anchor
      ensures v.Accepted? <==> Acceptable(old(anchor), state, storage)
      ensures anchor == if v.Accepted? then Some(AnchorOf(state)) else old(anchor)
    {
      var update := true;
      if anchor.Some? {
        var checked := CheckCandidate(anchor.value, state);
        if checked.Err? {
          return Refused;
        }
        update := checked.value;
      }
      if update {
        if !storage {
          return Refused;
        }
        anchor := Some(AnchorOf(state));
      }
      v := Accepted;
    }

    /** Load the file in place: a file that is not the anchored state, nor its successor recorded
        in time, is quarantined. */
    method Load(storage: bool) returns (ok: bool)
      requires Valid()
      modifies this
      ensures Valid() && sys == Exec(old(sys), AnchorStore.Load(storage))
      ensures ok <==> old(file).Some? && Acceptable(old(anchor), old(file).value.state, storage)
      ensures if ok then file == old(file) && anchor == Some(AnchorOf(file.value.state))
              else file.None? && anchor == old(anchor)
    {
      IdleUnlocked(sys);
      if file.None? {
        return false;
      }
      var v := AcceptState(file.value.state, storage, sys);
      LoadKeeps(sys, storage);
      LoadContent(sys, storage);
      hide Inv, Content;
      sys := Exec(sys, AnchorStore.Load(storage));
      if v.Refused? {
        file := None;
      }
      ok := v.Accepted?;
    }

    /** `save_protected_blob`: computed from the anchored state, written, then anchored. It succeeds
        exactly when there is a next state and both writes go well; a save that fails has
        anchored nothing, but has left its file in place when only the anchor failed. */
    method SaveProtectedBlob(t: nat, suite: nat, payload: Payload, fate: Fate)
      returns (ok: bool, ghost events: seq<Event>)
      requires Valid()
      modifies this
      ensures Valid() && LegalRun(old(sys), events) && sys == Run(old(sys), events)
      ensures sys.ledger == old(sys).ledger + if ok then [Const(payload)] else []
      ensures ok <==> (old(anchor).Some? ==> old(anchor).value.epoch < U64_MAX) && fate.written && fate.anchored
      ensures var next := Next(obj, suite, old(anchor), payload);
              && anchor == (if ok then Some(AnchorOf(next.value)) else old(anchor))
              && file == if next.Ok? && fate.written then Some(Record(next.value, payload)) else old(file)
    {
      hide Exec, Inv, Content, LegalRun, Run, Accept, Next, Acceptable;
      SaveNext(sys, suite, payload);
      events := [];
      RunNone(sys);
      assert sys.ledger + [] == sys.ledger;
      var next := Next(obj, suite, anchor, payload);
      if next.Err? || !fate.written {
        return false, events;
      }
      ghost var start, trace := sys, [BeginSave(t, suite, payload, true)];
      SaveTrace(sys, t, suite, payload);
      ghost var cur := Run(start, trace);
      file := Some(Record(next.value, payload));
      var v := AcceptState(next.value, fate.anchored, cur);
      StepTrace(start, trace, CommitAnchor(fate.anchored));
      CommitMoves(cur, fate.anchored);
      events := trace + [CommitAnchor(fate.anchored)];
      if v.Refused? {
        EndsHere(cur, CommitAnchor(fate.anchored));
        sys := Run(start, events);
        return false, events;
      }
      assert [Const(payload)][..1] == [Const(payload)];
      StepTrace(start, events, Finish);
      FinishMoves(Run(start, events));
      events := events + [Finish];
      sys, ok := Run(start, events), true;
    }

    /** One batch: the new manifest is written, unless nothing changed. */
    method WriteBatch(writer: Record, edits: seq<Edit>, k: nat, written: bool,
                      ghost start: Sys, ghost before: seq<Edit>, ghost trace: seq<Event>)
      returns (ok: bool, next: Record, ghost trace': seq<Event>)
      requires k < |edits| && Inside(start, trace, writer, edits, k, before) && InStep(start, trace)
      modifies this`file
      ensures InStep(start, trace') && Run(start, trace').ledger == Run(start, trace).ledger
      ensures ok ==> Wrote(start, trace', next, edits, k, before)
      ensures !ok ==> Ended(start, trace') && file == old(file)
      ensures var change := edits[k](writer.payload);
              && (ok <==> change.Same? || (change.Becomes? && writer.state.epoch < U64_MAX && written))
              && (ok && change.Same? ==> next == writer && file == old(file))
              && (ok && change.Becomes? ==>
                    Extends(writer, next) && next.payload == change.payload && file == Some(next))
    {
      next := writer;
      var change := edits[k](writer.payload);
      if change.Becomes? {
        NextOf(writer, change);
      }
      StepTrace(start, trace, WriteFile(written));
      WriteMoves(Run(start, trace), written);
      trace' := trace + [WriteFile(written)];
      hide Exec, Inv, Content, LegalRun, Run, Next, Extends;
      match change {
        case Fails =>
          return false, next, trace';
        case Same =>
          return true, next, trace';
        case Becomes(payload) =>
          var made := Next(writer.state.obj, writer.state.suite, Some(AnchorOf(writer.state)), payload);
          if made.Err? || !written {
            return false, next, trace';
          }
          next := Record(made.value, payload);
          file := Some(next);
          return true, next, trace';
      }
    }

    /** And then anchored. */
    method AnchorBatch(next: Record, edits: seq<Edit>, k: nat, storage: bool,
                       ghost start: Sys, ghost before: seq<Edit>, ghost trace: seq<Event>)
      returns (ok: bool, ghost trace': seq<Event>)
      requires k < |edits| && Wrote(start, trace, next, edits, k, before) && InStep(start, trace)
      modifies this`anchor
      ensures InStep(start, trace')
      ensures ok <==> Acceptable(old(anchor), next.state, storage)
      ensures anchor == if ok then Some(AnchorOf(next.state)) else old(anchor)
      ensures ok ==> Inside(start, trace', next, edits, k + 1, before)
      ensures ok ==> Run(start, trace').ledger == before + edits[..k + 1]
      ensures !ok ==> Ended(start, trace') && Run(start, trace').ledger == Run(start, trace).ledger
    {
      ghost var cur := Run(start, trace);
      hide Exec, Inv, Content, LegalRun, Run, Accept, Acceptable;
      var v := AcceptState(next.state, storage, cur);
      StepTrace(start, trace, CommitAnchor(storage));
      CommitMoves(cur, storage);
      if v.Refused? {
        EndsHere(cur, CommitAnchor(storage));
      }
      trace' := trace + [CommitAnchor(storage)];
      ok := v.Accepted?;
    }

    /** The fields are those of the run so far. */
    ghost predicate InStep(start: Sys, trace: seq<Event>)
      reads this
    {
      LegalRun(start, trace) &&
      var cur := Run(start, trace);
      anchor == cur.anchor && file == cur.file && cur.obj == obj
    }

    /** The first `k` batches went, and `writer` is what they made of the reader's state. */
    ghost predicate Went(reader: Record, was: Before, edits: seq<Edit>, fates: seq<Fate>, k: nat, writer: Record)
      requires k <= |edits| == |fates|
      reads this
    {
      && Reached(reader, edits[..k], writer) && VerifyPayload(writer.state, writer.payload)
      && (forall j :: 0 <= j < k ==> Goes(reader, was.anchored, edits, fates, j))
      && (if was.anchored || k > 0 then anchor == Some(AnchorOf(writer.state)) else anchor.None?)
      && file == if Changes(reader.payload, edits[..k]) > 0 then Some(writer) else was.file
    }

    /** `commit_batch` and `commit_vault_reader`: batch `k` goes exactly as `Goes` says. */
    method CommitBatch(writer: Record, edits: seq<Edit>, k: nat, fates: seq<Fate>, ghost reader: Record,
                       ghost was: Before, ghost start: Sys, ghost before: seq<Edit>, ghost trace: seq<Event>)
      returns (ok: bool, next: Record, ghost trace': seq<Event>)
      requires k < |edits| == |fates|
      requires Inside(start, trace, writer, edits, k, before) && InStep(start, trace)
      requires Went(reader, was, edits, fates, k, writer)
      modifies this`file, this`anchor
      ensures InStep(start, trace') && (ok <==> Goes(reader, was.anchored, edits, fates, k))
      ensures ok ==> Inside(start, trace', next, edits, k + 1, before) && Went(reader, was, edits, fates, k + 1, next)
      ensures ok ==> Run(start, trace').ledger == before + edits[..k + 1]
      ensures !ok ==> Ended(start, trace') && Run(start, trace').ledger == Run(start, trace).ledger
      ensures !ok ==> anchor == old(anchor)
      ensures !ok ==> file == old(file) || (file.Some? && Unanchored(reader, edits, k, file.value))
    {
      hide Inv, Content, Legal, Exec, Run, LegalRun, Inside, Wrote, Ended, Goes, Fold, Changes, Extends, Acceptable,
           Reached, InStep;
      GoesIff(reader, was.anchored, edits, fates, k, writer);
      ok, next, trace' := WriteBatch(writer, edits, k, fates[k].written, start, before, trace);
      if ok {
        StepReached(reader, edits, k, writer, next);
        AcceptIff(anchor, writer, next, fates[k].anchored);
        ok, trace' := AnchorBatch(next, edits, k, fates[k].anchored, start, before, trace');
        if ok {
          WriterVerifies(start, trace', next, edits, k + 1, before);
        }
      }
    }

    /** `mutate_vault_in_batches` (one batch: `mutate_vault`). It is done exactly through the current
        reader when every batch goes; `done` is the first that does not. Exactly the batches
        before are in the ledger, in order, on top of the very payload the reader had. An
        object without an anchor gets one with the first batch. */
    method MutateInBatches(t: nat, reader: Record, edits: seq<Edit>, fates: seq<Fate>)
      returns (ok: bool, ghost done: nat, ghost events: seq<Event>)
      requires Valid() && reader in sys.produced && |fates| == |edits|
      modifies this
      ensures Valid() && LegalRun(old(sys), events) && sys == Run(old(sys), events)
      ensures done <= |edits| && (ok <==> UpToDate(old(anchor), reader) && done == |edits|)
      ensures forall k :: 0 <= k < done ==> Goes(reader, old(anchor).Some?, edits, fates, k)
      ensures UpToDate(old(anchor), reader) && done < |edits| ==> !Goes(reader, old(anchor).Some?, edits, fates, done)
      ensures sys.ledger == if done == 0 then old(sys).ledger else Basis(old(sys), reader) + edits[..done]
      ensures UpToDate(old(anchor), reader) && (done > 0 || old(anchor).Some?) ==>
                AnchoredAt(reader, edits[..done], anchor)
      ensures UpToDate(old(anchor), reader) ==>
                || (file == old(file) && Changes(reader.payload, edits[..done]) == 0)
                || (file.Some? && anchor == Some(AnchorOf(file.value.state)))
                || (!ok && file.Some? && Unanchored(reader, edits, done, file.value))
      ensures !UpToDate(old(anchor), reader) ==> done == 0 && sys == old(sys)
    {
      hide Inv, Content, Legal, Exec, Run, LegalRun, Inside, Wrote, Basis, Ended, Goes, Reached, Changes, Fold;
      done, events := 0, [];
      RunNone(sys);
      if anchor.Some? && (anchor.value.epoch != reader.state.epoch || anchor.value.current != reader.state.current) {
        return false, done, events;
      }
      ghost var start, trace, before := sys, [Begin(t, reader, edits)], Basis(sys, reader);
      ghost var was := Before(anchor.Some?, file);
      CurrentIff(sys, reader);
      BeginTrace(sys, t, reader, edits);
      var writer := reader;
      NoneDone(reader, edits);
      WriterVerifies(start, trace, writer, edits, 0, before);
      for k := 0 to |edits|
        invariant Inside(start, trace, writer, edits, k, before) && InStep(start, trace) && sys == start
        invariant Run(start, trace).ledger == if k == 0 then start.ledger else before + edits[..k]
        invariant Went(reader, was, edits, fates, k, writer)
      {
        var next;
        ok, next, trace := CommitBatch(writer, edits, k, fates, reader, was, start, before, trace);
        if !ok {
          EndedFacts(start, trace);
          events, done, sys := trace, k, Run(start, trace);
          return false, done, events;
        }
        writer := next;
      }
      assert edits[..|edits|] == edits;
      FinishTrace(start, trace, writer, edits, before);
      events := trace + [Finish];
      EndedFacts(start, events);
      done, sys, ok := |edits|, Run(start, events), true;
    }
  }

  // ----- when it succeeds -----

  /** Whether the environment lets a file and then its anchor be written. */
  datatype Fate = Fate(written: bool, anchored: bool)

  /** Nothing, or the reader's very state, is anchored. */
  predicate UpToDate(anchor: Option<Anchor<Payload>>, reader: Record)
  {
    anchor.None? || anchor.value == AnchorOf(reader.state)
  }

  /** The object as a mutation finds it. */
  datatype Before = Before(anchored: bool, file: Option<Record>)

  /** What a batch leaves in place whose file was written and not anchored: the next load
      takes it. */
  ghost predicate Unanchored(reader: Record, edits: seq<Edit>, k: nat, r: Record)
    requires k < |edits|
  {
    exists w :: Reached(reader, edits[..k], w) && Extends(w, r) && edits[k](w.payload) == Becomes(r.payload)
  }

  /** What `accept_state` lets pass: the anchored state, and its direct successor, or the first
      state of an object, if that can be recorded. */
  predicate Acceptable(anchor: Option<Anchor<Payload>>, state: State<Payload>, storage: bool)
  {
    match anchor
    case None => storage
    case Some(a) =>
      || SameState(a, state)
      || (storage && state.obj == a.obj && state.epoch == a.epoch + 1 <= U64_MAX && state.previous == a.current)
  }

  predicate SameState(a: Anchor<Payload>, state: State<Payload>) { AnchorOf(state) == a }

  /** `next` is a direct successor of `w`. */
  predicate Extends(w: Record, next: Record)
  {
    && next.state.obj == w.state.obj && next.state.epoch == w.state.epoch + 1 <= U64_MAX
    && next.state.previous == w.state.current
  }

  /** How many of the edits change the payload. */
  function Changes(p: Payload, edits: seq<Edit>): nat
  {
    if edits == [] then 0
    else
      var n := |edits| - 1;
      var c := Fold(p, edits[..n]);
      Changes(p, edits[..n]) + if c.Becomes? && edits[n](c.payload).Becomes? then 1 else 0
  }

  /** Batch `k` goes: its edit applies to what the batches before have made of the reader's payload,
      and what it changes has an epoch left and can be written and anchored; a batch that
      changes nothing only has to be anchored if nothing is yet. */
  predicate Goes(reader: Record, anchored: bool, edits: seq<Edit>, fates: seq<Fate>, k: nat)
    requires k < |edits| == |fates|
  {
    var c := Fold(reader.payload, edits[..k]);
    c.Becomes? &&
    match edits[k](c.payload)
    case Fails => false
    case Same => anchored || k > 0 || fates[k].anchored
    case Becomes(_) =>
      && reader.state.epoch + Changes(reader.payload, edits[..k]) < U64_MAX
      && fates[k].written && fates[k].anchored
  }

  /** The anchored state is what `edits` make of the reader's. */
  ghost predicate AnchoredAt(reader: Record, edits: seq<Edit>, anchor: Option<Anchor<Payload>>)
  {
    exists w :: Reached(reader, edits, w) && anchor == Some(AnchorOf(w.state)) && VerifyPayload(w.state, w.payload)
  }

  /** `w` is what `edits` make of the reader's state. */
  predicate Reached(reader: Record, edits: seq<Edit>, w: Record)
  {
    Fold(reader.payload, edits) == Becomes(w.payload) &&
        w.state.epoch == reader.state.epoch + Changes(reader.payload, edits)
  }

  /** Acceptance is `check_candidate` and then the anchor write. */
  lemma AcceptIff(anchor: Option<Anchor<Payload>>, writer: Record, next: Record, storage: bool)
    requires anchor.Some? ==> anchor.value == AnchorOf(writer.state)
    ensures next == writer ==> (Acceptable(anchor, next.state, storage) <==> anchor.Some? || storage)
    ensures Extends(writer, next) ==> (Acceptable(anchor, next.state, storage) <==> storage)
  {
  }

  lemma NoneDone(reader: Record, edits: seq<Edit>)
    ensures Reached(reader, edits[..0], reader) && Changes(reader.payload, edits[..0]) == 0
  {
  }

  /** The next state of an authentic writer. */
  lemma NextOf(writer: Record, change: Change)
    requires change.Becomes?
    ensures var next := Next(writer.state.obj, writer.state.suite, Some(AnchorOf(writer.state)), change.payload);
            && (next.Ok? <==> writer.state.epoch < U64_MAX)
            && (next.Ok? ==> Extends(writer, Record(next.value, change.payload)))
  {
  }

  lemma SaveNext(s: Sys, suite: nat, payload: Payload)
    requires Inv(s)
    ensures var next := Next(s.obj, suite, s.anchor, payload);
            && (next.Ok? <==> (s.anchor.Some? ==> s.anchor.value.epoch < U64_MAX))
            && (next.Ok? ==> forall storage :: Acceptable(s.anchor, next.value, storage) <==> storage)
  {
    if s.anchor.Some? {
      AnchorObj(s);
    }
  }

  /** One more edit. */
  lemma StepReached(reader: Record, edits: seq<Edit>, k: nat, writer: Record, next: Record)
    requires k < |edits| && Reached(reader, edits[..k], writer)
    requires var change := edits[k](writer.payload);
             if change.Same? then next == writer
             else change.Becomes? && Extends(writer, next) && next.payload == change.payload
    ensures Reached(reader, edits[..k + 1], next)
    ensures Changes(reader.payload, edits[..k + 1]) ==
            Changes(reader.payload, edits[..k]) + if edits[k](writer.payload).Becomes? then 1 else 0
  {
    assert edits[..k + 1][..k] == edits[..k];
  }

  lemma GoesIff(reader: Record, anchored: bool, edits: seq<Edit>, fates: seq<Fate>, k: nat, writer: Record)
    requires k < |edits| == |fates| && Reached(reader, edits[..k], writer)
    ensures Goes(reader, anchored, edits, fates, k) <==>
              var change := edits[k](writer.payload);
              || (change.Same? && (anchored || k > 0 || fates[k].anchored))
              || (change.Becomes? && writer.state.epoch < U64_MAX && fates[k].written && fates[k].anchored)
  {
    hide Changes, Fold;
  }

  lemma WriterVerifies(start: Sys, trace: seq<Event>, writer: Record, edits: seq<Edit>, k: nat, before: seq<Edit>)
    requires Inside(start, trace, writer, edits, k, before)
    ensures VerifyPayload(writer.state, writer.payload)
  {
    hide Chain, Content;
    assert Authentic(Run(start, trace).obj, writer);
  }

  /** The ledger a mutation through `reader` builds on. */
  function Basis(s: Sys, reader: Record): seq<Edit>
  {
    if s.anchor.None? then s.ledger + [Const(reader.payload)] else s.ledger
  }

  /** The transaction that began at `start` has anchored its first `k` edits and is about to
      write the next. */
  ghost predicate Inside(start: Sys, trace: seq<Event>, writer: Record, edits: seq<Edit>, k: nat, before: seq<Edit>)
  {
    LegalRun(start, trace) &&
    var cur := Run(start, trace);
    Inv(cur) && Content(cur) && cur.pc == Checked(writer, edits, k, before)
  }

  /** It has written `next` and is about to anchor it. */
  ghost predicate Wrote(start: Sys, trace: seq<Event>, next: Record, edits: seq<Edit>, k: nat, before: seq<Edit>)
  {
    LegalRun(start, trace) &&
    var cur := Run(start, trace);
    Inv(cur) && Content(cur) && cur.pc == Written(next, edits, k, before)
  }

  /** It has stopped. */
  ghost predicate Ended(start: Sys, trace: seq<Event>)
  {
    LegalRun(start, trace) && Inv(Run(start, trace)) && Content(Run(start, trace)) && Run(start, trace).pc.Idle?
  }

  lemma EndedFacts(start: Sys, trace: seq<Event>)
    requires Ended(start, trace)
    ensures LegalRun(start, trace) && Inv(Run(start, trace)) && Content(Run(start, trace)) && Run(start, trace).pc.Idle?
  {
  }

  lemma RunNone(s: Sys)
    ensures LegalRun(s, []) && Run(s, []) == s
  {
  }

  lemma IdleUnlocked(s: Sys)
    requires Inv(s) && s.pc.Idle?
    ensures s.lock.None?
  {
  }

  /** The lock is taken and nothing is done yet. */
  lemma BeginTrace(s: Sys, t: nat, reader: Record, edits: seq<Edit>)
    requires Inv(s) && Content(s) && s.pc.Idle? && Current(s, reader.state) && reader in s.produced
    ensures var e := Begin(t, reader, edits);
            && LegalRun(s, [e]) && Run(s, [e]) == Exec(s, e) && Inside(s, [e], reader, edits, 0, Basis(s, reader))
            && Exec(s, e) == s.(lock := Some(t), pc := Checked(reader, edits, 0, Basis(s, reader)))
  {
    var e := Begin(t, reader, edits);
    IdleUnlocked(s);
    BeginKeeps(s, t, reader, edits);
    BeginContent(s, t, reader, edits);
    RunSnoc(s, [], e);
    assert [] + [e] == [e];
    hide Inv, Content, Legal;
  }

  /** A save has written its file and not yet anchored it. */
  lemma SaveTrace(s: Sys, t: nat, suite: nat, payload: Payload)
    requires Inv(s) && Content(s) && s.pc.Idle? && Next(s.obj, suite, s.anchor, payload).Ok?
    ensures var e := BeginSave(t, suite, payload, true);
            var r := Record(Next(s.obj, suite, s.anchor, payload).value, payload);
            && LegalRun(s, [e]) && Run(s, [e]) == Exec(s, e) && Inv(Exec(s, e)) && Content(Exec(s, e))
            && Exec(s, e).anchor == s.anchor && Exec(s, e).obj == s.obj && Exec(s, e).ledger == s.ledger
            && Exec(s, e).file == Some(r) && Exec(s, e).pc == Written(r, [Const(payload)], 0, s.ledger)
  {
    IdleUnlocked(s);
    var e := BeginSave(t, suite, payload, true);
    SaveKeeps(s, t, suite, payload, true);
    SaveContent(s, t, suite, payload, true);
    RunSnoc(s, [], e);
    assert [] + [e] == [e];
    hide Inv, Content;
  }

  lemma StepTrace(start: Sys, trace: seq<Event>, e: Event)
    requires LegalRun(start, trace) && Inv(Run(start, trace)) && Content(Run(start, trace))
    requires e.WriteFile? || e.CommitAnchor? || e.Finish?
    ensures LegalRun(start, trace + [e]) && Run(start, trace + [e]) == Exec(Run(start, trace), e)
    ensures Inv(Exec(Run(start, trace), e)) && Content(Exec(Run(start, trace), e))
  {
    assert Legal(Run(start, trace), e);
    hide *;
    RunSnoc(start, trace, e);
    ExecKeeps(Run(start, trace), e);
    ExecContent(Run(start, trace), e);
  }

  lemma WriteMoves(s: Sys, ok: bool)
    requires s.pc.Checked? && s.pc.done < |s.pc.edits|
    ensures var w, change := s.pc.writer, s.pc.edits[s.pc.done](s.pc.writer.payload);
            var s' := Exec(s, WriteFile(ok));
            && s'.anchor == s.anchor && s'.obj == s.obj && s'.ledger == s.ledger
            && (change.Fails? ==> s'.pc.Idle? && s'.file == s.file)
            && (change.Same? ==> s'.pc == Written(w, s.pc.edits, s.pc.done, s.pc.before) && s'.file == s.file)
            && (change.Becomes? ==>
                  var next := Next(w.state.obj, w.state.suite, Some(AnchorOf(w.state)), change.payload);
                  && (next.Err? || !ok ==> s'.pc.Idle? && s'.file == s.file)
                  && (next.Ok? && ok ==>
                        var r := Record(next.value, change.payload);
                        s'.pc == Written(r, s.pc.edits, s.pc.done, s.pc.before) && s'.file == Some(r)))
  {
  }

  /** A commit that is accepted moves on to the next batch; another ends it. */
  lemma CommitMoves(s: Sys, storage: bool)
    requires s.pc.Written?
    ensures var (s1, v) := Accept(s, s.pc.next.state, storage);
            var s' := Exec(s, CommitAnchor(storage));
            && s'.anchor == s1.anchor && s'.file == s.file && s'.obj == s.obj && (v.Accepted? ==> s'.anchor.Some?)
            && (v.Accepted? ==> s'.pc == Checked(s.pc.next, s.pc.edits, s.pc.done + 1, s.pc.before))
            && (v.Accepted? && s.pc.done < |s.pc.edits| ==> s'.ledger == s.pc.before + s.pc.edits[..s.pc.done + 1])
            && (v.Refused? ==> s'.pc.Idle? && s'.anchor == s.anchor)
  {
    hide CheckCandidate;
  }

  lemma FinishMoves(s: Sys)
    requires s.pc.Checked? && s.pc.done >= |s.pc.edits|
    ensures Exec(s, Finish) == s.(lock := None, pc := Idle)
  {
  }

  /** Whatever step ends a transaction, nothing is added. */
  lemma EndsHere(s: Sys, e: Event)
    requires Inv(s) && Content(s) && !s.pc.Idle? && Exec(s, e).pc.Idle?
    ensures Exec(s, e).ledger == s.ledger
  {
    LedgerStep(s, e);
  }

  lemma FinishTrace(start: Sys, trace: seq<Event>, writer: Record, edits: seq<Edit>, before: seq<Edit>)
    requires Inside(start, trace, writer, edits, |edits|, before)
    ensures Ended(start, trace + [Finish])
    ensures var cur, end := Run(start, trace), Run(start, trace + [Finish]);
            end.anchor == cur.anchor && end.file == cur.file && end.obj == cur.obj && end.ledger == cur.ledger
  {
    StepTrace(start, trace, Finish);
    FinishMoves(Run(start, trace));
    hide Inv, Content, Run, LegalRun, Exec;
  }
}
