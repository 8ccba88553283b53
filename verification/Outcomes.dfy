/** How the operations on a vault end: what is on disk and in the lists after a creation, an
    edit or a deletion, for every way each of its steps can go. */
module Outcomes {
  import opened Base
  import opened Lifecycle

  lemma {:induction false} RunConcat(w: World, a: seq<Event>, b: seq<Event>)
    requires LegalRun(w, a) && LegalRun(Run(w, a), b)
    ensures LegalRun(w, a + b) && Run(w, a + b) == Run(Run(w, a), b)
    decreases |a|
  {
    hide Exec, Legal;
    if a == [] {
      assert a + b == b;
    } else {
      assert (a + b)[0] == a[0] && (a + b)[1..] == a[1..] + b;
      RunConcat(Exec(w, a[0]), a[1..], b);
    }
  }

  lemma RunOne(w: World, e: Event)
    requires Legal(w, e)
    ensures LegalRun(w, [e]) && Run(w, [e]) == Exec(w, e)
  {
    hide Exec, Legal;
    assert [e][1..] == [];
    assert LegalRun(Exec(w, e), []) && Run(Exec(w, e), []) == Exec(w, e);
  }

  /** Nothing happened to any other vault. */
  predicate OnlyTouches(w: World, v: World, id: Id)
  {
    && v.live - {id} == w.live - {id} && v.tomb - {id} == w.tomb - {id} && v.partial - {id} == w.partial - {id}
    && v.marked - {id} == w.marked - {id} && v.session - {id} == w.session - {id}
    && v.unlocking == w.unlocking && v.pc.Idle?
  }

  lemma Touched(w: World, v: World, id: Id)
    requires v.live - {id} == w.live - {id} && v.tomb - {id} == w.tomb - {id} && v.partial == w.partial
    requires v.marked == w.marked || v.marked == w.marked + {id}
    requires v.session == w.session || v.session == w.session + {id} || v.session == w.session - {id}
    requires v.unlocking == w.unlocking && v.pc.Idle?
    ensures OnlyTouches(w, v, id)
  {
  }

  // ----- deletion -----

  function Wipes(e: Event, k: nat): seq<Event> { seq(k, _ => e) }

  function Retirement(marked: bool, k: nat, done: bool): seq<Event>
  {
    [MarkDeleted(marked)] + if marked then Wipes(WipeTomb, k) + [WipeTombDone(done)] else []
  }

  /** `delete_vault`, step by step: `k` entries are wiped before the wipe is over. */
  function Deletion(id: Id, save: SaveOutcome, restored: bool, marked: bool, k: nat, done: bool): seq<Event>
  {
    [StartDelete(id)] + ([SaveRemoved(save)] + if save.Saved? then Retirement(marked, k, done) else [Restore(restored)])
  }

  lemma {:induction false} TombWipes(w: World, k: nat)
    requires w.pc.Retiring?
    ensures LegalRun(w, Wipes(WipeTomb, k))
    ensures var v := Run(w, Wipes(WipeTomb, k));
            v == w.(tomb := v.tomb) && v.tomb.Keys == w.tomb.Keys && v.tomb - {w.pc.id} == w.tomb - {w.pc.id}
    decreases k
  {
    if k == 0 {
      assert Wipes(WipeTomb, k) == [];
    } else {
      assert Wipes(WipeTomb, k)[1..] == Wipes(WipeTomb, k - 1);
      TombWipes(Exec(w, WipeTomb), k - 1);
    }
  }

  /** Retiring: with the terminal anchor the vault is marked for good and its tombstone wiped,
      as far as that goes; without it the tombstone is untouched. */
  lemma RetirementEnds(w: World, marked: bool, k: nat, done: bool)
    requires w.pc.Committed?
    ensures LegalRun(w, Retirement(marked, k, done))
    ensures var id, v := w.pc.id, Run(w, Retirement(marked, k, done));
            && v == w.(pc := Idle, marked := v.marked, tomb := v.tomb)
            && v.marked == (if marked then w.marked + {id} else w.marked)
            && v.tomb - {id} == w.tomb - {id}
            && (marked && done ==> id !in v.tomb)
            && (marked && !done ==> (id in v.tomb <==> id in w.tomb))
            && (!marked ==> v.tomb == w.tomb)
  {
    var w1 := Exec(w, MarkDeleted(marked));
    RunOne(w, MarkDeleted(marked));
    if marked {
      TombWipes(w1, k);
      var w2 := Run(w1, Wipes(WipeTomb, k));
      RunOne(w2, WipeTombDone(done));
      hide Run, LegalRun;
      RunConcat(w1, Wipes(WipeTomb, k), [WipeTombDone(done)]);
      RunConcat(w, [MarkDeleted(marked)], Wipes(WipeTomb, k) + [WipeTombDone(done)]);
    } else {
      assert Retirement(marked, k, done) == [MarkDeleted(marked)];
    }
  }

  lemma Apart<V>(m: map<Id, V>, id: Id, x: V)
    ensures m[id := x] - {id} == m - {id} && (m - {id}) - {id} == m - {id}
    ensures id in m && m[id] == x ==> (m - {id})[id := x] == m
    ensures id !in m ==> m[id := x] - {id} == m && m - {id} == m
  {
  }

  /** The vault is set aside and the list without it saved, or not. */
  lemma SaveEnds(w: World, id: Id, save: SaveOutcome)
    requires Inv(w) && Legal(w, StartDelete(id)) && id in w.live
    ensures var first := [StartDelete(id)] + [SaveRemoved(save)];
            && LegalRun(w, first)
            && var v := Run(w, first);
               && v.live == w.live - {id} && v.tomb == w.tomb[id := w.live[id]] && v.partial == w.partial
               && v.marked == w.marked && v.unlocking == w.unlocking
               && v.registry == (if save.Nothing? then w.registry else w.session - {id})
               && v.session == (if save.Saved? then w.session - {id} else w.session)
               && v.pc == (if save.Saved? then Committed(id) else Restoring(id))
               && v.book.reported == w.book.reported + if save.Saved? then {id} else {}
  {
    hide Inv;
    var w1 := Exec(w, StartDelete(id));
    RunOne(w, StartDelete(id));
    RunOne(w1, SaveRemoved(save));
    RunConcat(w, [StartDelete(id)], [SaveRemoved(save)]);
    hide Run, LegalRun;
  }

  lemma NotYet(w: World, id: Id)
    requires Inv(w) && id in w.live
    ensures id !in w.tomb && id !in w.marked && id !in w.book.reported
  {
  }

  /** `v` after a deletion of `id` at `w`. */
  predicate DeletionOutcome(w: World, v: World, id: Id, save: SaveOutcome, restored: bool, marked: bool, done: bool)
    requires id in w.live
  {
    && OnlyTouches(w, v, id)
    && v.registry == (if save.Nothing? then w.registry else w.session - {id})
    && v.session == (if save.Saved? then w.session - {id} else w.session)
    && (id in v.book.reported <==> save.Saved?)
    && (id in v.marked <==> save.Saved? && marked)
    && (id in v.live <==> !save.Saved? && restored)
    && (id in v.tomb <==> if save.Saved? then !(marked && done) else !restored)
    && (save.Saved? && !marked ==> v.tomb[id] == w.live[id])
    && (!save.Saved? && restored ==> v.live == w.live && v.tomb == w.tomb)
    && (!save.Saved? && !restored ==> v.tomb[id] == w.live[id])
  }

  lemma ReportedEnds(w: World, id: Id, restored: bool, marked: bool, k: nat, done: bool)
    requires Inv(w) && Legal(w, StartDelete(id)) && id in w.live
    ensures LegalRun(w, Deletion(id, Saved, restored, marked, k, done))
    ensures DeletionOutcome(w, Run(w, Deletion(id, Saved, restored, marked, k, done)), id, Saved, restored, marked,
                            done)
  {
    SaveEnds(w, id, Saved);
    NotYet(w, id);
    Apart(w.live, id, w.live[id]);
    Apart(w.tomb, id, w.live[id]);
    hide Inv, Run, LegalRun, OnlyTouches, Exec, Legal;
    var first := [StartDelete(id)] + [SaveRemoved(Saved)];
    RetirementEnds(Run(w, first), marked, k, done);
    RunConcat(w, first, Retirement(marked, k, done));
    assert first + Retirement(marked, k, done) == Deletion(id, Saved, restored, marked, k, done);
    Touched(w, Run(w, Deletion(id, Saved, restored, marked, k, done)), id);
  }

  lemma FailedEnds(w: World, id: Id, save: SaveOutcome, restored: bool, marked: bool, k: nat, done: bool)
    requires Inv(w) && Legal(w, StartDelete(id)) && id in w.live && !save.Saved?
    ensures LegalRun(w, Deletion(id, save, restored, marked, k, done))
    ensures DeletionOutcome(w, Run(w, Deletion(id, save, restored, marked, k, done)), id, save, restored, marked, done)
  {
    SaveEnds(w, id, save);
    NotYet(w, id);
    Apart(w.live, id, w.live[id]);
    Apart(w.tomb, id, w.live[id]);
    hide Inv, Run, LegalRun, OnlyTouches;
    var first := [StartDelete(id)] + [SaveRemoved(save)];
    RunOne(Run(w, first), Restore(restored));
    hide Legal;
    RunConcat(w, first, [Restore(restored)]);
    assert first + [Restore(restored)] == Deletion(id, save, restored, marked, k, done);
    Touched(w, Run(w, Deletion(id, save, restored, marked, k, done)), id);
  }

  /** Every way a deletion of a vault with a live directory can end. A complete one is reported,
      has its terminal anchor and leaves the vault nowhere. */
  lemma DeletionEnds(w: World, id: Id, save: SaveOutcome, restored: bool, marked: bool, k: nat, done: bool)
    requires Inv(w) && Legal(w, StartDelete(id)) && id in w.live
    ensures LegalRun(w, Deletion(id, save, restored, marked, k, done))
    ensures DeletionOutcome(w, Run(w, Deletion(id, save, restored, marked, k, done)), id, save, restored, marked, done)
  {
    hide *;
    if save.Saved? {
      ReportedEnds(w, id, restored, marked, k, done);
    } else {
      FailedEnds(w, id, save, restored, marked, k, done);
    }
  }

  /** A mark is never taken back. */
  lemma MarkedGrows(w: World, e: Event)
    requires Legal(w, e)
    ensures w.marked <= Exec(w, e).marked
  {
    hide Openable;
  }

  lemma MarkedNow(w: World)
    requires Inv(w)
    ensures w.marked !! w.live.Keys && w.marked !! w.registry && w.marked !! w.session
  {
    hide PcInv;
  }

  /** A mark is never taken back, and a marked vault is never live or listed again, whatever
      happens. */
  lemma {:induction false} MarkedIsGone(w: World, events: seq<Event>)
    requires Inv(w) && LegalRun(w, events)
    ensures var v := Run(w, events);
            w.marked <= v.marked && v.marked !! v.live.Keys && v.marked !! v.registry && v.marked !! v.session
    decreases |events|
  {
    hide Exec, Legal, Inv;
    if events == [] {
      MarkedNow(w);
    } else {
      ExecKeeps(w, events[0]);
      MarkedGrows(w, events[0]);
      MarkedIsGone(Exec(w, events[0]), events[1..]);
    }
  }

  // ----- creation -----

  function Undoings(k: nat, done: bool): seq<Event> { Wipes(WipeLive, k) + [WipeLiveDone(done)] }

  /** `create_vault_dir` and the registry save after it. */
  function Creation(id: Id, c: Content, built: bool, renamed: bool, anchored: bool, save: SaveOutcome,
                    k: nat, done: bool): seq<Event>
  {
    [StartCreate(id, c)] + [BuildDone(built)] +
    if built then [RenamePartial(renamed)] + (if renamed then Anchoring(anchored, save, k, done) else []) else []
  }

  function Anchoring(anchored: bool, save: SaveOutcome, k: nat, done: bool): seq<Event>
  {
    [Anchor(anchored)] + if anchored then [SaveNew(save)] else Undoings(k, done)
  }

  lemma {:induction false} LiveWipes(w: World, k: nat)
    requires w.pc.Undoing?
    ensures LegalRun(w, Wipes(WipeLive, k))
    ensures var v := Run(w, Wipes(WipeLive, k));
            v == w.(live := v.live) && v.live.Keys == w.live.Keys && v.live - {w.pc.id} == w.live - {w.pc.id}
    decreases k
  {
    if k == 0 {
      assert Wipes(WipeLive, k) == [];
    } else {
      assert Wipes(WipeLive, k)[1..] == Wipes(WipeLive, k - 1);
      LiveWipes(Exec(w, WipeLive), k - 1);
    }
  }

  /** The rollback of a creation. */
  lemma UndoingEnds(w: World, k: nat, done: bool)
    requires w.pc.Undoing?
    ensures LegalRun(w, Undoings(k, done))
    ensures var id, v := w.pc.id, Run(w, Undoings(k, done));
            && v == w.(pc := Idle, live := v.live) && v.live - {id} == w.live - {id}
            && (id in v.live <==> !done && id in w.live)
  {
    LiveWipes(w, k);
    var w1 := Run(w, Wipes(WipeLive, k));
    RunOne(w1, WipeLiveDone(done));
    hide Run, LegalRun;
    RunConcat(w, Wipes(WipeLive, k), [WipeLiveDone(done)]);
  }

  /** After the rename: listed, or rolled back. */
  lemma AnchoringEnds(w: World, anchored: bool, save: SaveOutcome, k: nat, done: bool)
    requires w.pc.Renamed? && w.pc.id !in w.marked && w.pc.id in w.live
    ensures LegalRun(w, Anchoring(anchored, save, k, done))
    ensures var id, v := w.pc.id, Run(w, Anchoring(anchored, save, k, done));
            && v.pc.Idle? && v.tomb == w.tomb && v.partial == w.partial && v.marked == w.marked
            && v.unlocking == w.unlocking && v.live - {id} == w.live - {id}
            && v.registry == (if anchored && !save.Nothing? then w.session + {id} else w.registry)
            && v.session == (if anchored && save.Saved? then w.session + {id} else w.session)
            && (anchored ==> v.live == w.live && v.book == w.book)
            && (!anchored ==> (id in v.live <==> !done) && id in v.book.aborted)
  {
    var w1 := Exec(w, Anchor(anchored));
    RunOne(w, Anchor(anchored));
    if anchored {
      RunOne(w1, SaveNew(save));
    } else {
      UndoingEnds(w1, k, done);
    }
    hide Run, LegalRun, Undoings;
    RunConcat(w, [Anchor(anchored)], if anchored then [SaveNew(save)] else Undoings(k, done));
  }

  /** The partial directory, until it is renamed. */
  lemma BuildEnds(w: World, id: Id, c: Content, built: bool, renamed: bool)
    requires Legal(w, StartCreate(id, c)) && id !in w.live && id !in w.tomb && id !in w.partial
    ensures var first := [StartCreate(id, c)] + [BuildDone(built)] + if built then [RenamePartial(renamed)] else [];
            && LegalRun(w, first)
            && var v := Run(w, first);
               && v.tomb == w.tomb && v.partial == w.partial && v.marked == w.marked && v.registry == w.registry
               && v.session == w.session && v.unlocking == w.unlocking
               && (if built && renamed
                   then v.live == w.live[id := Whole(c)] && v.pc == Renamed(id) && v.book.truth == w.book.truth[id := c]
                   else v.live == w.live && v.pc.Idle?)
  {
    var w1 := Exec(w, StartCreate(id, c));
    var w2 := Exec(w1, BuildDone(built));
    RunOne(w, StartCreate(id, c));
    RunOne(w1, BuildDone(built));
    if built {
      RunOne(w2, RenamePartial(renamed));
    }
    hide Run, LegalRun;
    RunConcat(w, [StartCreate(id, c)], [BuildDone(built)]);
    if built {
      RunConcat(w, [StartCreate(id, c)] + [BuildDone(built)], [RenamePartial(renamed)]);
    } else {
      var first := [StartCreate(id, c)] + [BuildDone(built)];
      assert first + [] == first;
    }
  }

  lemma NewId(w: World, id: Id, c: Content)
    requires Inv(w) && Legal(w, StartCreate(id, c))
    ensures id !in w.live && id !in w.tomb && id !in w.partial && id !in w.marked
  {
  }

  /** `v` after a creation of `id` with content `c` at `w`. */
  predicate CreationOutcome(w: World, v: World, id: Id, c: Content, built: bool, renamed: bool, anchored: bool,
                            save: SaveOutcome, done: bool)
  {
    var there := built && renamed && anchored;
    && OnlyTouches(w, v, id) && id !in v.partial && id !in v.tomb && id !in v.marked
    && v.registry == (if there && !save.Nothing? then w.session + {id} else w.registry)
    && v.session == (if there && save.Saved? then w.session + {id} else w.session)
    && (there ==> id in v.live && v.live[id] == Whole(c) && id in v.book.truth && v.book.truth[id] == c)
    && (!there ==> (id in v.live <==> built && renamed && !done))
  }

  lemma RenamedEnds(w: World, id: Id, c: Content, anchored: bool, save: SaveOutcome, k: nat, done: bool)
    requires Inv(w) && Legal(w, StartCreate(id, c))
    ensures var all := Creation(id, c, true, true, anchored, save, k, done);
            LegalRun(w, all) && CreationOutcome(w, Run(w, all), id, c, true, true, anchored, save, done)
  {
    NewId(w, id, c);
    BuildEnds(w, id, c, true, true);
    Apart(w.live, id, Whole(c));
    hide Inv, Run, LegalRun, Exec, Legal, Anchoring, OnlyTouches;
    var first := [StartCreate(id, c)] + [BuildDone(true)] + [RenamePartial(true)];
    var all := Creation(id, c, true, true, anchored, save, k, done);
    AnchoringEnds(Run(w, first), anchored, save, k, done);
    RunConcat(w, first, Anchoring(anchored, save, k, done));
    assert all == first + Anchoring(anchored, save, k, done);
    Touched(w, Run(w, all), id);
  }

  lemma UnbuiltEnds(w: World, id: Id, c: Content, built: bool, renamed: bool, anchored: bool, save: SaveOutcome,
                    k: nat, done: bool)
    requires Inv(w) && Legal(w, StartCreate(id, c)) && !(built && renamed)
    ensures var all := Creation(id, c, built, renamed, anchored, save, k, done);
            LegalRun(w, all) && CreationOutcome(w, Run(w, all), id, c, built, renamed, anchored, save, done)
  {
    NewId(w, id, c);
    BuildEnds(w, id, c, built, renamed);
    hide Inv, Run, LegalRun, Exec, Legal, Anchoring, OnlyTouches;
    var all := Creation(id, c, built, renamed, anchored, save, k, done);
    assert all == [StartCreate(id, c)] + [BuildDone(built)] + if built then [RenamePartial(renamed)] else [];
    Touched(w, Run(w, all), id);
  }

  /** Every way a creation can end. A complete one has its content live and listed; one whose
      directory could not be built, renamed or anchored is not listed, and leaves nothing
      unless its rollback stops half way. */
  lemma CreationEnds(w: World, id: Id, c: Content, built: bool, renamed: bool, anchored: bool, save: SaveOutcome,
                     k: nat, done: bool)
    requires Inv(w) && Legal(w, StartCreate(id, c))
    ensures var all := Creation(id, c, built, renamed, anchored, save, k, done);
            LegalRun(w, all) && CreationOutcome(w, Run(w, all), id, c, built, renamed, anchored, save, done)
  {
    hide *;
    if built && renamed {
      RenamedEnds(w, id, c, anchored, save, k, done);
    } else {
      UnbuiltEnds(w, id, c, built, renamed, anchored, save, k, done);
    }
  }

  /** An edit is the latest content, and only of its vault. */
  lemma EditEnds(w: World, id: Id, c: Content)
    requires Inv(w) && Legal(w, Edit(id, c))
    ensures var v := Exec(w, Edit(id, c));
            && OnlyTouches(w, v, id) && v.live[id] == Whole(c) && v.book.truth[id] == c
            && v.registry == w.registry && v.live.Keys == w.live.Keys
  {
  }

  /** Saving the list again puts the session's list in place, or changes nothing else. */
  lemma SaveListEnds(w: World, save: SaveOutcome)
    requires Legal(w, SaveList(save))
    ensures Exec(w, SaveList(save)) == w.(registry := if save.Nothing? then w.registry else w.session)
  {
  }
}
