/** The cleanup on unlock as the code runs it: loops over directories, each step of which may
    fail, with early returns. */
module Reconcile {
  import opened Base
  import opened Lifecycle

  lemma Fewer<T>(m: map<Id, T>, id: Id)
    requires id in m
    ensures |m - {id}| < |m|
  {
    assert (m - {id}).Keys == m.Keys - {id};
    assert |(m - {id}).Keys| == |m - {id}| && |m.Keys| == |m|;
  }

  /** A step of the cleanup keeps the invariant and what a full cleanup would reach. */
  lemma StepResumes(w: World, step: RecoveryStep)
    requires Inv(w) && w.unlocking
    ensures Inv(Recovered(w, step)) && Reconciled(Recovered(w, step)) == Reconciled(w)
  {
    hide *;
    ReconcileResumes(w, step);
    if step.ListLive? {
      ListLiveKeeps(w, step.save);
    } else {
      TombKeeps(w, step);
    }
  }

  /** With every tombstone of a listed vault restored and every other one marked, the
      directories and the marks are the reconciled ones. */
  lemma AllResolved(v: World, w: World)
    requires Inv(v) && Reconciled(v) == Reconciled(w)
    requires forall id :: id in v.tomb ==> id !in v.registry && id in v.marked
    ensures v.live == Reconciled(w).live && v.marked == Reconciled(w).marked
    ensures Reconciled(w).registry == v.registry + Openable(v.live, v.marked)
  {
    assert RestoredLive(v) == v.live;
    assert v.marked + Doomed(v) == v.marked;
    hide Inv, RestoredLive, Doomed, Openable;
  }

  /** What fails during an unlock: the partial directories that cannot be removed, the renames
      back, the terminal anchors, the wipes that stop half way, and the registry save. */
  datatype Faults = Faults(pinned: set<Id>, kept: set<Id>, unmarked: set<Id>, stuck: set<Id>, save: SaveOutcome)

  /** No tombstone stops the cleanup: each listed one can be renamed back and each other one
      gets its terminal anchor. */
  predicate TombsResolve(tomb: map<Id, Dir>, list: set<Id>, f: Faults)
  {
    f.kept !! tomb.Keys * list && f.unmarked !! tomb.Keys - list
  }

  /** The vaults directory, the registry file, the anchors, and the registry in memory. */
  class Store {
    var live: map<Id, Dir>
    var tomb: map<Id, Dir>
    var partial: map<Id, Option<Content>>
    var registry: set<Id>
    var marked: set<Id>
    var session: set<Id>
    ghost var book: Book

    ghost function View(): World
      reads this
    {
      World(live, tomb, partial, registry, marked, session, true, Idle, book)
    }

    /** The store as it is found on unlock: the registry file is loaded. */
    constructor (w: World)
      requires Inv(w)
      ensures View() == Reloaded(w) && Inv(View())
    {
      live, tomb, partial, registry, marked, session := w.live, w.tomb, w.partial, w.registry, w.marked, w.registry;
      book := w.book;
      new;
      ReloadKeeps(w);
      hide Inv;
    }

    /** Best effort: what can be removed is removed. */
    method CleanPartialDirs(f: Faults)
      requires Inv(View())
      modifies this`partial
      ensures Inv(View()) && Reconciled(View()) == Reconciled(old(View()))
      ensures partial == map id | id in old(partial) && id in f.pinned :: old(partial)[id]
    {
      hide Inv, Reconciled;
      var todo := partial;
      while todo != map[]
        invariant Inv(View()) && Reconciled(View()) == Reconciled(old(View()))
        invariant todo.Keys <= old(partial).Keys
        invariant partial == map id | id in old(partial) && (id in f.pinned || id in todo) :: old(partial)[id]
        decreases |todo|
      {
        var id :| id in todo;
        Fewer(todo, id);
        todo := todo - {id};
        if id !in f.pinned {
          StepResumes(View(), CleanPartial(id));
          partial := partial - {id};
        }
      }
    }

    method RestoreTombstone(id: Id, f: Faults) returns (ok: bool)
      requires Inv(View()) && id in tomb && id in session
      modifies this`tomb, this`live
      ensures ok <==> id !in f.kept
      ensures View() == if ok then Recovered(old(View()), RestoreTomb(id)) else old(View())
    {
      ok := id !in f.kept;
      if ok {
        live := live[id := tomb[id]];
        tomb := tomb - {id};
      }
    }

    /** The terminal anchor first; only then the wipe, which may stop anywhere. */
    method RetireTombstone(id: Id, f: Faults) returns (ok: bool)
      requires Inv(View()) && id in tomb && id !in session
      modifies this`tomb, this`marked, this`book
      ensures Inv(View()) && Reconciled(View()) == Reconciled(old(View()))
      ensures ok <==> id !in f.unmarked
      ensures !ok ==> View() == old(View())
      ensures ok ==> marked == old(marked) + {id} && (id in tomb <==> id in f.stuck)
      ensures tomb - {id} == old(tomb) - {id}
    {
      hide Inv, Reconciled;
      ok := id !in f.unmarked;
      if !ok {
        return;
      }
      StepResumes(View(), MarkTomb(id));
      marked := marked + {id};
      book := book.(ended := book.ended + {id});
      var some := *;
      if some {
        StepResumes(View(), WipeMarked(id));
        tomb := tomb[id := WipeSome(tomb[id])];
      }
      if id !in f.stuck {
        StepResumes(View(), DropMarked(id));
        tomb := tomb - {id};
      }
    }

    /** `reconcile_vaults`: it succeeds exactly when every tombstone is resolved and the list, if it
        changes, is saved. An error at any step leaves a state from which the next unlock
        reaches what this one would have; success has reached it, up to the tombstones whose
        wipe did not finish. */
    method ReconcileVaults(f: Faults) returns (ok: bool)
      requires Inv(View()) && session == registry
      modifies this`live, this`tomb, this`registry, this`marked, this`session, this`book
      ensures Inv(View()) && Reconciled(View()) == Reconciled(old(View()))
      ensures ok <==> TombsResolve(old(tomb), old(registry), f) &&
                      (f.save.Saved? || Reconciled(old(View())).registry == old(registry))
      ensures !ok ==> session == old(session)
      ensures ok ==> var r := Reconciled(old(View()));
                     && live == r.live && marked == r.marked && registry == session == r.registry
                     && tomb.Keys == Doomed(old(View())) * f.stuck
    {
      hide Inv, Reconciled;
      ok := ResolveTombstones(f);
      if !ok {
        return;
      }
      AllResolved(View(), old(View()));
      ok := ListUnlisted(f);
    }

    method ResolveTombstones(f: Faults) returns (ok: bool)
      requires Inv(View()) && session == registry
      modifies this`live, this`tomb, this`marked, this`book
      ensures Inv(View()) && Reconciled(View()) == Reconciled(old(View()))
      ensures ok <==> TombsResolve(old(tomb), registry, f)
      ensures ok ==> (forall id :: id in tomb ==> id !in registry && id in marked)
      ensures ok ==> tomb.Keys == Doomed(old(View())) * f.stuck
    {
      hide Inv, Reconciled;
      ok := true;
      var todo := tomb;
      ghost var all := tomb.Keys;
      while todo != map[]
        invariant Inv(View()) && Reconciled(View()) == Reconciled(old(View()))
        invariant todo.Keys <= tomb.Keys <= all
        invariant forall id :: id in tomb && id !in todo ==> id !in registry && id in marked && id in f.stuck
        invariant forall id :: id in all && id !in todo ==> if id in registry then id !in f.kept else id !in f.unmarked
        invariant forall id :: id in all && id !in registry && id in f.stuck ==> id in tomb
        decreases |todo|
      {
        var id :| id in todo;
        Fewer(todo, id);
        todo := todo - {id};
        if id in session {
          StepResumes(View(), RestoreTomb(id));
          ok := RestoreTombstone(id, f);
        } else {
          ghost var before := tomb;
          ok := RetireTombstone(id, f);
          Beside(before, tomb, id);
        }
        if !ok {
          return;
        }
      }
    }

    /** Directories that open and are not listed are listed again, in one save. */
    method ListUnlisted(f: Faults) returns (ok: bool)
      requires Inv(View()) && session == registry
      modifies this`registry, this`session
      ensures Inv(View()) && Reconciled(View()) == Reconciled(old(View()))
      ensures var list := old(registry) + Openable(live, marked);
              && (ok <==> f.save.Saved? || list == old(registry))
              && (ok ==> registry == session == list)
              && (!ok ==> session == old(session) && registry == if f.save.Nothing? then old(registry) else list)
    {
      hide Inv, Reconciled, Openable;
      var list, changed := WithUnlisted(live, marked, session);
      if !changed {
        return true;
      }
      StepResumes(View(), ListLive(f.save));
      if !f.save.Nothing? {
        registry := list;
      }
      if f.save.Saved? {
        session := list;
      }
      ok := f.save.Saved?;
    }
  }

  lemma Beside(m: map<Id, Dir>, n: map<Id, Dir>, id: Id)
    requires n - {id} == m - {id}
    ensures forall x :: x != id ==> (x in n <==> x in m)
  {
    assert forall x :: x != id ==> (x in n - {id} <==> x in n) && (x in m - {id} <==> x in m);
  }

  /** How far the loop below has come: `todo` is not looked at yet. */
  predicate Listed(list: set<Id>, session: set<Id>, live: map<Id, Dir>, marked: set<Id>, todo: set<Id>)
  {
    list == session + (Openable(live, marked) - todo)
  }

  lemma NoneListed(session: set<Id>, live: map<Id, Dir>, marked: set<Id>)
    ensures Listed(session, session, live, marked, live.Keys)
  {
  }

  lemma OneMore(list: set<Id>, session: set<Id>, live: map<Id, Dir>, marked: set<Id>, todo: set<Id>, id: Id)
    requires Listed(list, session, live, marked, todo) && id in todo && id in live
    ensures Listed(if id in list || id in marked || !Opens(live[id]) then list else list + {id},
                   session, live, marked, todo - {id})
  {
  }

  lemma AllListed(list: set<Id>, session: set<Id>, live: map<Id, Dir>, marked: set<Id>)
    requires Listed(list, session, live, marked, {})
    ensures list == session + Openable(live, marked)
  {
  }

  /** The loop over the directories; one that is marked does not open. */
  method WithUnlisted(live: map<Id, Dir>, marked: set<Id>, session: set<Id>) returns (list: set<Id>, changed: bool)
    ensures list == session + Openable(live, marked) && (changed <==> list != session)
  {
    hide Listed, Openable, Opens;
    var todo := live.Keys;
    list, changed := session, false;
    NoneListed(session, live, marked);
    while todo != {}
      invariant todo <= live.Keys && Listed(list, session, live, marked, todo)
      invariant session <= list && (changed <==> list != session)
      decreases |todo|
    {
      var id :| id in todo;
      OneMore(list, session, live, marked, todo, id);
      todo := todo - {id};
      if id in list || id in marked || !Opens(live[id]) {
        continue;
      }
      list, changed := list + {id}, true;
    }
    AllListed(list, session, live, marked);
  }
}
