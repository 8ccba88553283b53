/** Creating and deleting vaults: renames, the registry and deletion anchors change one at
    a time, a crash may come between any two, and every unlock cleans up and reconciles. */
module Lifecycle {
  import opened Base

  type Id = nat
  type Content = seq<byte>

  /** A vault directory. Wiping removes the blobs first and the manifest after them, so a
      half-wiped one may still open. */
  datatype Dir = Whole(content: Content) | Gutted | Broken

  predicate Opens(d: Dir) { !d.Broken? }

  function WipeSome(d: Dir): Dir { if d.Whole? then Gutted else Broken }

  /** How a registry save ends. It replaces the file and then records its anchor; without
      the anchor it reports an error, but the next load accepts the new file. */
  datatype SaveOutcome = Nothing | FileOnly | Saved

  /** Where the running operation stands. */
  datatype Pc =
    | Idle
    | Building(id: Id, content: Content)   // writing `<id>.fsv2.partial`
    | Staged(id: Id)                       // the partial directory is complete
    | Renamed(id: Id)                      // live, not yet anchored
    | Undoing(id: Id)                      // anchoring failed: wiping the live directory
    | Unlisted(id: Id)                     // anchored, not yet in the registry
    | Entombed(id: Id)                     // renamed to `<id>.fsv2.deleted`
    | Restoring(id: Id)                    // the registry save failed
    | Committed(id: Id)                    // the registry no longer lists it
    | Retiring(id: Id)                     // the terminal anchor is recorded: wiping

  /** The disk: directories, the registry file, and `marked`, the ids with a terminal
      "deleted" anchor. In memory: the registry the session works with, and whether the
      unlock is still cleaning up. */
  datatype World = World(live: map<Id, Dir>, tomb: map<Id, Dir>, partial: map<Id, Option<Content>>,
                         registry: set<Id>, marked: set<Id>, session: set<Id>, unlocking: bool, pc: Pc, book: Book)

  /** Bookkeeping of the model: the latest content of each vault, creations that were rolled
      back, deletions reported as done, deletions reported as failed after the registry
      file was replaced, vaults whose end is recorded, and ids drawn so far. */
  datatype Book = Book(truth: map<Id, Content>, aborted: set<Id>, reported: set<Id>, halved: set<Id>,
                       ended: set<Id>, used: set<Id>)

  datatype Event =
    | StartCreate(id: Id, content: Content)
    | BuildDone(ok: bool)
    | RenamePartial(ok: bool)
    | Anchor(ok: bool)
    | WipeLive
    | WipeLiveDone(ok: bool)
    | SaveNew(save: SaveOutcome)
    | Edit(id: Id, content: Content)
    | SaveList(save: SaveOutcome)          // the list is saved again, as after an edit
    | StartDelete(id: Id)
    | SaveRemoved(save: SaveOutcome)
    | Restore(ok: bool)
    | MarkDeleted(ok: bool)
    | WipeTomb
    | WipeTombDone(ok: bool)
    | Crash                                // or locking: the next unlock loads the registry file
    | Recovery(step: RecoveryStep)
    | Unlocked

  /** The single steps of the cleanup on unlock. */
  datatype RecoveryStep =
    | CleanPartial(id: Id)
    | RestoreTomb(id: Id)
    | MarkTomb(id: Id)
    | WipeMarked(id: Id)
    | DropMarked(id: Id)
    | ListLive(save: SaveOutcome)

  /** What the callers guarantee: new ids are random, and the user deletes or edits a vault
      of the list. */
  predicate Legal(w: World, e: Event)
  {
    match e
    case StartCreate(id, _) => w.pc.Idle? && !w.unlocking && id !in w.book.used
    case BuildDone(_) => w.pc.Building?
    case RenamePartial(_) => w.pc.Staged?
    case Anchor(_) => w.pc.Renamed?
    case WipeLive => w.pc.Undoing?
    case WipeLiveDone(_) => w.pc.Undoing?
    case SaveNew(_) => w.pc.Unlisted?
    case Edit(id, _) => w.pc.Idle? && !w.unlocking && id in w.live && w.live[id].Whole? && id in w.session
    case SaveList(_) => w.pc.Idle? && !w.unlocking
    case StartDelete(id) => w.pc.Idle? && !w.unlocking && id in w.session
    case SaveRemoved(_) => w.pc.Entombed?
    case Restore(_) => w.pc.Restoring?
    case MarkDeleted(_) => w.pc.Committed?
    case WipeTomb => w.pc.Retiring?
    case WipeTombDone(_) => w.pc.Retiring?
    case Crash => true
    case Recovery(_) => w.unlocking
    case Unlocked => w.unlocking
  }

  /** Save `list` as the registry; the session adopts it only when told that it succeeded. */
  function Save(w: World, list: set<Id>, save: SaveOutcome): World
  {
    match save
    case Nothing => w
    case FileOnly => w.(registry := list)
    case Saved => w.(registry := list, session := list)
  }

  function Exec(w: World, e: Event): World
    requires Legal(w, e)
  {
    match e
    case StartCreate(id, c) =>
      if id in w.live || id in w.tomb then w
      else w.(partial := w.partial[id := None], pc := Building(id, c), book := w.book.(used := w.book.used + {id}))
    case BuildDone(ok) =>
      var id := w.pc.id;
      if ok then w.(partial := w.partial[id := Some(w.pc.content)], pc := Staged(id))
      else w.(partial := w.partial - {id}, pc := Idle)
    case RenamePartial(ok) =>
      var id := w.pc.id;
      if ok && id in w.partial && w.partial[id].Some? then
        var c := w.partial[id].value;
        w.(live := w.live[id := Whole(c)], partial := w.partial - {id}, pc := Renamed(id),
           book := w.book.(truth := w.book.truth[id := c]))
      else w.(partial := w.partial - {id}, pc := Idle)
    case Anchor(ok) =>
      var id := w.pc.id;
      if ok && id !in w.marked then w.(pc := Unlisted(id))
      else w.(pc := Undoing(id), book := w.book.(aborted := w.book.aborted + {id}))
    case WipeLive =>
      var id := w.pc.id;
      if id in w.live then w.(live := w.live[id := WipeSome(w.live[id])]) else w
    case WipeLiveDone(ok) =>
      if ok then w.(live := w.live - {w.pc.id}, pc := Idle) else w.(pc := Idle)
    case SaveNew(save) => Save(w, w.session + {w.pc.id}, save).(pc := Idle)
    case Edit(id, c) => w.(live := w.live[id := Whole(c)], book := w.book.(truth := w.book.truth[id := c]))
    case SaveList(save) => Save(w, w.session, save)
    case StartDelete(id) =>
      if id in w.live then w.(tomb := w.tomb[id := w.live[id]], live := w.live - {id}, pc := Entombed(id))
      else w.(pc := Entombed(id))
    case SaveRemoved(save) =>
      var id := w.pc.id;
      var v := Save(w, w.session - {id}, save);
      (match save
       case Nothing => v.(pc := Restoring(id))
       case FileOnly => v.(pc := Restoring(id), book := w.book.(halved := w.book.halved + {id}))
       case Saved => v.(pc := Committed(id),
                        book := w.book.(reported := w.book.reported + {id}, ended := w.book.ended + {id})))
    case Restore(ok) =>
      var id := w.pc.id;
      if ok && id in w.tomb then w.(live := w.live[id := w.tomb[id]], tomb := w.tomb - {id}, pc := Idle)
      else w.(pc := Idle)
    case MarkDeleted(ok) =>
      if ok then w.(marked := w.marked + {w.pc.id}, pc := Retiring(w.pc.id)) else w.(pc := Idle)
    case WipeTomb =>
      var id := w.pc.id;
      if id in w.tomb then w.(tomb := w.tomb[id := WipeSome(w.tomb[id])]) else w
    case WipeTombDone(ok) =>
      if ok then w.(tomb := w.tomb - {w.pc.id}, pc := Idle) else w.(pc := Idle)
    case Crash => Reloaded(w)
    case Recovery(step) => Recovered(w, step)
    case Unlocked => w.(unlocking := false)
  }

  /** The program starts again and loads the registry file. */
  function Reloaded(w: World): World { w.(pc := Idle, unlocking := true, session := w.registry) }

  /** The directories that open: authentic and not marked deleted. */
  function Openable(live: map<Id, Dir>, marked: set<Id>): set<Id>
  {
    set id | id in live && Opens(live[id]) && id !in marked
  }

  function Recovered(w: World, step: RecoveryStep): World
  {
    match step
    case CleanPartial(id) => w.(partial := w.partial - {id})
    case RestoreTomb(id) =>
      if id in w.tomb && id in w.session then w.(live := w.live[id := w.tomb[id]], tomb := w.tomb - {id}) else w
    case MarkTomb(id) =>
      if id in w.tomb && id !in w.session
      then w.(marked := w.marked + {id}, book := w.book.(ended := w.book.ended + {id})) else w
    case WipeMarked(id) =>
      if id in w.tomb && id !in w.session && id in w.marked
      then w.(tomb := w.tomb[id := WipeSome(w.tomb[id])]) else w
    case DropMarked(id) =>
      if id in w.tomb && id !in w.session && id in w.marked then w.(tomb := w.tomb - {id}) else w
    case ListLive(save) => Save(w, w.session + Openable(w.live, w.marked), save)
  }

  // ----- the invariant of every run -----

  /** A directory that was not given up holds the latest content. */
  predicate Intact(b: Book, id: Id, d: Dir)
  {
    id in b.truth && (id !in b.aborted ==> d == Whole(b.truth[id]))
  }

  predicate New(w: World, id: Id)
  {
    id !in w.live && id !in w.tomb && id !in w.book.ended && id !in w.book.aborted && id in w.book.used &&
    id !in w.book.halved
  }

  predicate PcInv(w: World)
  {
    match w.pc
    case Idle => true
    case Building(id, _) => New(w, id)
    case Staged(id) => New(w, id)
    case Renamed(id) => id in w.live && id !in w.session && id !in w.registry && id !in w.book.aborted
    case Undoing(id) => id in w.live && id !in w.session && id !in w.registry && id in w.book.aborted
    case Unlisted(id) => id in w.live && id !in w.book.aborted
    case Entombed(id) => id in w.tomb && id in w.session
    case Restoring(id) => id in w.tomb && id in w.session && (id !in w.registry ==> id in w.book.halved)
    case Committed(id) => id in w.book.ended
    case Retiring(id) => id in w.book.ended && id in w.marked
  }

  /** Who is listed where. */
  predicate Lists(w: World)
  {
    && w.registry <= w.live.Keys + w.tomb.Keys && w.session <= w.live.Keys + w.tomb.Keys
    && w.session <= w.registry + w.book.halved
    && w.registry <= w.session + w.live.Keys
    && w.tomb.Keys <= w.registry + w.book.ended + w.book.halved
    && w.book.ended !! w.session && w.book.ended !! w.registry && w.book.ended !! w.live.Keys
    && (w.unlocking ==> w.pc.Idle? && w.session <= w.registry <= w.session + Openable(w.live, w.marked))
  }

  predicate Books(w: World)
  {
    && w.live.Keys !! w.tomb.Keys
    && w.marked <= w.book.ended <= w.book.reported + w.book.halved && w.book.reported <= w.book.ended
    && w.live.Keys + w.tomb.Keys + w.partial.Keys + w.book.ended + w.book.aborted + w.book.halved <= w.book.used
    && (forall id :: id in w.live ==> Intact(w.book, id, w.live[id]))
    && (forall id :: id in w.tomb && id !in w.book.ended ==> Intact(w.book, id, w.tomb[id]))
  }

  predicate Inv(w: World) { Books(w) && Lists(w) && PcInv(w) }

  lemma BuildKeeps(w: World, e: Event)
    requires Inv(w) && Legal(w, e) && (e.StartCreate? || e.BuildDone?)
    ensures Inv(Exec(w, e))
  {
    hide Openable;
  }

  lemma RenameKeeps(w: World, ok: bool)
    requires Inv(w) && w.pc.Staged?
    ensures Inv(Exec(w, RenamePartial(ok)))
  {
    hide Openable;
  }

  lemma AnchorKeeps(w: World, ok: bool)
    requires Inv(w) && w.pc.Renamed?
    ensures Inv(Exec(w, Anchor(ok)))
  {
    hide Openable;
  }

  /** Saving a list touches no directory. */
  lemma BooksFrame(w: World, v: World)
    requires Books(w) && v.live == w.live && v.tomb == w.tomb && v.partial == w.partial
    requires v.marked == w.marked && v.book == w.book
    ensures Books(v)
  {
  }

  lemma SaveNewKeeps(w: World, save: SaveOutcome)
    requires Inv(w) && w.pc.Unlisted?
    ensures Inv(Exec(w, SaveNew(save)))
  {
    BooksFrame(w, Exec(w, SaveNew(save)));
    hide Openable, Books;
    assert w.pc.id !in w.book.ended;
  }

  lemma SaveListKeeps(w: World, save: SaveOutcome)
    requires Inv(w) && Legal(w, SaveList(save))
    ensures Inv(Exec(w, SaveList(save)))
  {
    BooksFrame(w, Exec(w, SaveList(save)));
    hide Openable, Books;
  }

  lemma WipeKeeps(w: World, e: Event)
    requires Inv(w) && Legal(w, e) && (e.WipeLive? || e.WipeLiveDone?)
    ensures Inv(Exec(w, e))
  {
    hide Openable;
  }

  lemma EditKeeps(w: World, id: Id, c: Content)
    requires Inv(w) && Legal(w, Edit(id, c))
    ensures Inv(Exec(w, Edit(id, c)))
  {
    hide Openable;
  }

  lemma EntombKeeps(w: World, id: Id)
    requires Inv(w) && Legal(w, StartDelete(id))
    ensures Inv(Exec(w, StartDelete(id)))
  {
    hide Openable;
  }

  lemma SaveBooks(w: World, save: SaveOutcome)
    requires Inv(w) && w.pc.Entombed?
    ensures Books(Exec(w, SaveRemoved(save)))
  {
    assert w.pc.id in w.tomb;
    hide Openable, Lists;
  }

  lemma SaveKeeps(w: World, save: SaveOutcome)
    requires Inv(w) && w.pc.Entombed?
    ensures Inv(Exec(w, SaveRemoved(save)))
  {
    SaveBooks(w, save);
    assert w.pc.id !in w.live;
    hide Openable, Books;
  }

  lemma RestoreKeeps(w: World, ok: bool)
    requires Inv(w) && w.pc.Restoring?
    ensures Inv(Exec(w, Restore(ok)))
  {
    hide Openable;
  }

  lemma MarkKeeps(w: World, ok: bool)
    requires Inv(w) && w.pc.Committed?
    ensures Inv(Exec(w, MarkDeleted(ok)))
  {
    hide Openable, Intact;
  }

  lemma RetireBooks(w: World, e: Event)
    requires Inv(w) && Legal(w, e) && (e.WipeTomb? || e.WipeTombDone?)
    ensures Books(Exec(w, e))
  {
    hide Openable, Lists, Intact;
  }

  lemma RetireLists(w: World, e: Event)
    requires Inv(w) && Legal(w, e) && (e.WipeTomb? || e.WipeTombDone?)
    ensures Lists(Exec(w, e))
  {
    hide Openable, Books;
  }

  lemma RetireKeeps(w: World, e: Event)
    requires Inv(w) && Legal(w, e) && (e.WipeTomb? || e.WipeTombDone?)
    ensures Inv(Exec(w, e))
  {
    RetireBooks(w, e);
    RetireLists(w, e);
    hide Openable, Books, Lists;
  }

  lemma ReloadKeeps(w: World)
    requires Inv(w)
    ensures Inv(Reloaded(w))
  {
    BooksFrame(w, Reloaded(w));
    hide Openable, Books;
  }

  lemma TombKeeps(w: World, step: RecoveryStep)
    requires Inv(w) && w.unlocking && !step.ListLive?
    ensures Inv(Recovered(w, step))
  {
  }

  lemma ListLiveKeeps(w: World, save: SaveOutcome)
    requires Inv(w) && w.unlocking
    ensures Inv(Recovered(w, ListLive(save)))
  {
    assert Openable(w.live, w.marked) <= w.live.Keys;
    BooksFrame(w, Recovered(w, ListLive(save)));
    hide Openable, Books;
  }

  /** Only the save of a list without the vault reports its deletion, and only a half-done
      one makes a failed deletion of it. */
  lemma OnlySaveReports(w: World, e: Event)
    requires Legal(w, e)
    ensures e != SaveRemoved(Saved) ==> Exec(w, e).book.reported == w.book.reported
    ensures e == SaveRemoved(Saved) ==> Exec(w, e).book.reported == w.book.reported + {w.pc.id}
    ensures e != SaveRemoved(FileOnly) ==> Exec(w, e).book.halved == w.book.halved
    ensures e == SaveRemoved(FileOnly) ==> Exec(w, e).book.halved == w.book.halved + {w.pc.id}
  {
    hide Openable, WipeSome;
  }

  predicate Present(w: World, id: Id) { id in w.live || id in w.tomb }

  lemma StepPresent(w: World, e: Event, id: Id)
    requires Legal(w, e) && Present(w, id)
    requires !e.WipeLiveDone? && !e.WipeTombDone? && !(e.Recovery? && e.step.DropMarked?)
    ensures Present(Exec(w, e), id)
  {
    hide Openable, WipeSome;
  }

  /** A vault directory only goes when its creation was rolled back or its end recorded. */
  lemma StaysPresent(w: World, e: Event, id: Id)
    requires Inv(w) && Legal(w, e) && Present(w, id)
    ensures var v := Exec(w, e); Present(v, id) || id in v.book.aborted || id in v.book.ended
  {
    assert w.marked <= w.book.ended;
    hide Books, Lists;
    if !e.WipeLiveDone? && !e.WipeTombDone? && !(e.Recovery? && e.step.DropMarked?) {
      hide Exec, PcInv, Present;
      StepPresent(w, e, id);
    }
  }

  lemma BookGrows(w: World, e: Event, id: Id)
    requires Legal(w, e)
    ensures id in w.book.ended ==> id in Exec(w, e).book.ended
    ensures id in w.book.aborted ==> id in Exec(w, e).book.aborted
    ensures id in w.book.reported ==> id in Exec(w, e).book.reported
  {
    hide Openable, WipeSome;
  }

  lemma ExecKeeps(w: World, e: Event)
    requires Inv(w) && Legal(w, e)
    ensures Inv(Exec(w, e))
  {
    match e
    case StartCreate(_, _) => BuildKeeps(w, e);
    case BuildDone(_) => BuildKeeps(w, e);
    case RenamePartial(ok) => RenameKeeps(w, ok);
    case Anchor(ok) => AnchorKeeps(w, ok);
    case WipeLive => WipeKeeps(w, e);
    case WipeLiveDone(_) => WipeKeeps(w, e);
    case SaveNew(save) => SaveNewKeeps(w, save);
    case Edit(id, c) => EditKeeps(w, id, c);
    case SaveList(save) => SaveListKeeps(w, save);
    case StartDelete(id) => EntombKeeps(w, id);
    case SaveRemoved(save) => SaveKeeps(w, save);
    case Restore(ok) => RestoreKeeps(w, ok);
    case MarkDeleted(ok) => MarkKeeps(w, ok);
    case WipeTomb => RetireKeeps(w, e);
    case WipeTombDone(_) => RetireKeeps(w, e);
    case Crash =>
      ReloadKeeps(w);
      hide Inv;
    case Recovery(step) =>
      hide Inv;
      if step.ListLive? {
        ListLiveKeeps(w, step.save);
      } else {
        TombKeeps(w, step);
      }
    case Unlocked => BooksFrame(w, Exec(w, e));
  }

  ghost predicate LegalRun(w: World, events: seq<Event>)
    decreases |events|
  {
    events != [] ==> Legal(w, events[0]) && LegalRun(Exec(w, events[0]), events[1..])
  }

  ghost function Run(w: World, events: seq<Event>): World
    requires LegalRun(w, events)
    decreases |events|
  {
    if events == [] then w else Run(Exec(w, events[0]), events[1..])
  }

  lemma {:induction false} RunKeeps(w: World, events: seq<Event>)
    requires Inv(w) && LegalRun(w, events)
    ensures Inv(Run(w, events))
    decreases |events|
  {
    hide Inv, Exec, Legal;
    if events != [] {
      ExecKeeps(w, events[0]);
      RunKeeps(Exec(w, events[0]), events[1..]);
    }
  }

  lemma {:induction false} RunRecords(w: World, events: seq<Event>, id: Id)
    requires Inv(w) && LegalRun(w, events)
    ensures var u := Run(w, events);
            && (Present(w, id) ==> Present(u, id) || id in u.book.aborted || id in u.book.ended)
            && (id in w.book.ended ==> id in u.book.ended) && (id in w.book.aborted ==> id in u.book.aborted)
            && (id in w.book.reported ==> id in u.book.reported)
    decreases |events|
  {
    hide Inv, Exec, Legal, Present;
    if events != [] {
      ExecKeeps(w, events[0]);
      BookGrows(w, events[0], id);
      if Present(w, id) {
        StaysPresent(w, events[0], id);
      }
      RunRecords(Exec(w, events[0]), events[1..], id);
    }
  }

  const Empty := World(map[], map[], map[], {}, {}, {}, false, Idle, Book(map[], {}, {}, {}, {}, {}))

  // ----- cleanup and reconcile -----

  /** The tombstones the loaded registry lists, renamed back. */
  function RestoredLive(w: World): map<Id, Dir>
  {
    w.live + map id | id in w.tomb && id in w.registry :: w.tomb[id]
  }

  function Doomed(w: World): set<Id> { w.tomb.Keys - w.registry }

  /** All of `clean_partial_dirs` and `reconcile_vaults` after loading the registry file, when
      nothing fails. */
  function Reconciled(w: World): World
  {
    var live, marked := RestoredLive(w), w.marked + Doomed(w);
    var list := w.registry + Openable(live, marked);
    World(live, map[], map[], list, marked, list, true, Idle, w.book.(ended := w.book.ended + Doomed(w)))
  }

  lemma RestoredKeys(w: World)
    requires w.live.Keys !! w.tomb.Keys
    ensures forall id :: id in RestoredLive(w) <==> id in w.live || (id in w.tomb && id in w.registry)
    ensures forall id :: id in w.live ==> RestoredLive(w)[id] == w.live[id]
    ensures forall id :: id in w.tomb && id in w.registry ==> RestoredLive(w)[id] == w.tomb[id]
  {
  }

  lemma ReconciledBooks(w: World)
    requires Inv(w)
    ensures Books(Reconciled(w))
  {
    RestoredKeys(w);
    hide RestoredLive, Openable, PcInv;
    var r := Reconciled(w);
    forall id | id in r.live
      ensures Intact(r.book, id, r.live[id])
    {
      assert id in w.live || (id in w.tomb && id !in w.book.ended);
      assert Intact(w.book, id, r.live[id]);
    }
  }

  lemma ReconciledLists(w: World)
    requires Inv(w)
    ensures Lists(Reconciled(w)) && (w.marked + Doomed(w)) !! RestoredLive(w).Keys
  {
    RestoredKeys(w);
    hide RestoredLive, PcInv, Intact;
    assert w.marked !! w.live.Keys;
    var r := Reconciled(w);
    assert Openable(r.live, r.marked) <= r.live.Keys;
    hide Openable;
    assert w.registry <= r.live.Keys;
    assert r.book.ended !! r.live.Keys;
  }

  /** From every reachable state, crashed anywhere: no tombstone and no partial directory is
      left; the registry lists exactly the vault directories that open, hence all of them
      if and only if none was broken by an interrupted rollback of a creation; every
      vault the registry file listed is still there with its data; the tombstones it did
      not list are gone for good. */
  lemma ReconcileAgrees(w: World)
    requires Inv(w)
    ensures var r := Reconciled(w);
            && Inv(r) && r.tomb == map[] && r.partial == map[] && r.session == r.registry
            && r.registry == (set id | id in r.live && Opens(r.live[id])) + w.registry
            && (forall id :: id in w.registry ==> id in r.live && Intact(w.book, id, r.live[id]))
            && (forall id :: id in w.live ==> id in r.live && r.live[id] == w.live[id])
            && (forall id :: id in w.tomb && id !in w.registry ==> id !in r.live && id in r.book.ended)
            && (r.registry == r.live.Keys <==> forall id :: id in w.live && id !in w.registry ==> Opens(w.live[id]))
            && r.book.ended !! r.live.Keys && r.book.ended !! r.registry
  {
    var r := Reconciled(w);
    ReconciledBooks(w);
    ReconciledLists(w);
    RestoredKeys(w);
    assert Openable(r.live, r.marked) == set id | id in r.live && Opens(r.live[id]);
    assert w.registry <= r.live.Keys && (forall id :: id in w.registry && id in w.tomb ==> id !in w.book.ended);
    assert r.book.ended !! r.live.Keys && r.book.ended !! r.registry;
    hide RestoredLive, Openable, PcInv, Lists;
  }

  /** Reconciling again changes nothing. */
  lemma ReconcileIdempotent(w: World)
    requires Inv(w)
    ensures Reconciled(Reconciled(w)) == Reconciled(w)
  {
    ReconciledBooks(w);
    hide Inv;
    var r := Reconciled(w);
    assert RestoredLive(r) == r.live;
    assert Doomed(r) == {};
    hide RestoredLive, Doomed, Openable;
  }

  /** The parts of a reconciled state decide it. */
  lemma SameParts(v: World, w: World)
    requires RestoredLive(v) == RestoredLive(w) && v.marked + Doomed(v) == w.marked + Doomed(w)
    requires v.registry + Openable(RestoredLive(w), w.marked + Doomed(w)) ==
             w.registry + Openable(RestoredLive(w), w.marked + Doomed(w))
    requires v.book.(ended := v.book.ended + Doomed(v)) == w.book.(ended := w.book.ended + Doomed(w))
    ensures Reconciled(v) == Reconciled(w)
  {
    hide RestoredLive, Doomed, Openable;
  }

  /** What is still to do: restoring needs the list, retiring its absence. */
  lemma ListedAlike(w: World, id: Id)
    requires Inv(w) && w.unlocking && id in w.tomb
    ensures id in w.session <==> id in w.registry
  {
    assert Openable(w.live, w.marked) <= w.live.Keys;
  }

  function Moved(w: World, id: Id): World
    requires id in w.tomb
  {
    w.(live := w.live[id := w.tomb[id]], tomb := w.tomb - {id})
  }

  lemma RestoredMoved(w: World, id: Id)
    requires w.live.Keys !! w.tomb.Keys && id in w.tomb && id in w.registry
    ensures RestoredLive(Moved(w, id)) == RestoredLive(w) && Doomed(Moved(w, id)) == Doomed(w)
  {
    RestoredKeys(w);
    RestoredKeys(Moved(w, id));
    assert Doomed(Moved(w, id)) == Doomed(w);
    hide RestoredLive;
    assert RestoredLive(Moved(w, id)).Keys == RestoredLive(w).Keys;
  }

  lemma RestoreResumes(w: World, id: Id)
    requires Inv(w) && w.unlocking && id in w.tomb && id in w.session
    ensures Reconciled(Recovered(w, RestoreTomb(id))) == Reconciled(w)
  {
    ListedAlike(w, id);
    assert w.live.Keys !! w.tomb.Keys;
    hide Inv, RestoredLive, Doomed, Openable, Reconciled;
    var v := Recovered(w, RestoreTomb(id));
    assert v == Moved(w, id);
    RestoredMoved(w, id);
    hide Recovered;
    SameParts(v, w);
  }

  lemma RetireResumes(w: World, step: RecoveryStep)
    requires Inv(w) && w.unlocking && (step.MarkTomb? || step.WipeMarked? || step.DropMarked?)
    requires step.id in w.tomb && step.id !in w.session && (step.MarkTomb? || step.id in w.marked)
    ensures Reconciled(Recovered(w, step)) == Reconciled(w)
  {
    var id := step.id;
    ListedAlike(w, id);
    assert w.marked <= w.book.ended;
    hide Inv;
    var v := Recovered(w, step);
    SameLive(v, w);
    assert v.marked + Doomed(v) == w.marked + Doomed(w);
    assert v.book.ended + Doomed(v) == w.book.ended + Doomed(w);
    SameParts(v, w);
  }

  lemma SameLive(v: World, w: World)
    requires v.live == w.live && v.registry == w.registry
    requires forall id :: id in w.registry ==>
               (id in v.tomb <==> id in w.tomb) && (id in w.tomb ==> v.tomb[id] == w.tomb[id])
    ensures RestoredLive(v) == RestoredLive(w)
  {
  }

  /** Listing directories that stay listed moves nothing. */
  lemma ListMore(w: World, more: set<Id>, session: set<Id>)
    requires more !! w.tomb.Keys && more <= Openable(RestoredLive(w), w.marked + Doomed(w))
    ensures Reconciled(w.(registry := w.registry + more, session := session)) == Reconciled(w)
  {
    var v := w.(registry := w.registry + more, session := session);
    assert RestoredLive(v) == RestoredLive(w) by { hide Openable; }
    assert Doomed(v) == Doomed(w);
    hide RestoredLive, Doomed, Openable;
    SameParts(v, w);
  }

  lemma ListResumes(w: World, save: SaveOutcome)
    requires Inv(w) && w.unlocking && !save.Nothing?
    ensures Reconciled(Recovered(w, ListLive(save))) == Reconciled(w)
  {
    var more, v := Openable(w.live, w.marked), Recovered(w, ListLive(save));
    assert more <= w.live.Keys && w.session <= w.registry <= w.session + more;
    assert w.live.Keys !! w.tomb.Keys;
    OpenableStays(w);
    hide Inv, Openable, RestoredLive, Doomed, Reconciled;
    assert w.session + more == w.registry + more;
    ListMore(w, more, v.session);
  }

  lemma OpenableStays(w: World)
    requires w.live.Keys !! w.tomb.Keys
    ensures Openable(w.live, w.marked) <= Openable(RestoredLive(w), w.marked + Doomed(w))
  {
  }

  /** An interrupted reconcile is no different: after any of its steps, in any order and
      however its save ended, a full one ends in the same state. */
  lemma ReconcileResumes(w: World, step: RecoveryStep)
    requires Inv(w) && w.unlocking
    ensures Reconciled(Recovered(w, step)) == Reconciled(w)
  {
    hide Inv, RestoredLive, Doomed, Openable, Reconciled;
    match step
    case CleanPartial(id) => CleanResumes(w, id);
    case RestoreTomb(id) =>
      if id in w.tomb && id in w.session {
        RestoreResumes(w, id);
      }
    case ListLive(save) =>
      if !save.Nothing? {
        ListResumes(w, save);
      }
    case MarkTomb(id) =>
      if id in w.tomb && id !in w.session {
        RetireResumes(w, step);
      }
    case WipeMarked(id) =>
      if id in w.tomb && id !in w.session && id in w.marked {
        RetireResumes(w, step);
      }
    case DropMarked(id) =>
      if id in w.tomb && id !in w.session && id in w.marked {
        RetireResumes(w, step);
      }
  }

  lemma CleanResumes(w: World, id: Id)
    ensures Reconciled(Recovered(w, CleanPartial(id))) == Reconciled(w)
  {
  }

  /** Whatever happened before the power failed, the next unlock leaves registry and
      directories in agreement, everything the registry file listed with its latest
      content, and nothing whose deletion was reported. */
  lemma EveryRunRecovers(events: seq<Event>)
    requires LegalRun(Empty, events)
    ensures var w := Run(Empty, events);
            var r := Reconciled(w);
            && r.tomb == map[] && r.partial == map[] && Reconciled(r) == r
            && (forall id :: id in w.registry && id !in w.book.aborted ==>
                  id in r.live && id in w.book.truth && r.live[id] == Whole(w.book.truth[id]))
            && w.book.reported !! r.live.Keys && w.book.reported !! r.registry
            && (w.book.aborted == {} ==> r.registry == r.live.Keys)
  {
    RunKeeps(Empty, events);
    var w := Run(Empty, events);
    ReconcileAgrees(w);
    ReconcileIdempotent(w);
    assert w.book.reported <= Reconciled(w).book.ended;
    assert forall id :: id in w.live ==> Intact(w.book, id, w.live[id]);
    hide Run, LegalRun, RestoredLive, Openable, Inv;
  }

  // ----- deletion -----

  /** The next unlock keeps a vault exactly when its directory is live or the registry file
      still lists its tombstone. */
  lemma KeptIff(w: World, id: Id)
    requires Inv(w)
    ensures id in Reconciled(w).live <==> id in w.live || (id in w.tomb && id in w.registry)
    ensures id in Reconciled(w).live ==> Intact(w.book, id, Reconciled(w).live[id])
  {
    ReconcileAgrees(w);
    RestoredKeys(w);
    assert forall x :: x in w.live ==> Intact(w.book, x, w.live[x]);
    hide RestoredLive, Inv;
  }

  /** Deletion over every run: of a vault present at `w`, the unlock after any run finds the
      latest content if no deletion of it was reported or half done; a reported one is
      final; a half-done one keeps it exactly when its directory was put back in time or
      the registry file names it again. */
  lemma DeletionAtomic(w: World, id: Id, events: seq<Event>)
    requires Inv(w) && Present(w, id) && LegalRun(w, events)
    ensures var u := Run(w, events);
            var r := Reconciled(u);
            && (id in u.book.reported ==> id !in r.live && id !in r.registry)
            && (id !in u.book.reported + u.book.halved + u.book.aborted ==>
                  id in r.live && id in r.registry && id in u.book.truth && r.live[id] == Whole(u.book.truth[id]))
            && (id in r.live <==> id in u.live || (id in u.tomb && id in u.registry))
            && (id in r.live ==> Intact(u.book, id, r.live[id]))
  {
    RunKeeps(w, events);
    RunRecords(w, events, id);
    var u := Run(w, events);
    hide Run, LegalRun;
    KeptIff(u, id);
    ReconcileAgrees(u);
    assert u.book.reported <= u.book.ended <= u.book.reported + u.book.halved;
    assert id in u.tomb ==> id in u.registry + u.book.ended + u.book.halved;
    assert u.book.ended <= Reconciled(u).book.ended;
    hide Inv, Openable, RestoredLive, Reconciled, Doomed;
  }

  /** A deletion that is reported as failed keeps the vault, whether the program then dies at
      once or gets to put the directory back, if and only if it was put back, or no
      registry was written and the one in place lists it. */
  lemma FailedDeletionIff(w: World, save: SaveOutcome, restored: Option<bool>)
    requires Inv(w) && w.pc.Entombed? && !save.Saved?
    ensures var id := w.pc.id;
            var v := Exec(w, SaveRemoved(save));
            var u := if restored.None? then v else Exec(v, Restore(restored.value));
            && id !in u.book.reported
            && (id in Reconciled(u).live <==> restored == Some(true) || (save.Nothing? && id in w.registry))
  {
    hide Inv, Reconciled, Exec, Intact;
    var id := w.pc.id;
    var v := Exec(w, SaveRemoved(save));
    SaveKeeps(w, save);
    HalfSaved(w, save);
    KeptIff(v, id);
    if restored.Some? {
      RestoreKeeps(v, restored.value);
      PutBack(v, restored.value);
      KeptIff(Exec(v, Restore(restored.value)), id);
    }
  }

  lemma HalfSaved(w: World, save: SaveOutcome)
    requires Inv(w) && w.pc.Entombed? && !save.Saved?
    ensures var id, v := w.pc.id, Exec(w, SaveRemoved(save));
            && v.pc == Restoring(id) && id in v.tomb && id !in v.live && id !in v.book.reported
            && (id in v.registry <==> save.Nothing? && id in w.registry)
  {
    hide Openable, Intact;
  }

  lemma PutBack(w: World, ok: bool)
    requires w.pc.Restoring? && w.pc.id in w.tomb && w.pc.id !in w.live
    ensures var id, v := w.pc.id, Exec(w, Restore(ok));
            && v.book == w.book && v.registry == w.registry
            && (id in v.live <==> ok) && (id in v.tomb <==> !ok)
  {
  }

  // ----- runs that end badly -----

  lemma RunCons(w: World, e: Event, rest: seq<Event>)
    requires Legal(w, e) && LegalRun(Exec(w, e), rest)
    ensures LegalRun(w, [e] + rest) && Run(w, [e] + rest) == Run(Exec(w, e), rest)
  {
    assert ([e] + rest)[1..] == rest;
    hide Exec, Legal;
  }

  /** The vault `id` after a creation that went well up to its anchor. */
  function Created(id: Id, c: Content): World
  {
    World(map[id := Whole(c)], map[], map[], {}, {}, {}, false, Renamed(id),
          Book(map[id := c], {}, {}, {}, {}, {id}))
  }

  function Creating(id: Id, c: Content): seq<Event> { [StartCreate(id, c)] + [BuildDone(true)] + [RenamePartial(true)] }

  lemma CreatingRuns(id: Id, c: Content, rest: seq<Event>)
    requires LegalRun(Created(id, c), rest)
    ensures LegalRun(Empty, Creating(id, c) + rest) && Run(Empty, Creating(id, c) + rest) == Run(Created(id, c), rest)
  {
    var w1 := Exec(Empty, StartCreate(id, c));
    var w2 := Exec(w1, BuildDone(true));
    var w3 := Exec(w2, RenamePartial(true));
    assert w3.partial == map[] && w3 == Created(id, c);
    RunCons(w2, RenamePartial(true), rest);
    RunCons(w1, BuildDone(true), [RenamePartial(true)] + rest);
    RunCons(Empty, StartCreate(id, c), [BuildDone(true)] + ([RenamePartial(true)] + rest));
    assert Creating(id, c) + rest == [StartCreate(id, c)] + ([BuildDone(true)] + ([RenamePartial(true)] + rest));
  }

  /** A deletion reported as failed can destroy the vault: the registry file was replaced, its
      anchor was not, and the program died before the directory was put back (or could
      not put it back). The next unlock takes the unlisted tombstone for a committed
      deletion and wipes it. */
  lemma FailedDeletionLosesVault(id: Id, c: Content)
    ensures var events := Creating(id, c) +
            ([Anchor(true)] + ([SaveNew(Saved)] + ([StartDelete(id)] + ([SaveRemoved(FileOnly)] + []))));
            && LegalRun(Empty, events)
            && var w := Run(Empty, events);
               && id in w.session && id !in w.book.reported && id in w.tomb && w.tomb[id] == Whole(c)
               && id !in Reconciled(w).live && id !in Reconciled(w).registry
  {
    var w1 := Exec(Created(id, c), Anchor(true));
    var w2 := Exec(w1, SaveNew(Saved));
    var w3 := Exec(w2, StartDelete(id));
    var w4 := Exec(w3, SaveRemoved(FileOnly));
    RunCons(w3, SaveRemoved(FileOnly), []);
    RunCons(w2, StartDelete(id), [SaveRemoved(FileOnly)] + []);
    RunCons(w1, SaveNew(Saved), [StartDelete(id)] + ([SaveRemoved(FileOnly)] + []));
    RunCons(Created(id, c), Anchor(true), [SaveNew(Saved)] + ([StartDelete(id)] + ([SaveRemoved(FileOnly)] + [])));
    CreatingRuns(id, c, [Anchor(true)] + ([SaveNew(Saved)] + ([StartDelete(id)] + ([SaveRemoved(FileOnly)] + []))));
    assert w4.registry == {} && id in w4.tomb && id !in w4.live;
    hide LegalRun, Run;
    assert Openable(RestoredLive(w4), w4.marked + Doomed(w4)) == {};
  }

  /** The two ways a rolled-back creation can be interrupted: late, its directory stays
      unlisted for ever; early, it is listed although its data is gone. */
  lemma RollbackInterrupted(id: Id, c: Content)
    ensures var early := Creating(id, c) + ([Anchor(false)] + ([WipeLive] + []));
            var late := Creating(id, c) + ([Anchor(false)] + ([WipeLive] + ([WipeLive] + [])));
            && LegalRun(Empty, early) && LegalRun(Empty, late)
            && var r, q := Reconciled(Run(Empty, early)), Reconciled(Run(Empty, late));
               && id in r.registry && id in r.live && r.live[id] == Gutted
               && id !in q.registry && id in q.live
  {
    var w1 := Exec(Created(id, c), Anchor(false));
    var w2 := Exec(w1, WipeLive);
    var w3 := Exec(w2, WipeLive);
    RunCons(w1, WipeLive, []);
    RunCons(w2, WipeLive, []);
    RunCons(w1, WipeLive, [WipeLive] + []);
    RunCons(Created(id, c), Anchor(false), [WipeLive] + []);
    RunCons(Created(id, c), Anchor(false), [WipeLive] + ([WipeLive] + []));
    CreatingRuns(id, c, [Anchor(false)] + ([WipeLive] + []));
    CreatingRuns(id, c, [Anchor(false)] + ([WipeLive] + ([WipeLive] + [])));
    hide LegalRun, Run;
    assert RestoredLive(w2) == w2.live && RestoredLive(w3) == w3.live;
  }
}
