/** Every run of the stores: when each document keeps its collection, and when an Undo gives back what there was. */
module StoreRuns {
  import opened Basics
  import opened Database
  import opened FolderTree
  import opened ImportUndo
  import opened StoreCopies
  import opened StoreUndo
  import opened Stores

  /** What an Undo that is offered would do. */
  datatype Undo = UndoDelete(removed: Removed) | UndoImport(id: string, handed: seq<Removed>)

  /** The stores, and the Undo of the step just taken. */
  datatype State = State(s: Snapshot, undo: Option<Undo>)

  datatype Event =
    | NewCollection(collection: Collection)
    | NewFolder(folder: Folder)
    | NewRequest(request: Request, stored: seq<(string, StoredFile)>)
    | SaveRequest(id: string, patch: Patch, stored: seq<(string, StoredFile)>, now: int)
    | EditCollection(collection: Collection)
    | EditFolder(folder: Folder)
    | EditRequest(request: Request)
    | CopyRequest(id: string, request: Request)
    | CopyFolder(id: string, folder: Folder, fm: map<string, string>, rm: map<string, string>)
    | CopyCollection(id: string, collection: Collection, fm: map<string, string>, rm: map<string, string>)
    | DeleteRequest(id: string, removed: Removed)
    | DeleteFolder(id: string, removed: Removed)
    | DeleteCollection(id: string, removed: Removed)
    | Import(payload: Payload, asNew: bool, handed: seq<Removed>)
    | TakeUndo

  function Undone(s: Snapshot, undo: Undo): Snapshot {
    match undo
    case UndoDelete(removed) => PutBack(s, removed)
    case UndoImport(id, handed) => PutBackAll(DeletedCollection(s, id), handed)
  }

  /** The files a save stores are files its body names. */
  ghost predicate OnlyNamed(stored: seq<(string, StoredFile)>, body: Body) {
    forall e :: e in stored ==> e.0 in FileIdsOf(body)
  }

  /**
   * What a step makes of the stores. A create looks at no other store; an edit keeps a document's collection and body.
   */
  ghost predicate Changes(s: Snapshot, e: Event, t: Snapshot) {
    match e
    case NewCollection(doc) =>
      doc.meta.id !in s.collections && t == s.(collections := s.collections[doc.meta.id := doc])
    case NewFolder(doc) => doc.meta.id !in s.folders && t == s.(folders := s.folders[doc.meta.id := doc])
    case NewRequest(doc, stored) =>
      doc.meta.id !in s.requests && OnlyNamed(stored, doc.body) && t == Created(s, doc, stored)
    case SaveRequest(id, patch, stored, now) =>
      && (id in s.requests ==> OnlyNamed(stored, Patched(s.requests[id], patch, now).body))
      && t == Saved(s, id, patch, stored, now)
    case EditCollection(doc) =>
      doc.meta.id in s.collections && t == s.(collections := s.collections[doc.meta.id := doc])
    case EditFolder(doc) =>
      && doc.meta.id in s.folders && s.folders[doc.meta.id].collectionId == doc.collectionId
      && t == s.(folders := s.folders[doc.meta.id := doc])
    case EditRequest(doc) =>
      && doc.meta.id in s.requests && s.requests[doc.meta.id].collectionId == doc.collectionId
      && s.requests[doc.meta.id].body == doc.body
      && t == s.(requests := s.requests[doc.meta.id := doc])
    case CopyRequest(id, doc) =>
      && id in s.requests && doc.meta.id !in s.requests
      && s.requests[id].collectionId == doc.collectionId && s.requests[id].body == doc.body
      && t == s.(requests := s.requests[doc.meta.id := doc])
    case CopyFolder(id, doc, fm, rm) => FolderCopied(s, t, id, doc, fm, rm)
    case CopyCollection(id, doc, fm, rm) => CollectionCopied(s, t, id, doc, fm, rm)
    case DeleteRequest(id, removed) => t == TakeOut(s, {}, {}, {id}) && Captures(removed, s, {}, {}, {id})
    case DeleteFolder(id, removed) =>
      && t == DeletedFolder(s, id)
      && Captures(removed, s, {}, WithInside(s.folders, id), RequestsIn(s, WithInside(s.folders, id)))
    case DeleteCollection(id, removed) =>
      t == DeletedCollection(s, id) && Captures(removed, s, {id}, FoldersOf(s, id), RequestsOf(s, id))
    case Import(p, asNew, handed) =>
      (asNew ==> Unused(s, p.collection.meta.id)) && t == Imported(s, p, asNew) && Handed(handed, s, p, asNew)
    case TakeUndo => false
  }

  function Offered(e: Event): Option<Undo> {
    match e
    case DeleteRequest(_, removed) => Some(UndoDelete(removed))
    case DeleteFolder(_, removed) => Some(UndoDelete(removed))
    case DeleteCollection(_, removed) => Some(UndoDelete(removed))
    case Import(p, _, handed) => Some(UndoImport(p.collection.meta.id, handed))
    case _ => None
  }

  ghost predicate Next(a: State, e: Event, b: State) {
    if e.TakeUndo? then a.undo.Some? && b == State(Undone(a.s, a.undo.value), None)
    else Changes(a.s, e, b.s) && b.undo == Offered(e)
  }

  /** A folder or a request is created in a collection that is there. */
  predicate Homes(s: Snapshot, e: Event) {
    match e
    case NewFolder(doc) => doc.collectionId in s.collections
    case NewRequest(doc, _) => doc.collectionId in s.collections
    case _ => true
  }

  /** Each document is stored under its id, and each file is named by a request. */
  ghost predicate Clean(s: Snapshot) {
    Keyed(s) && NoOrphan(s)
  }

  /** What was clean is. */
  ghost predicate Kept(s: Snapshot, t: Snapshot) {
    Keyed(t) && (NoOrphan(s) ==> NoOrphan(t))
  }

  ghost predicate Sound(s: Snapshot) {
    Clean(s) && Integrity(s)
  }

  ghost predicate Inv(a: State) {
    Sound(a.s) && (a.undo.Some? ==> Sound(Undone(a.s, a.undo.value)))
  }

  ghost predicate Run(states: seq<State>, events: seq<Event>) {
    && |states| == |events| + 1
    && states[0] == State(Snapshot(map[], map[], map[], map[]), None)
    && forall i :: 0 <= i < |events| ==> Next(states[i], events[i], states[i + 1])
  }

  // ---- What an Undo gives back ----

  /** The Undo of this step would give back these stores. */
  ghost predicate Returns(s: Snapshot, e: Event) {
    match e
    case DeleteRequest(id, _) => NoOrphan(s) && Homed(s, {}, {id})
    case DeleteFolder(id, _) =>
      NoOrphan(s) && Homed(s, WithInside(s.folders, id), RequestsIn(s, WithInside(s.folders, id)))
    case DeleteCollection(id, _) => NoOrphan(s) && Homed(s, FoldersOf(s, id), RequestsOf(s, id))
    case Import(p, asNew, _) =>
      && NoOrphan(s) && (Replaces(s, p, asNew) || Unused(s, p.collection.meta.id))
      && Homed(s, TakenFolders(s, p, asNew), TakenRequests(s, p, asNew))
    case _ => false
  }

  lemma {:induction false} StepIsUndone(s: Snapshot, e: Event, t: Snapshot)
    requires Keyed(s) && Changes(s, e, t) && Offered(e).Some?
    ensures Undone(t, Offered(e).value) == s <==> Returns(s, e)
  {
    hide TakeOut, PutBack, PutBackAll, Captures, NoOrphan, RequestsIn, WithInside, Homed, Keyed;
    match e
    case DeleteRequest(id, removed) => RestoreIsInverse(s, {}, {}, {id}, removed);
    case DeleteFolder(id, removed) =>
      var fs := WithInside(s.folders, id);
      RestoreIsInverse(s, {}, fs, RequestsIn(s, fs), removed);
    case DeleteCollection(id, removed) => RestoreIsInverse(s, {id}, FoldersOf(s, id), RequestsOf(s, id), removed);
    case Import(p, asNew, handed) =>
      hide Imported, Handed, TakenFolders, TakenRequests, FoldersOf, RequestsOf, DeletedCollection, Replaces;
      UndoOfImport(s, p, asNew, handed);
  }

  /** What sound stores lose comes back. */
  lemma {:induction false} SoundReturns(s: Snapshot, e: Event, t: Snapshot)
    requires Sound(s) && Changes(s, e, t) && Offered(e).Some?
    ensures Returns(s, e)
  {
    hide NoOrphan, RequestsIn, WithInside, TakenFolders, TakenRequests, Imported, Handed, DeletedFolder,
      DeletedCollection, TakeOut, Captures, Keyed;
    assert forall fs, rs :: Homed(s, fs, rs);
  }

  // ---- What sweeping and taking out keep ----

  lemma {:induction false} SweptIsClean(s: Snapshot)
    requires Keyed(s)
    ensures Clean(Swept(s)) && (Integrity(s) ==> Integrity(Swept(s)))
  {
    assert Used(Swept(s)) == Used(s);
    hide Used;
  }

  lemma {:induction false} TakeOutIsClean(s: Snapshot, cs: set<string>, fs: set<string>, rs: set<string>)
    requires Keyed(s)
    ensures Clean(TakeOut(s, cs, fs, rs))
    ensures Integrity(s) && FoldersOfAny(s, cs) <= fs && RequestsOfAny(s, cs) <= rs ==>
      Integrity(TakeOut(s, cs, fs, rs))
  {
    var t := Snapshot(s.collections - cs, s.folders - fs, s.requests - rs, s.files);
    SweptIsClean(t);
    assert TakeOut(s, cs, fs, rs) == Swept(t);
    hide TakeOut, Swept, NoOrphan;
    if Integrity(s) && FoldersOfAny(s, cs) <= fs && RequestsOfAny(s, cs) <= rs {
      assert Integrity(t);
    }
  }

  lemma {:induction false} DeleteKeeps(s: Snapshot, e: Event, t: Snapshot)
    requires Keyed(s) && Changes(s, e, t) && (e.DeleteRequest? || e.DeleteFolder? || e.DeleteCollection?)
    ensures Clean(t) && (Integrity(s) ==> Integrity(t))
  {
    hide TakeOut, Captures, NoOrphan, RequestsIn, WithInside, Keyed;
    assert FoldersOfAny(s, {}) == {} && RequestsOfAny(s, {}) == {};
    match e
    case DeleteRequest(id, _) => TakeOutIsClean(s, {}, {}, {id});
    case DeleteFolder(id, _) =>
      TakeOutIsClean(s, {}, WithInside(s.folders, id), RequestsIn(s, WithInside(s.folders, id)));
    case DeleteCollection(id, _) =>
      TakeOutIsClean(s, {id}, FoldersOf(s, id), RequestsOf(s, id));
      assert FoldersOfAny(s, {id}) == FoldersOf(s, id) && RequestsOfAny(s, {id}) == RequestsOf(s, id);
  }

  lemma {:induction false} ImportKeeps(s: Snapshot, p: Payload, asNew: bool)
    requires Keyed(s)
    ensures Clean(Imported(s, p, asNew)) && (Integrity(s) ==> Integrity(Imported(s, p, asNew)))
  {
    ImportedKeyed(s, p, asNew);
    var id := p.collection.meta.id;
    var (cleared, now) := (Cleared(s, id, asNew), Imported(s, p, asNew));
    SweptHasNoOrphan(Snapshot(now.collections, now.folders, now.requests, cleared.files));
    assert now == Swept(Snapshot(now.collections, now.folders, now.requests, cleared.files));
    hide Imported, NoOrphan, Keyed, Cleared;
    if Integrity(s) {
      ImportKeepsIntegrity(s, p, asNew);
    }
  }

  lemma {:induction false} ImportKeepsIntegrity(s: Snapshot, p: Payload, asNew: bool)
    requires Integrity(s)
    ensures Integrity(Imported(s, p, asNew))
  {
    var id := p.collection.meta.id;
    var (cleared, now) := (Cleared(s, id, asNew), Imported(s, p, asNew));
    assert now.collections == cleared.collections[id := Untrusted(p.collection)];
    ClearedHomes(s, id, asNew);
    FoldersAfter(s, p, asNew);
    RequestsAfter(s, p, asNew);
    hide Imported, FolderKeys, RequestKeys, Cleared;
    forall k | k in now.folders ensures now.folders[k].collectionId in now.collections {
      if k !in FolderKeys(p) {
        assert k in cleared.folders && now.folders[k] == cleared.folders[k];
      }
    }
    forall k | k in now.requests ensures now.requests[k].collectionId in now.collections {
      if k !in RequestKeys(p) {
        assert k in cleared.requests && now.requests[k] == cleared.requests[k];
      }
    }
  }

  lemma {:induction false} ClearedHomes(s: Snapshot, id: string, asNew: bool)
    requires Integrity(s)
    ensures Integrity(Cleared(s, id, asNew))
  {
  }

  lemma {:induction false} SweptHasNoOrphan(s: Snapshot)
    ensures NoOrphan(Swept(s))
  {
    assert Used(Swept(s)) == Used(s);
  }

  // ---- What saving and copying keep ----

  /** More requests name more files. */
  lemma {:induction false} MoreNamed(s: Snapshot, t: Snapshot)
    requires forall k :: k in s.requests ==> k in t.requests && t.requests[k].body == s.requests[k].body
    ensures Used(s) <= Used(t)
  {
    forall f | f in Used(s) ensures f in Used(t) {
      var k :| k in s.requests && f in FileIdsOf(s.requests[k].body);
      assert k in t.requests.Keys;
    }
  }

  lemma {:induction false} PutAllKeys(files: map<string, StoredFile>, stored: seq<(string, StoredFile)>)
    ensures forall k :: k in PutAll(files, stored) ==> k in files || exists e :: e in stored && e.0 == k
  {
    if stored != [] {
      var (front, last) := (stored[..|stored| - 1], stored[|stored| - 1]);
      PutAllKeys(files, front);
      assert forall e :: e in stored <==> e in front || e == last;
    }
  }

  /** A request put among the others with files it names leaves no orphan, when it lets go of none. */
  lemma {:induction false} SavedNamesItsFiles(s: Snapshot, t: Snapshot, doc: Request, stored: seq<(string, StoredFile)>)
    requires NoOrphan(s) && t == Created(s, doc, stored) && OnlyNamed(stored, doc.body)
    requires doc.meta.id in s.requests ==> s.requests[doc.meta.id].body == doc.body
    ensures NoOrphan(t)
  {
    MoreNamed(s, t);
    PutAllKeys(s.files, stored);
    hide PutAll, FileIdsOf;
    forall f | f in t.files ensures f in Used(t) {
      if f !in s.files {
        assert doc.meta.id in t.requests.Keys && t.requests[doc.meta.id] == doc;
      }
    }
  }

  lemma {:induction false} SaveKeeps(s: Snapshot, id: string, patch: Patch, stored: seq<(string, StoredFile)>,
    now: int)
    requires Keyed(s) && id in s.requests && OnlyNamed(stored, Patched(s.requests[id], patch, now).body)
    ensures var t := Saved(s, id, patch, stored, now); Kept(s, t) && (Integrity(s) ==> Integrity(t))
  {
    var doc := Patched(s.requests[id], patch, now);
    var t := Created(s, doc, stored);
    assert doc.meta.id == id && doc.collectionId == s.requests[id].collectionId;
    assert Keyed(t) && (Integrity(s) ==> Integrity(t));
    if patch.body.Some? {
      SweptIsClean(t);
    } else if NoOrphan(s) {
      SavedNamesItsFiles(s, t, doc, stored);
    }
  }

  lemma {:induction false} NothingSaved(s: Snapshot, id: string, patch: Patch, stored: seq<(string, StoredFile)>,
    now: int)
    requires id !in s.requests
    ensures Saved(s, id, patch, stored, now) == s
  {
  }

  /** Documents added to those that were there, with the files as they were, leave the stores as clean. */
  lemma {:induction false} GrownIsClean(s: Snapshot, t: Snapshot)
    requires Keyed(s) && Untouched(s, t)
    requires forall k :: k in t.collections && k !in s.collections ==> t.collections[k].meta.id == k
    requires forall k :: k in t.folders && k !in s.folders ==> t.folders[k].meta.id == k
    requires forall k :: k in t.requests && k !in s.requests ==> t.requests[k].meta.id == k
    ensures Kept(s, t)
  {
    MoreNamed(s, t);
    hide Used;
  }

  ghost predicate FolderFits(s: Snapshot, t: Snapshot, k: string) {
    && k in t.folders && t.folders[k].meta.id == k
    && (Integrity(s) ==> t.folders[k].collectionId in t.collections)
  }

  ghost predicate RequestFits(s: Snapshot, t: Snapshot, k: string) {
    && k in t.requests && t.requests[k].meta.id == k
    && (Integrity(s) ==> t.requests[k].collectionId in t.collections)
  }

  lemma {:induction false} FittingIsClean(s: Snapshot, t: Snapshot)
    requires Keyed(s) && Untouched(s, t)
    requires forall k :: k in t.collections && k !in s.collections ==> t.collections[k].meta.id == k
    requires forall k :: k in t.folders && k !in s.folders ==> FolderFits(s, t, k)
    requires forall k :: k in t.requests && k !in s.requests ==> RequestFits(s, t, k)
    ensures Kept(s, t) && (Integrity(s) ==> Integrity(t))
  {
    hide Keyed, NoOrphan;
    GrownIsClean(s, t);
  }

  lemma {:induction false} CopyFolderKeeps(s: Snapshot, t: Snapshot, id: string, doc: Folder,
    fm: map<string, string>, rm: map<string, string>)
    requires Keyed(s) && FolderCopied(s, t, id, doc, fm, rm)
    ensures Kept(s, t) && (Integrity(s) ==> Integrity(t))
  {
    hide Below, RequestsIn, Moved, Injective, NoOrphan;
    forall k | k in t.folders && k !in s.folders ensures FolderFits(s, t, k) {
      var j :| j in fm && fm[j] == k;
    }
    forall k | k in t.requests && k !in s.requests ensures RequestFits(s, t, k) {
      var j :| j in rm && rm[j] == k;
    }
    hide FolderFits, RequestFits;
    FittingIsClean(s, t);
  }

  lemma {:induction false} CopyCollectionKeeps(s: Snapshot, t: Snapshot, id: string, doc: Collection,
    fm: map<string, string>, rm: map<string, string>)
    requires Keyed(s) && CollectionCopied(s, t, id, doc, fm, rm)
    ensures Kept(s, t) && (Integrity(s) ==> Integrity(t))
  {
    hide FoldersOf, RequestsOf, MovedParent, MovedFolder, Injective, NoOrphan;
    forall k | k in t.folders && k !in s.folders ensures FolderFits(s, t, k) {
      var j :| j in fm && fm[j] == k;
    }
    forall k | k in t.requests && k !in s.requests ensures RequestFits(s, t, k) {
      var j :| j in rm && rm[j] == k;
    }
    hide FolderFits, RequestFits;
    FittingIsClean(s, t);
  }

  /** A create keeps each document's collection there exactly when its own is. */
  lemma {:induction false} CreateKeepsIntegrity(s: Snapshot, e: Event, t: Snapshot)
    requires Integrity(s) && Changes(s, e, t) && (e.NewFolder? || e.NewRequest?)
    ensures Integrity(t) <==> Homes(s, e)
  {
    hide PutAll, OnlyNamed;
    if e.NewFolder? {
      assert e.folder.meta.id in t.folders && t.folders[e.folder.meta.id] == e.folder;
    } else {
      assert e.request.meta.id in t.requests && t.requests[e.request.meta.id] == e.request;
    }
  }

  /** Collections and folders made, changed in place or moved leave the requests and the files as they are. */
  lemma {:induction false} TreeChangeIsClean(s: Snapshot, e: Event, t: Snapshot)
    requires Keyed(s) && Changes(s, e, t) && (e.NewCollection? || e.NewFolder? || e.EditCollection? || e.EditFolder?)
    ensures Kept(s, t) && (Integrity(s) && !e.NewFolder? ==> Integrity(t))
  {
    MoreNamed(s, t);
    hide Used;
  }

  lemma {:induction false} RequestChangeKeeps(s: Snapshot, e: Event, t: Snapshot)
    requires Keyed(s) && Changes(s, e, t) && (e.EditRequest? || e.CopyRequest?)
    ensures Kept(s, t) && (Integrity(s) ==> Integrity(t))
  {
    MoreNamed(s, t);
    hide Used;
  }

  lemma {:induction false} NewRequestIsClean(s: Snapshot, doc: Request, stored: seq<(string, StoredFile)>)
    requires Keyed(s) && doc.meta.id !in s.requests && OnlyNamed(stored, doc.body)
    ensures Kept(s, Created(s, doc, stored))
  {
    if NoOrphan(s) {
      SavedNamesItsFiles(s, Created(s, doc, stored), doc, stored);
    }
    hide NoOrphan, PutAll;
  }

  /**
   * Every change keeps the stores as clean as they were, and each document's collection there unless it creates one
   * where none is.
   */
  lemma {:induction false} ChangeKeeps(s: Snapshot, e: Event, t: Snapshot)
    requires Keyed(s) && Changes(s, e, t)
    ensures Kept(s, t) && (Integrity(s) ==> (Integrity(t) <==> Homes(s, e)))
  {
    hide FolderCopied, CollectionCopied, Saved, Created, Patched, Integrity, NoOrphan, Keyed;
    match e
    case NewFolder(_) => CreateChangeKeeps(s, e, t);
    case NewRequest(_, _) => CreateChangeKeeps(s, e, t);
    case SaveRequest(id, patch, stored, now) =>
      if id in s.requests {
        SaveKeeps(s, id, patch, stored, now);
      } else {
        NothingSaved(s, id, patch, stored, now);
      }
    case CopyFolder(id, doc, fm, rm) => CopyFolderKeeps(s, t, id, doc, fm, rm);
    case CopyCollection(id, doc, fm, rm) => CopyCollectionKeeps(s, t, id, doc, fm, rm);
    case EditRequest(_) => RequestChangeKeeps(s, e, t);
    case CopyRequest(_, _) => RequestChangeKeeps(s, e, t);
    case DeleteRequest(_, _) => DeleteKeeps(s, e, t);
    case DeleteFolder(_, _) => DeleteKeeps(s, e, t);
    case DeleteCollection(_, _) => DeleteKeeps(s, e, t);
    case Import(p, asNew, _) => ImportKeeps(s, p, asNew);
    case _ => TreeChangeIsClean(s, e, t);
  }

  lemma {:induction false} CreateChangeKeeps(s: Snapshot, e: Event, t: Snapshot)
    requires Keyed(s) && Changes(s, e, t) && (e.NewFolder? || e.NewRequest?)
    ensures Kept(s, t) && (Integrity(s) ==> (Integrity(t) <==> Homes(s, e)))
  {
    hide Keyed, NoOrphan, Integrity;
    if e.NewFolder? {
      TreeChangeIsClean(s, e, t);
    } else {
      NewRequestIsClean(s, e.request, e.stored);
    }
    if Integrity(s) {
      CreateKeepsIntegrity(s, e, t);
    }
  }

  // ---- Every step and every run ----

  /**
   * A step keeps the stores sound, and what its Undo would give back, exactly when it creates nothing in a collection
   * that is gone.
   */
  lemma {:induction false} StepKeeps(a: State, e: Event, b: State)
    requires Inv(a) && Next(a, e, b)
    ensures Inv(b) <==> Homes(a.s, e)
  {
    hide Undone, Changes, Keyed, NoOrphan, Integrity;
    if !e.TakeUndo? {
      ChangeKeeps(a.s, e, b.s);
      if Offered(e).Some? {
        SoundReturns(a.s, e, b.s);
        StepIsUndone(a.s, e, b.s);
      }
    }
  }

  /** While every create has had its collection there, the stores are sound. */
  lemma {:induction false} RunKeeps(states: seq<State>, events: seq<Event>, i: nat)
    requires Run(states, events) && i < |states|
    requires forall j :: 0 <= j < i ==> Homes(states[j].s, events[j])
    ensures Inv(states[i])
    decreases i
  {
    hide Next, Undone;
    if i > 0 {
      RunKeeps(states, events, i - 1);
      hide Inv, Homes;
      assert Next(states[i - 1], events[i - 1], states[i]);
      StepKeeps(states[i - 1], events[i - 1], states[i]);
    }
  }

  /** In every state of a run each document's collection is there, exactly when that of every create was. */
  lemma {:induction false} RunHasIntegrity(states: seq<State>, events: seq<Event>)
    requires Run(states, events)
    ensures (forall i :: 0 <= i < |states| ==> Integrity(states[i].s))
       <==> forall i :: 0 <= i < |events| ==> Homes(states[i].s, events[i])
  {
    assert forall i :: 0 <= i < |events| ==> Next(states[i], events[i], states[i + 1]);
    if forall i :: 0 <= i < |events| ==> Homes(states[i].s, events[i]) {
      forall i | 0 <= i < |states| ensures Integrity(states[i].s) {
        RunKeeps(states, events, i);
        hide Run, Homes;
      }
    }
    if forall i :: 0 <= i < |states| ==> Integrity(states[i].s) {
      hide Run, Changes, Undone, Integrity;
      forall i | 0 <= i < |events| ensures Homes(states[i].s, events[i]) {
        if events[i].NewFolder? || events[i].NewRequest? {
          CreateKeepsIntegrity(states[i].s, events[i], states[i + 1].s);
        }
      }
    }
  }

  // ---- Undo in every run ----

  lemma {:induction false} PutBackAllKeyed(s: Snapshot, all: seq<Removed>)
    requires Keyed(s)
    ensures Keyed(PutBackAll(s, all))
  {
    hide PutBack, Keyed;
    if all != [] {
      PutBackAllKeyed(s, all[..|all| - 1]);
      PutBackKeyed(PutBackAll(s, all[..|all| - 1]), all[|all| - 1]);
    }
  }

  lemma {:induction false} UndoneIsKeyed(s: Snapshot, undo: Undo)
    requires Keyed(s)
    ensures Keyed(Undone(s, undo))
  {
    hide PutBack, Keyed, TakeOut, PutBackAll, FoldersOf, RequestsOf;
    match undo
    case UndoDelete(removed) => PutBackKeyed(s, removed);
    case UndoImport(id, handed) =>
      TakeOutIsClean(s, {id}, FoldersOf(s, id), RequestsOf(s, id));
      PutBackAllKeyed(DeletedCollection(s, id), handed);
  }

  lemma {:induction false} StepIsKeyed(a: State, e: Event, b: State)
    requires Keyed(a.s) && Next(a, e, b)
    ensures Keyed(b.s)
  {
    hide Undone, Changes, Keyed, NoOrphan, Integrity;
    if e.TakeUndo? {
      UndoneIsKeyed(a.s, a.undo.value);
    } else {
      ChangeKeeps(a.s, e, b.s);
    }
  }

  /** In every state of every run each document is stored under its id. */
  lemma {:induction false} RunIsKeyed(states: seq<State>, events: seq<Event>, i: nat)
    requires Run(states, events) && i < |states|
    ensures Keyed(states[i].s)
    decreases i
  {
    if i > 0 {
      hide Keyed, Next;
      RunIsKeyed(states, events, i - 1);
      assert Next(states[i - 1], events[i - 1], states[i]);
      StepIsKeyed(states[i - 1], events[i - 1], states[i]);
    }
  }

  /**
   * In every run an Undo taken right after a delete or an import gives back the stores as they were before it, exactly
   * when every file was named by a request and what went has its collection to come back to.
   */
  lemma {:induction false} UndoGivesBack(states: seq<State>, events: seq<Event>, i: nat)
    requires Run(states, events) && i + 1 < |events| && events[i + 1].TakeUndo?
    ensures states[i + 2].s == states[i].s <==> Returns(states[i].s, events[i])
  {
    RunIsKeyed(states, events, i);
    assert Next(states[i], events[i], states[i + 1]) && Next(states[i + 1], events[i + 1], states[i + 2]);
    hide Run, Undone, Changes, Keyed, Returns;
    StepIsUndone(states[i].s, events[i], states[i + 1].s);
  }

  /** It always does while every create has had its collection there. */
  lemma {:induction false} UndoGivesBackSound(states: seq<State>, events: seq<Event>, i: nat)
    requires Run(states, events) && i + 1 < |events| && events[i + 1].TakeUndo?
    requires forall j :: 0 <= j < i ==> Homes(states[j].s, events[j])
    ensures states[i + 2].s == states[i].s
  {
    RunKeeps(states, events, i);
    UndoGivesBack(states, events, i);
    assert Next(states[i], events[i], states[i + 1]) && Next(states[i + 1], events[i + 1], states[i + 2]);
    hide Run, Undone, Changes, Sound, Returns;
    SoundReturns(states[i].s, events[i], states[i + 1].s);
  }

  // ---- A folder created in a collection that is gone ----

  const EMPTY: Snapshot := Snapshot(map[], map[], map[], map[])
  const GONE: Collection := Collection("c", Meta("c", 0, 0), "c", 1.0, "", true)
  const STRAY: Folder := Folder("f", Meta("f", 0, 0), "c", None, "f", 1.0, "")
  const EVENTS: seq<Event> := [
    NewCollection(GONE), DeleteCollection("c", Removed([GONE], [], [], [])), NewFolder(STRAY)]
  const STATES: seq<State> := [
    State(EMPTY, None),
    State(EMPTY.(collections := map["c" := GONE]), None),
    State(EMPTY, Offered(EVENTS[1])),
    State(EMPTY.(folders := map["f" := STRAY]), None)]

  /**
   * A collection is deleted, and then a folder is created in it: the folder is stored, and its collection is not there.
   */
  lemma {:induction false} FolderOfNoCollection()
    ensures Run(STATES, EVENTS) && Sound(STATES[2].s) && !Integrity(STATES[3].s)
  {
    CollectionGoes();
    assert Next(STATES[0], EVENTS[0], STATES[1]);
    assert Next(STATES[1], EVENTS[1], STATES[2]);
    assert Next(STATES[2], EVENTS[2], STATES[3]);
    assert "f" in STATES[3].s.folders;
  }

  lemma {:induction false} CollectionGoes()
    ensures Changes(STATES[1].s, EVENTS[1], STATES[2].s)
  {
    var s := STATES[1].s;
    assert FoldersOf(s, "c") == {} && RequestsOf(s, "c") == {};
    assert s.collections - {"c"} == map[] && s.folders - {} == map[] && s.requests - {} == map[];
    assert DeletedCollection(s, "c") == EMPTY;
  }

  /**
   * The collection is imported then: that takes the folder out, hands nothing over, and its Undo does not put it back.
   */
  lemma {:induction false} StrayIsLost()
    ensures var (s, p) := (STATES[3].s, Payload(GONE, [], []));
            && Changes(s, Import(p, false, []), Imported(s, p, false))
            && Undone(Imported(s, p, false), UndoImport("c", [])) != s
  {
    var (s, p) := (STATES[3].s, Payload(GONE, [], []));
    assert TakenFolders(s, p, false) == {} && TakenRequests(s, p, false) == {};
    assert Handed([], s, p, false);
    assert "f" in FoldersOf(s, "c");
    hide Imported, PutBackAll, DeletedCollection, TakenFolders, TakenRequests, FoldersOf, RequestsOf;
    StepIsUndone(s, Import(p, false, []), Imported(s, p, false));
  }
}
