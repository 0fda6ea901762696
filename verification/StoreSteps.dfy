/** Each method of the database is a step of the runs: what is proved of every run holds of its calls in any order. */
module StoreSteps {
  import opened Basics
  import opened Database
  import opened StoreRuns
  import opened Stores

  /** A call of the database, with the ids and times it is given. */
  datatype Call =
    | CreateCollection(meta: Meta, name: string, content: string)
    | CreateFolder(meta: Meta, collectionId: string, name: string, parent: Option<string>, order: Option<real>,
        content: string)
    | CreateRequest(meta: Meta, request: Request, order: Option<real>, stored: seq<(string, StoredFile)>)
    | UpdateRequest(id: string, patch: Patch, stored: seq<(string, StoredFile)>, now: int)
    | DuplicateRequest(id: string, meta: Meta)
    | DuplicateFolder(id: string, folderMetas: map<string, Meta>, requestMetas: map<string, Meta>)
    | DuplicateCollection(id: string, meta: Meta, folderMetas: map<string, Meta>, requestMetas: map<string, Meta>)
    | RemoveRequest(id: string)
    | RemoveFolder(id: string)
    | RemoveCollection(id: string)
    | ImportFile(payload: Payload, asNew: bool)

  /** New ids are in no use, and the files a call stores are files its body names. */
  ghost predicate Fits(s: Snapshot, c: Call) {
    match c
    case CreateCollection(meta, _, _) => meta.id !in s.collections
    case CreateFolder(meta, _, _, _, _, _) => meta.id !in s.folders
    case CreateRequest(meta, r, _, stored) => meta.id !in s.requests && OnlyNamed(stored, r.body)
    case UpdateRequest(id, patch, stored, now) =>
      id in s.requests ==> OnlyNamed(stored, Patched(s.requests[id], patch, now).body)
    case DuplicateRequest(_, meta) => meta.id !in s.requests
    case DuplicateFolder(id, fms, rms) =>
      && NewIds(fms, WithInside(s.folders, id), s.folders.Keys)
      && NewIds(rms, RequestsIn(s, WithInside(s.folders, id)), s.requests.Keys)
    case DuplicateCollection(id, meta, fms, rms) =>
      && meta.id !in s.collections
      && NewIds(fms, FoldersOf(s, id), s.folders.Keys) && NewIds(rms, RequestsOf(s, id), s.requests.Keys)
    case ImportFile(p, asNew) => asNew ==> ImportUndo.Unused(s, p.collection.meta.id)
    case _ => true
  }

  /** There is nothing to duplicate, or the file's collection has no id. */
  predicate Refused(s: Snapshot, c: Call) {
    match c
    case DuplicateRequest(id, _) => id !in s.requests
    case DuplicateFolder(id, _, _) => id !in s.folders
    case DuplicateCollection(id, _, _, _) => id !in s.collections
    case ImportFile(p, _) => p.collection.meta.id == ""
    case _ => false
  }

  /** What a call comes to: nothing when it is refused, and a step otherwise. */
  ghost predicate Steps(s: Snapshot, c: Call, step: Option<Event>, t: Snapshot) {
    && (step.None? <==> Refused(s, c))
    && if step.None? then t == s else Changes(s, step.value, t)
  }

  /** A call is refused and changes nothing, or is a step. */
  method Perform(db: Database, c: Call) returns (ghost step: Option<Event>)
    requires db.Valid() && Fits(db.State(), c)
    modifies db
    ensures db.Valid() && Steps(old(db.State()), c, step, db.State())
  {
    hide Steps, Fits;
    if c.DuplicateRequest? || c.DuplicateFolder? || c.DuplicateCollection? {
      step := Duplicate(db, c);
    } else if c.RemoveRequest? || c.RemoveFolder? || c.RemoveCollection? || c.ImportFile? {
      step := Replace(db, c);
    } else {
      step := Save(db, c);
    }
  }

  method Save(db: Database, c: Call) returns (ghost step: Option<Event>)
    requires db.Valid() && Fits(db.State(), c)
    requires c.CreateCollection? || c.CreateFolder? || c.CreateRequest? || c.UpdateRequest?
    modifies db
    ensures db.Valid() && Steps(old(db.State()), c, step, db.State())
  {
    hide Created, Saved, Patched, Keyed, IsNext;
    match c
    case CreateCollection(meta, name, content) =>
      var doc := db.CreateCollection(meta, name, content);
      step := Some(NewCollection(doc));
    case CreateFolder(meta, collectionId, name, parent, order, content) =>
      var doc := db.CreateFolder(meta, collectionId, name, parent, order, content);
      step := Some(NewFolder(doc));
    case CreateRequest(meta, r, order, stored) =>
      var doc := db.CreateRequest(meta, r, order, stored);
      step := Some(NewRequest(doc, stored));
    case UpdateRequest(id, patch, stored, now) =>
      var _ := db.UpdateRequest(id, patch, stored, now);
      step := Some(SaveRequest(id, patch, stored, now));
  }

  method Duplicate(db: Database, c: Call) returns (ghost step: Option<Event>)
    requires db.Valid() && Fits(db.State(), c)
    requires c.DuplicateRequest? || c.DuplicateFolder? || c.DuplicateCollection?
    modifies db
    ensures db.Valid() && Steps(old(db.State()), c, step, db.State())
  {
    hide StoreCopies.FolderCopied, StoreCopies.CollectionCopied, NewIds, WithInside, RequestsIn, FoldersOf, RequestsOf,
      Keyed, IsNext;
    match c
    case DuplicateRequest(id, meta) =>
      var copy := db.DuplicateRequest(id, meta);
      step := if copy.Some? then Some(CopyRequest(id, copy.value)) else None;
    case DuplicateFolder(id, fms, rms) =>
      var copy, fm, rm := db.DuplicateFolder(id, fms, rms);
      step := if copy.Some? then Some(CopyFolder(id, copy.value, fm, rm)) else None;
    case DuplicateCollection(id, meta, fms, rms) =>
      var copy, fm, rm := db.DuplicateCollection(id, meta, fms, rms);
      step := if copy.Some? then Some(CopyCollection(id, copy.value, fm, rm)) else None;
  }

  method Replace(db: Database, c: Call) returns (ghost step: Option<Event>)
    requires db.Valid() && Fits(db.State(), c)
    requires c.RemoveRequest? || c.RemoveFolder? || c.RemoveCollection? || c.ImportFile?
    modifies db
    ensures db.Valid() && Steps(old(db.State()), c, step, db.State())
  {
    hide TakeOut, Captures, DeletedFolder, DeletedCollection, Imported, Handed, WithInside, RequestsIn, FoldersOf,
      RequestsOf, Keyed;
    match c
    case RemoveRequest(id) =>
      var removed := db.DeleteRequest(id);
      step := Some(DeleteRequest(id, removed));
    case RemoveFolder(id) =>
      var removed := db.DeleteFolder(id);
      step := Some(DeleteFolder(id, removed));
    case RemoveCollection(id) =>
      var removed := db.DeleteCollection(id);
      step := Some(DeleteCollection(id, removed));
    case ImportFile(p, asNew) =>
      var imported, handed := db.ImportCollectionExport(p, asNew);
      step := if imported.Ok? then Some(Import(p, asNew, handed)) else None;
  }

  /** The Undo of a delete or of an import is the step that takes it. */
  method PerformUndo(db: Database, undo: StoreRuns.Undo)
    requires db.Valid()
    modifies db
    ensures db.Valid() && db.State() == Undone(old(db.State()), undo)
  {
    hide PutBack, DeletedCollection;
    match undo
    case UndoDelete(removed) => db.Restore(removed);
    case UndoImport(id, handed) =>
      var _ := db.DeleteCollection(id);
      ghost var start := db.State();
      for i := 0 to |handed|
        invariant db.Valid() && db.State() == PutBackAll(start, handed[..i])
      {
        assert handed[..i + 1][..i] == handed[..i];
        db.Restore(handed[i]);
      }
      assert handed[..|handed|] == handed;
  }
}
