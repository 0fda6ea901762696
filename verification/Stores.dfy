/**
 * The four stores that hold the collection tree, as values: what they hold, and what each transaction makes of them.
 */
module Stores {
  import opened Basics
  import opened Text

  datatype Meta = Meta(id: string, createdAt: int, updatedAt: int)

  datatype Part = TextPart(key: string, value: string) | FilePart(key: string, fileId: string)

  /** Every mode's content is kept, whichever mode is chosen. */
  datatype Body = Body(mode: string, text: string, parts: seq<Part>, binary: Option<string>)

  /** What a document holds beside its place in the tree, its name and its body is one text here. */
  datatype Collection = Collection(id: string, meta: Meta, name: string, order: real, content: string, trusted: bool)

  datatype Folder = Folder(id: string, meta: Meta, collectionId: string, parentFolderId: Option<string>,
    name: string, order: real, content: string)

  datatype Request = Request(id: string, meta: Meta, collectionId: string, folderId: Option<string>,
    name: string, order: real, content: string, body: Body)

  datatype StoredFile = StoredFile(bytes: string, kind: string)

  /** A document's key in its store is its `meta.id`. */
  datatype Snapshot = Snapshot(
    collections: map<string, Collection>,
    folders: map<string, Folder>,
    requests: map<string, Request>,
    files: map<string, StoredFile>)

  ghost predicate Keyed(s: Snapshot) {
    && (forall k :: k in s.collections ==> s.collections[k].meta.id == k)
    && (forall k :: k in s.folders ==> s.folders[k].meta.id == k)
    && (forall k :: k in s.requests ==> s.requests[k].meta.id == k)
  }

  // ---- Files and the requests that name them ----

  function PartFiles(parts: seq<Part>): seq<string> {
    if parts == [] then []
    else if parts[0].FilePart? then [parts[0].fileId] + PartFiles(parts[1..])
    else PartFiles(parts[1..])
  }

  /** What a request keeps a file alive with: the file parts and the binary, also of modes that are not chosen. */
  function FileIdsOf(body: Body): seq<string> {
    PartFiles(body.parts) + if body.binary.Some? then [body.binary.value] else []
  }

  /** The files these requests name. */
  function Named(requests: map<string, Request>, these: set<string>): set<string> {
    set k, f | k in these && k in requests && f in FileIdsOf(requests[k].body) :: f
  }

  function Used(s: Snapshot): set<string> {
    Named(s.requests, s.requests.Keys)
  }

  /** Every stored file is named by a stored request. */
  predicate NoOrphan(s: Snapshot) {
    s.files.Keys <= Used(s)
  }

  /** Every folder's and every request's collection exists. */
  ghost predicate Integrity(s: Snapshot) {
    && (forall k :: k in s.folders ==> s.folders[k].collectionId in s.collections)
    && (forall k :: k in s.requests ==> s.requests[k].collectionId in s.collections)
  }

  /** The stores without the files no request names. */
  function Swept(s: Snapshot): Snapshot {
    s.(files := map f | f in s.files && f in Used(s) :: s.files[f])
  }

  // ---- Taking out ----

  function FoldersOf(s: Snapshot, collectionId: string): set<string> {
    set k | k in s.folders && s.folders[k].collectionId == collectionId
  }

  function RequestsOf(s: Snapshot, collectionId: string): set<string> {
    set k | k in s.requests && s.requests[k].collectionId == collectionId
  }

  function FoldersOfAny(s: Snapshot, ids: set<string>): set<string> {
    set k | k in s.folders && s.folders[k].collectionId in ids
  }

  function RequestsOfAny(s: Snapshot, ids: set<string>): set<string> {
    set k | k in s.requests && s.requests[k].collectionId in ids
  }

  function RequestsIn(s: Snapshot, folders: set<string>): set<string> {
    set k | k in s.requests && s.requests[k].folderId.Some? && s.requests[k].folderId.value in folders
  }

  /** The stores without these documents, and then without the files no request names any more. */
  function TakeOut(s: Snapshot, cs: set<string>, fs: set<string>, rs: set<string>): Snapshot {
    Swept(Snapshot(s.collections - cs, s.folders - fs, s.requests - rs, s.files))
  }

  /** What a delete or an import took out, as it was stored. */
  datatype Removed = Removed(
    collections: seq<Collection>,
    folders: seq<Folder>,
    requests: seq<Request>,
    files: seq<(string, StoredFile)>)

  /** These documents of the stores, each as it is, and every stored file their requests name. */
  ghost predicate Captures(removed: Removed, s: Snapshot, cs: set<string>, fs: set<string>, rs: set<string>) {
    && (forall c :: c in removed.collections <==>
         c.meta.id in cs && c.meta.id in s.collections && s.collections[c.meta.id] == c)
    && (forall f :: f in removed.folders <==> f.meta.id in fs && f.meta.id in s.folders && s.folders[f.meta.id] == f)
    && (forall r :: r in removed.requests <==> r.meta.id in rs && r.meta.id in s.requests && s.requests[r.meta.id] == r)
    && (forall e :: e in removed.files <==> e.0 in Named(s.requests, rs) && e.0 in s.files && s.files[e.0] == e.1)
  }

  // ---- Putting back ----

  function PutAll<D>(store: map<string, D>, entries: seq<(string, D)>): map<string, D> {
    if entries == [] then store
    else
      var last := entries[|entries| - 1];
      PutAll(store, entries[..|entries| - 1])[last.0 := last.1]
  }

  lemma {:induction false} PutAllOneMore<D>(store: map<string, D>, entries: seq<(string, D)>, last: (string, D))
    ensures PutAll(store, entries + [last]) == PutAll(store, entries)[last.0 := last.1]
  {
    assert (entries + [last])[..|entries|] == entries;
  }

  function CollectionEntries(docs: seq<Collection>): seq<(string, Collection)> {
    if docs == [] then []
    else CollectionEntries(docs[..|docs| - 1]) + [(docs[|docs| - 1].meta.id, docs[|docs| - 1])]
  }

  /** The folders whose collection is among these. */
  function FolderEntries(homes: set<string>, docs: seq<Folder>): seq<(string, Folder)> {
    if docs == [] then []
    else
      var (before, last) := (FolderEntries(homes, docs[..|docs| - 1]), docs[|docs| - 1]);
      if last.collectionId in homes then before + [(last.meta.id, last)] else before
  }

  function RequestEntries(homes: set<string>, docs: seq<Request>): seq<(string, Request)> {
    if docs == [] then []
    else
      var (before, last) := (RequestEntries(homes, docs[..|docs| - 1]), docs[|docs| - 1]);
      if last.collectionId in homes then before + [(last.meta.id, last)] else before
  }

  /**
   * The stores after a restore: only documents with a collection go in, and no files unless a request is among them.
   */
  function PutBack(s: Snapshot, removed: Removed): Snapshot {
    var collections := PutAll(s.collections, CollectionEntries(removed.collections));
    var requests := RequestEntries(collections.Keys, removed.requests);
    Snapshot(
      collections,
      PutAll(s.folders, FolderEntries(collections.Keys, removed.folders)),
      PutAll(s.requests, requests),
      if requests != [] then PutAll(s.files, removed.files) else s.files)
  }

  function PutBackAll(s: Snapshot, all: seq<Removed>): Snapshot {
    if all == [] then s else PutBack(PutBackAll(s, all[..|all| - 1]), all[|all| - 1])
  }

  function DeletedCollection(s: Snapshot, id: string): Snapshot {
    TakeOut(s, {id}, FoldersOf(s, id), RequestsOf(s, id))
  }

  // ---- Saving requests ----

  /** The stores with a new request, and with the files its body names that were not stored yet. */
  function Created(s: Snapshot, doc: Request, stored: seq<(string, StoredFile)>): Snapshot {
    s.(requests := s.requests[doc.meta.id := doc], files := PutAll(s.files, stored))
  }

  /** What the composer writes back onto a saved request: `None` leaves a field alone. */
  datatype Patch = Patch(name: Option<string>, folderId: Option<Option<string>>, content: Option<string>,
    body: Option<Body>)

  function Patched(r: Request, patch: Patch, now: int): Request {
    r.(
      id := Id(r.id, r.meta),
      meta := r.meta.(updatedAt := now),
      name := if patch.name.Some? then Trim(patch.name.value) else r.name,
      folderId := patch.folderId.Or(r.folderId),
      content := patch.content.Or(r.content),
      body := patch.body.Or(r.body))
  }

  function Saved(s: Snapshot, id: string, patch: Patch, stored: seq<(string, StoredFile)>, now: int): Snapshot {
    if id !in s.requests then s
    else
      var t := s.(requests := s.requests[id := Patched(s.requests[id], patch, now)], files := PutAll(s.files, stored));
      if patch.body.Some? then Swept(t) else t
  }

  // ---- Importing ----

  datatype Payload = Payload(collection: Collection, folders: seq<Folder>, requests: seq<Request>)

  function Id(id: string, meta: Meta): string {
    if id == "" then meta.id else id
  }

  /** A folder of the file has this id, as its own or as its key. */
  predicate HasFolder(folders: seq<Folder>, id: string) {
    exists k :: 0 <= k < |folders| && (folders[k].meta.id == id || Id(folders[k].id, folders[k].meta) == id)
  }

  /** The file's folder in the collection. */
  function FolderInto(f: Folder, collectionId: string): Folder {
    f.(id := Id(f.id, f.meta), collectionId := collectionId)
  }

  /** The file's request in the collection, in its folder when the file has it. */
  function RequestInto(r: Request, collectionId: string, folders: seq<Folder>): Request {
    var lost := r.folderId.Some? && r.folderId.value != "" && !HasFolder(folders, r.folderId.value);
    r.(id := Id(r.id, r.meta), collectionId := collectionId, folderId := if lost then None else r.folderId)
  }

  function ImportedFolders(p: Payload, n: nat): seq<(string, Folder)>
    requires n <= |p.folders|
  {
    if n == 0 then []
    else ImportedFolders(p, n - 1) + [(p.folders[n - 1].meta.id, FolderInto(p.folders[n - 1], p.collection.meta.id))]
  }

  function ImportedRequests(p: Payload, n: nat): seq<(string, Request)>
    requires n <= |p.requests|
  {
    if n == 0 then []
    else
      ImportedRequests(p, n - 1)
      + [(p.requests[n - 1].meta.id, RequestInto(p.requests[n - 1], p.collection.meta.id, p.folders))]
  }

  function KeysOf<D(==)>(entries: seq<(string, D)>): set<string> {
    set e | e in entries :: e.0
  }

  function FolderKeys(p: Payload): set<string> {
    set f | f in p.folders :: f.meta.id
  }

  function RequestKeys(p: Payload): set<string> {
    set r | r in p.requests :: r.meta.id
  }

  /** The stores without the collection the import replaces; a copy under new ids replaces none. */
  function Cleared(s: Snapshot, id: string, asNew: bool): Snapshot {
    if asNew then s
    else Snapshot(s.collections - {id}, s.folders - FoldersOf(s, id), s.requests - RequestsOf(s, id), s.files)
  }

  /** An imported collection is not trusted, whatever it replaces. */
  function Untrusted(c: Collection): Collection {
    c.(id := Id(c.id, c.meta), trusted := false)
  }

  function Imported(s: Snapshot, p: Payload, asNew: bool): Snapshot {
    var id := p.collection.meta.id;
    var cleared := Cleared(s, id, asNew);
    Swept(Snapshot(
      cleared.collections[id := Untrusted(p.collection)],
      PutAll(cleared.folders, ImportedFolders(p, |p.folders|)),
      PutAll(cleared.requests, ImportedRequests(p, |p.requests|)),
      cleared.files))
  }

  /** The folders and requests of other collections whose ids the file's take. */
  function TakenFolders(s: Snapshot, p: Payload, asNew: bool): set<string> {
    var cleared := Cleared(s, p.collection.meta.id, asNew);
    set k | k in FolderKeys(p) && k in cleared.folders && cleared.folders[k].collectionId != p.collection.meta.id
  }

  function TakenRequests(s: Snapshot, p: Payload, asNew: bool): set<string> {
    var cleared := Cleared(s, p.collection.meta.id, asNew);
    set k | k in RequestKeys(p) && k in cleared.requests && cleared.requests[k].collectionId != p.collection.meta.id
  }

  predicate Replaces(s: Snapshot, p: Payload, asNew: bool) {
    !asNew && p.collection.meta.id in s.collections
  }

  predicate Takes(s: Snapshot, p: Payload, asNew: bool) {
    TakenFolders(s, p, asNew) != {} || TakenRequests(s, p, asNew) != {}
  }

  /** What an import hands its caller for the Undo: what it replaced, and then what it took from other collections. */
  ghost predicate Handed(all: seq<Removed>, s: Snapshot, p: Payload, asNew: bool) {
    var id := p.collection.meta.id;
    var first := if Replaces(s, p, asNew) then 1 else 0;
    && |all| == first + (if Takes(s, p, asNew) then 1 else 0)
    && (Replaces(s, p, asNew) ==> Captures(all[0], s, {id}, FoldersOf(s, id), RequestsOf(s, id)))
    && (Takes(s, p, asNew) ==>
         Captures(all[first], Cleared(s, id, asNew), {}, TakenFolders(s, p, asNew), TakenRequests(s, p, asNew)))
  }
}
