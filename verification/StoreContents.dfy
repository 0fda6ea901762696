/**
 * What the stores hold after an import, a delete, a new request and a save: every store, every document and every field
 * of it, from what was stored before and what came in. Each description fits the stores the transaction leaves and no
 * others.
 */
module StoreContents {
  import opened Basics
  import opened Stores
  import opened Text

  // ---- Files ----

  /** A body names a file in one of its parts or as its binary, whichever mode is chosen. */
  predicate NamesFile(body: Body, file: string) {
    || (exists k :: 0 <= k < |body.parts| && body.parts[k].FilePart? && body.parts[k].fileId == file)
    || body.binary == Some(file)
  }

  /** Some stored request names the file. */
  ghost predicate IsNamed(requests: map<string, Request>, file: string) {
    exists k :: k in requests && NamesFile(requests[k].body, file)
  }

  /** Of the files there were, those that a request names. */
  ghost predicate OnlyNamedFiles(
    was: map<string, StoredFile>, requests: map<string, Request>, now: map<string, StoredFile>)
  {
    && (forall f :: f in now <==> f in was && IsNamed(requests, f))
    && (forall f :: f in now ==> now[f] == was[f])
  }

  lemma {:induction false} PartFilesAre(parts: seq<Part>, file: string)
    ensures file in PartFiles(parts) <==>
            exists k :: 0 <= k < |parts| && parts[k].FilePart? && parts[k].fileId == file
  {
    if parts != [] {
      PartFilesAre(parts[1..], file);
      if file in PartFiles(parts[1..]) {
        var k :| 0 <= k < |parts| - 1 && parts[1..][k].FilePart? && parts[1..][k].fileId == file;
        assert parts[k + 1] == parts[1..][k];
      }
      if exists k :: 0 <= k < |parts| && parts[k].FilePart? && parts[k].fileId == file {
        var k :| 0 <= k < |parts| && parts[k].FilePart? && parts[k].fileId == file;
        assert k > 0 ==> parts[1..][k - 1] == parts[k];
      }
    }
  }

  lemma {:induction false} UsedIs(s: Snapshot, file: string)
    ensures file in Used(s) <==> IsNamed(s.requests, file)
  {
    forall k | k in s.requests ensures file in FileIdsOf(s.requests[k].body) <==> NamesFile(s.requests[k].body, file) {
      PartFilesAre(s.requests[k].body.parts, file);
    }
    hide NamesFile, FileIdsOf;
  }

  lemma {:induction false} SweptIs(s: Snapshot)
    ensures Swept(s).collections == s.collections && Swept(s).folders == s.folders && Swept(s).requests == s.requests
    ensures OnlyNamedFiles(s.files, s.requests, Swept(s).files)
  {
    forall f ensures f in Used(s) <==> IsNamed(s.requests, f) {
      UsedIs(s, f);
    }
    hide Used, IsNamed;
  }

  lemma {:induction false} SameFiles(was: map<string, StoredFile>, requests: map<string, Request>,
    a: map<string, StoredFile>, b: map<string, StoredFile>)
    requires OnlyNamedFiles(was, requests, a) && OnlyNamedFiles(was, requests, b)
    ensures a == b
  {
    hide IsNamed;
  }

  // ---- Puts in order ----

  /** The last of the entries for a key is the one at `i`. */
  predicate IsLast<D>(entries: seq<(string, D)>, i: nat) {
    i < |entries| && forall j :: i < j < |entries| ==> entries[j].0 != entries[i].0
  }

  ghost predicate HaveLast<D(!new)>(entries: seq<(string, D)>, now: map<string, D>) {
    forall i: nat :: IsLast(entries, i) ==> entries[i].0 in now && now[entries[i].0] == entries[i].1
  }

  predicate IsKeyOf<D>(entries: seq<(string, D)>, k: string) {
    exists i :: 0 <= i < |entries| && entries[i].0 == k
  }

  ghost predicate KeepOthers<D(!new)>(store: map<string, D>, entries: seq<(string, D)>, now: map<string, D>) {
    forall k :: !IsKeyOf(entries, k) ==> (k in now <==> k in store) && (k in store ==> now[k] == store[k])
  }

  /** Each key has the last entry for it, and what no entry is for is as it was. */
  ghost predicate ArePut<D(!new)>(store: map<string, D>, entries: seq<(string, D)>, now: map<string, D>) {
    HaveLast(entries, now) && KeepOthers(store, entries, now)
  }

  lemma {:induction false} LastOfMore<D(!new)>(entries: seq<(string, D)>, last: (string, D), i: nat)
    requires IsLast(entries + [last], i)
    ensures i == |entries| || (IsLast(entries, i) && (entries + [last])[i] == entries[i] && entries[i].0 != last.0)
  {
    if i < |entries| {
      assert (entries + [last])[|entries|] == last;
      forall j | i < j < |entries| ensures entries[j].0 != entries[i].0 {
        assert (entries + [last])[j] == entries[j];
      }
    }
  }

  lemma {:induction false} HaveLastPut<D(!new)>(store: map<string, D>, entries: seq<(string, D)>)
    ensures HaveLast(entries, PutAll(store, entries))
  {
    if entries != [] {
      var n := |entries| - 1;
      HaveLastPut(store, entries[..n]);
      assert entries == entries[..n] + [entries[n]];
      forall i: nat | IsLast(entries, i)
        ensures entries[i].0 in PutAll(store, entries) && PutAll(store, entries)[entries[i].0] == entries[i].1
      {
        LastOfMore(entries[..n], entries[n], i);
      }
    }
  }

  lemma {:induction false} KeyOfMore<D(!new)>(entries: seq<(string, D)>, k: string)
    requires entries != [] && !IsKeyOf(entries, k)
    ensures !IsKeyOf(entries[..|entries| - 1], k) && entries[|entries| - 1].0 != k
  {
    var n := |entries| - 1;
    assert entries[n].0 != k && forall i :: 0 <= i < n ==> entries[..n][i] == entries[i];
  }

  lemma {:induction false} KeepOthersPut<D(!new)>(store: map<string, D>, entries: seq<(string, D)>)
    ensures KeepOthers(store, entries, PutAll(store, entries))
  {
    if entries != [] {
      KeepOthersPut(store, entries[..|entries| - 1]);
      forall k | !IsKeyOf(entries, k)
        ensures k in PutAll(store, entries) <==> k in store
        ensures k in store ==> PutAll(store, entries)[k] == store[k]
      {
        KeyOfMore(entries, k);
      }
    }
  }

  lemma {:induction false} PutAllPuts<D(!new)>(store: map<string, D>, entries: seq<(string, D)>)
    ensures ArePut(store, entries, PutAll(store, entries))
  {
    HaveLastPut(store, entries);
    KeepOthersPut(store, entries);
  }

  /** Every key that has an entry has a last one. */
  lemma {:induction false} HasLast<D(!new)>(entries: seq<(string, D)>, i: nat) returns (last: nat)
    requires i < |entries|
    ensures IsLast(entries, last) && entries[last].0 == entries[i].0
    decreases |entries| - i
  {
    if j :| i < j < |entries| && entries[j].0 == entries[i].0 {
      last := HasLast(entries, j);
    } else {
      last := i;
    }
  }

  lemma {:induction false} PutOnce<D(!new)>(
    store: map<string, D>, entries: seq<(string, D)>, a: map<string, D>, b: map<string, D>)
    requires ArePut(store, entries, a) && ArePut(store, entries, b)
    ensures a == b
  {
    forall k ensures k in a <==> k in b
             ensures k in a ==> a[k] == b[k] {
      if exists i :: 0 <= i < |entries| && entries[i].0 == k {
        var i: nat :| i < |entries| && entries[i].0 == k;
        var last := HasLast(entries, i);
      }
    }
  }

  // ---- An import ----

  /** A document that names no id of its own has its key as its id. */
  predicate HasId(id: string, own: string, meta: Meta) {
    id == if own != "" then own else meta.id
  }

  /** The stored folder is the file's, in the collection; its parent is the one it had. */
  predicate IsFolderOf(stored: Folder, of: Folder, home: string) {
    && HasId(stored.id, of.id, of.meta) && stored.meta == of.meta && stored.collectionId == home
    && stored.parentFolderId == of.parentFolderId
    && stored.name == of.name && stored.order == of.order && stored.content == of.content
  }

  /** The file has a folder of this id. */
  predicate CameAlong(folders: seq<Folder>, id: string) {
    exists k :: 0 <= k < |folders| && (folders[k].meta.id == id || folders[k].id == id)
  }

  /** The stored request is the file's, in the collection, in its own folder unless that one did not come along. */
  predicate IsRequestOf(stored: Request, of: Request, home: string, folders: seq<Folder>) {
    && HasId(stored.id, of.id, of.meta) && stored.meta == of.meta && stored.collectionId == home
    && stored.name == of.name && stored.order == of.order && stored.content == of.content && stored.body == of.body
    && (if of.folderId.None? || of.folderId.value == "" || CameAlong(folders, of.folderId.value)
        then stored.folderId == of.folderId
        else stored.folderId == None)
  }

  /** The stored collection is the file's, whether or not it replaces one, and is not trusted. */
  predicate IsCollectionOf(stored: Collection, of: Collection) {
    && HasId(stored.id, of.id, of.meta) && stored.meta == of.meta && stored.name == of.name && stored.order == of.order
    && stored.content == of.content && !stored.trusted
  }

  predicate IsLastFolder(folders: seq<Folder>, i: nat) {
    i < |folders| && forall j :: i < j < |folders| ==> folders[j].meta.id != folders[i].meta.id
  }

  predicate IsLastRequest(requests: seq<Request>, i: nat) {
    i < |requests| && forall j :: i < j < |requests| ==> requests[j].meta.id != requests[i].meta.id
  }

  ghost predicate FoldersCome(p: Payload, now: map<string, Folder>) {
    forall i: nat :: IsLastFolder(p.folders, i) ==>
      p.folders[i].meta.id in now && IsFolderOf(now[p.folders[i].meta.id], p.folders[i], p.collection.meta.id)
  }

  ghost predicate RequestsCome(p: Payload, now: map<string, Request>) {
    forall i: nat :: IsLastRequest(p.requests, i) ==>
      && p.requests[i].meta.id in now
      && IsRequestOf(now[p.requests[i].meta.id], p.requests[i], p.collection.meta.id, p.folders)
  }

  predicate IsFileFolder(p: Payload, k: string) {
    exists i :: 0 <= i < |p.folders| && p.folders[i].meta.id == k
  }

  predicate IsFileRequest(p: Payload, k: string) {
    exists i :: 0 <= i < |p.requests| && p.requests[i].meta.id == k
  }

  /** A folder that is not in the file stays, unless it was in the collection that is replaced. */
  ghost predicate FoldersStay(was: map<string, Folder>, p: Payload, asNew: bool, now: map<string, Folder>) {
    forall k :: !IsFileFolder(p, k) ==>
      (k in now <==> k in was && (asNew || was[k].collectionId != p.collection.meta.id)) &&
      (k in now ==> now[k] == was[k])
  }

  ghost predicate RequestsStay(was: map<string, Request>, p: Payload, asNew: bool, now: map<string, Request>) {
    forall k :: !IsFileRequest(p, k) ==>
      (k in now <==> k in was && (asNew || was[k].collectionId != p.collection.meta.id)) &&
      (k in now ==> now[k] == was[k])
  }

  ghost predicate CollectionsAfter(was: map<string, Collection>, p: Payload, now: map<string, Collection>) {
    && p.collection.meta.id in now && IsCollectionOf(now[p.collection.meta.id], p.collection)
    && forall k :: k != p.collection.meta.id ==> (k in now <==> k in was) && (k in now ==> now[k] == was[k])
  }

  /** The stores after an import, in full. */
  ghost predicate IsImport(s: Snapshot, p: Payload, asNew: bool, t: Snapshot) {
    && CollectionsAfter(s.collections, p, t.collections)
    && FoldersCome(p, t.folders) && FoldersStay(s.folders, p, asNew, t.folders)
    && RequestsCome(p, t.requests) && RequestsStay(s.requests, p, asNew, t.requests)
    && OnlyNamedFiles(s.files, t.requests, t.files)
  }

  lemma {:induction false} FoldersPut(p: Payload, n: nat)
    requires n <= |p.folders|
    ensures |ImportedFolders(p, n)| == n
    ensures forall i :: 0 <= i < n ==>
              && ImportedFolders(p, n)[i].0 == p.folders[i].meta.id
              && IsFolderOf(ImportedFolders(p, n)[i].1, p.folders[i], p.collection.meta.id)
  {
    if n > 0 {
      FoldersPut(p, n - 1);
      assert IsFolderOf(FolderInto(p.folders[n - 1], p.collection.meta.id), p.folders[n - 1], p.collection.meta.id);
      hide IsFolderOf, FolderInto;
    }
  }

  lemma {:induction false} FolderIsOne(a: Folder, b: Folder, of: Folder, home: string)
    requires IsFolderOf(a, of, home) && IsFolderOf(b, of, home)
    ensures a == b
  {
  }

  lemma {:induction false} FoldersComeIs(p: Payload, now: map<string, Folder>)
    ensures FoldersCome(p, now) <==> HaveLast(ImportedFolders(p, |p.folders|), now)
  {
    var (id, entries) := (p.collection.meta.id, ImportedFolders(p, |p.folders|));
    FoldersPut(p, |p.folders|);
    hide IsFolderOf, ImportedFolders;
    forall i: nat, f: Folder | i < |p.folders|
      ensures IsFolderOf(f, p.folders[i], id) <==> f == entries[i].1
    {
      if IsFolderOf(f, p.folders[i], id) {
        FolderIsOne(f, entries[i].1, p.folders[i], id);
      }
    }
    forall i: nat ensures IsLastFolder(p.folders, i) <==> IsLast(entries, i) {
    }
    hide IsLast, IsLastFolder;
  }

  lemma {:induction false} ClearedHolds(s: Snapshot, id: string, asNew: bool)
    ensures var store := Cleared(s, id, asNew);
            && (forall k :: k in store.folders <==> k in s.folders && (asNew || s.folders[k].collectionId != id))
            && (forall k :: k in store.folders ==> store.folders[k] == s.folders[k])
            && (forall k :: k in store.requests <==> k in s.requests && (asNew || s.requests[k].collectionId != id))
            && (forall k :: k in store.requests ==> store.requests[k] == s.requests[k])
            && (forall k :: k != id ==> (k in store.collections <==> k in s.collections))
            && (forall k :: k != id && k in store.collections ==> store.collections[k] == s.collections[k])
  {
  }

  lemma {:induction false} FoldersStayIs(s: Snapshot, p: Payload, asNew: bool, now: map<string, Folder>)
    ensures FoldersStay(s.folders, p, asNew, now) <==>
            KeepOthers(Cleared(s, p.collection.meta.id, asNew).folders, ImportedFolders(p, |p.folders|), now)
  {
    var (id, entries) := (p.collection.meta.id, ImportedFolders(p, |p.folders|));
    var store := Cleared(s, id, asNew).folders;
    FoldersPut(p, |p.folders|);
    hide IsFolderOf, ImportedFolders;
    hide Cleared;
    ClearedHolds(s, id, asNew);
    forall k ensures IsKeyOf(entries, k) <==> IsFileFolder(p, k) {
      if IsFileFolder(p, k) {
        var i :| 0 <= i < |p.folders| && p.folders[i].meta.id == k;
        assert entries[i].0 == k;
      }
    }
    hide IsKeyOf, IsFileFolder;
  }

  lemma {:induction false} RequestsPut(p: Payload, n: nat)
    requires n <= |p.requests|
    ensures |ImportedRequests(p, n)| == n
    ensures forall i :: 0 <= i < n ==>
              && ImportedRequests(p, n)[i].0 == p.requests[i].meta.id
              && IsRequestOf(ImportedRequests(p, n)[i].1, p.requests[i], p.collection.meta.id, p.folders)
  {
    if n > 0 {
      RequestsPut(p, n - 1);
      RequestInIs(p.requests[n - 1], p.collection.meta.id, p.folders);
      hide IsRequestOf, RequestInto;
    }
  }

  lemma {:induction false} RequestInIs(r: Request, home: string, folders: seq<Folder>)
    ensures IsRequestOf(RequestInto(r, home, folders), r, home, folders)
  {
    if r.folderId.Some? && r.folderId.value != "" {
      assert HasFolder(folders, r.folderId.value) <==> CameAlong(folders, r.folderId.value);
    }
    hide HasFolder, CameAlong;
  }

  lemma {:induction false} RequestIsOne(a: Request, b: Request, of: Request, home: string, folders: seq<Folder>)
    requires IsRequestOf(a, of, home, folders) && IsRequestOf(b, of, home, folders)
    ensures a == b
  {
    hide CameAlong;
  }

  lemma {:induction false} RequestsComeIs(p: Payload, now: map<string, Request>)
    ensures RequestsCome(p, now) <==> HaveLast(ImportedRequests(p, |p.requests|), now)
  {
    var (id, entries) := (p.collection.meta.id, ImportedRequests(p, |p.requests|));
    RequestsPut(p, |p.requests|);
    hide IsRequestOf, ImportedRequests;
    forall i: nat, r: Request | i < |p.requests|
      ensures IsRequestOf(r, p.requests[i], id, p.folders) <==> r == entries[i].1
    {
      if IsRequestOf(r, p.requests[i], id, p.folders) {
        RequestIsOne(r, entries[i].1, p.requests[i], id, p.folders);
      }
    }
    forall i: nat ensures IsLastRequest(p.requests, i) <==> IsLast(entries, i) {
    }
    hide IsLast, IsLastRequest;
  }

  lemma {:induction false} RequestsStayIs(s: Snapshot, p: Payload, asNew: bool, now: map<string, Request>)
    ensures RequestsStay(s.requests, p, asNew, now) <==>
            KeepOthers(Cleared(s, p.collection.meta.id, asNew).requests, ImportedRequests(p, |p.requests|), now)
  {
    var (id, entries) := (p.collection.meta.id, ImportedRequests(p, |p.requests|));
    var store := Cleared(s, id, asNew).requests;
    RequestsPut(p, |p.requests|);
    hide IsRequestOf, ImportedRequests;
    hide Cleared;
    ClearedHolds(s, id, asNew);
    forall k ensures IsKeyOf(entries, k) <==> IsFileRequest(p, k) {
      if IsFileRequest(p, k) {
        var i :| 0 <= i < |p.requests| && p.requests[i].meta.id == k;
        assert entries[i].0 == k;
      }
    }
    hide IsKeyOf, IsFileRequest;
  }

  lemma {:induction false} ImportedParts(s: Snapshot, p: Payload, asNew: bool)
    ensures var (cleared, now) := (Cleared(s, p.collection.meta.id, asNew), Imported(s, p, asNew));
            && now.collections == cleared.collections[p.collection.meta.id := Untrusted(p.collection)]
            && now.folders == PutAll(cleared.folders, ImportedFolders(p, |p.folders|))
            && now.requests == PutAll(cleared.requests, ImportedRequests(p, |p.requests|))
            && now == Swept(Snapshot(now.collections, now.folders, now.requests, s.files))
  {
    hide PutAll, ImportedFolders, ImportedRequests, Untrusted;
  }

  lemma {:induction false} CollectionsAre(s: Snapshot, p: Payload, asNew: bool, now: map<string, Collection>)
    ensures CollectionsAfter(s.collections, p, now) <==> now == Imported(s, p, asNew).collections
  {
    var id := p.collection.meta.id;
    var cleared := Cleared(s, id, asNew);
    ImportedParts(s, p, asNew);
    ClearedHolds(s, id, asNew);
    hide Imported, Cleared, Swept, PutAll;
    var held := cleared.collections[id := Untrusted(p.collection)];
    assert IsCollectionOf(held[id], p.collection);
    if CollectionsAfter(s.collections, p, now) {
      assert now[id] == held[id];
      hide Untrusted, IsCollectionOf;
      assert now.Keys == held.Keys;
    }
  }

  /**
   * What an import leaves stored, in full: the file's documents with their own fields under the collection, the last
   * of those of one id, each request in its folder if it came along, the documents of other collections, and the files
   * that a request names. The stores after an import are these and no others.
   */
  lemma {:induction false} ImportIs(s: Snapshot, p: Payload, asNew: bool, t: Snapshot)
    ensures t == Imported(s, p, asNew) <==> IsImport(s, p, asNew, t)
  {
    var id := p.collection.meta.id;
    var (cleared, now) := (Cleared(s, id, asNew), Imported(s, p, asNew));
    ImportedParts(s, p, asNew);
    SweptIs(Snapshot(now.collections, now.folders, now.requests, s.files));
    CollectionsAre(s, p, asNew, t.collections);
    FoldersComeIs(p, t.folders);
    FoldersStayIs(s, p, asNew, t.folders);
    RequestsComeIs(p, t.requests);
    RequestsStayIs(s, p, asNew, t.requests);
    var (folders, requests) := (ImportedFolders(p, |p.folders|), ImportedRequests(p, |p.requests|));
    hide Imported, Cleared, Swept, CollectionsAfter, FoldersCome, FoldersStay, RequestsCome, RequestsStay, HaveLast,
      KeepOthers, OnlyNamedFiles;
    PutAllPuts(cleared.folders, folders);
    PutAllPuts(cleared.requests, requests);
    if IsImport(s, p, asNew, t) {
      PutOnce(cleared.folders, folders, t.folders, now.folders);
      PutOnce(cleared.requests, requests, t.requests, now.requests);
      SameFiles(s.files, t.requests, t.files, now.files);
    }
  }

  // ---- Deletes ----

  /** The stores without these documents: every other document as it was, and of the files those still named. */
  ghost predicate IsWithout(s: Snapshot, cs: set<string>, fs: set<string>, rs: set<string>, t: Snapshot) {
    && (forall k :: k in t.collections <==> k in s.collections && k !in cs)
    && (forall k :: k in t.collections ==> t.collections[k] == s.collections[k])
    && (forall k :: k in t.folders <==> k in s.folders && k !in fs)
    && (forall k :: k in t.folders ==> t.folders[k] == s.folders[k])
    && (forall k :: k in t.requests <==> k in s.requests && k !in rs)
    && (forall k :: k in t.requests ==> t.requests[k] == s.requests[k])
    && OnlyNamedFiles(s.files, t.requests, t.files)
  }

  /** What a delete of these documents leaves stored. */
  lemma {:induction false} TakeOutIs(s: Snapshot, cs: set<string>, fs: set<string>, rs: set<string>, t: Snapshot)
    ensures t == TakeOut(s, cs, fs, rs) <==> IsWithout(s, cs, fs, rs, t)
  {
    var now := TakeOut(s, cs, fs, rs);
    SweptIs(Snapshot(s.collections - cs, s.folders - fs, s.requests - rs, s.files));
    hide Swept, OnlyNamedFiles;
    if IsWithout(s, cs, fs, rs, t) {
      assert t.collections.Keys == now.collections.Keys && t.folders.Keys == now.folders.Keys &&
             t.requests.Keys == now.requests.Keys;
      assert t.collections == now.collections && t.folders == now.folders && t.requests == now.requests;
      SameFiles(s.files, t.requests, t.files, now.files);
    }
  }

  // ---- Creates and saves ----

  /** The stores after a request was added, with the given files: the last of those of one id. */
  ghost predicate IsCreate(s: Snapshot, doc: Request, given: seq<(string, StoredFile)>, t: Snapshot) {
    && t.collections == s.collections && t.folders == s.folders
    && doc.meta.id in t.requests && t.requests[doc.meta.id] == doc
    && (forall k :: k != doc.meta.id ==>
          (k in t.requests <==> k in s.requests) && (k in t.requests ==> t.requests[k] == s.requests[k]))
    && ArePut(s.files, given, t.files)
  }

  /** What a new request leaves stored. */
  lemma {:induction false} CreateIs(s: Snapshot, doc: Request, given: seq<(string, StoredFile)>, t: Snapshot)
    ensures t == Created(s, doc, given) <==> IsCreate(s, doc, given, t)
  {
    PutAllPuts(s.files, given);
    hide ArePut;
    if IsCreate(s, doc, given, t) {
      assert t.requests == s.requests[doc.meta.id := doc];
      PutOnce(s.files, given, t.files, PutAll(s.files, given));
    }
  }

  /** A field of the request after a save: the patch's, or what it was. */
  predicate IsField<T(==)>(now: T, patch: Option<T>, was: T) {
    if patch.Some? then now == patch.value else now == was
  }

  predicate IsSavedRequest(now: Request, was: Request, patch: Patch, at: int) {
    && HasId(now.id, was.id, was.meta)
    && now.meta.id == was.meta.id && now.meta.createdAt == was.meta.createdAt && now.meta.updatedAt == at
    && (if patch.name.Some? then now.name == Trim(patch.name.value) else now.name == was.name)
    && IsField(now.folderId, patch.folderId, was.folderId)
    && IsField(now.content, patch.content, was.content)
    && IsField(now.body, patch.body, was.body)
    && now.collectionId == was.collectionId && now.order == was.order
  }

  lemma {:induction false} PatchedIs(now: Request, was: Request, patch: Patch, at: int)
    ensures now == Patched(was, patch, at) <==> IsSavedRequest(now, was, patch, at)
  {
    hide Trim;
  }

  /** The stores after a save: as they were without such a request; a new body lets go of what it names no more. */
  ghost predicate IsSave(
    s: Snapshot, id: string, patch: Patch, given: seq<(string, StoredFile)>, at: int, t: Snapshot)
  {
    if id !in s.requests then t == s
    else
      && t.collections == s.collections && t.folders == s.folders
      && id in t.requests && IsSavedRequest(t.requests[id], s.requests[id], patch, at)
      && (forall k :: k != id ==>
            (k in t.requests <==> k in s.requests) && (k in t.requests ==> t.requests[k] == s.requests[k]))
      && exists files :: ArePut(s.files, given, files) && FilesAfter(files, patch, t)
  }

  ghost predicate FilesAfter(files: map<string, StoredFile>, patch: Patch, t: Snapshot) {
    if patch.body.Some? then OnlyNamedFiles(files, t.requests, t.files) else t.files == files
  }

  lemma {:induction false} SavedFits(
    s: Snapshot, id: string, patch: Patch, given: seq<(string, StoredFile)>, at: int)
    requires id in s.requests
    ensures IsSave(s, id, patch, given, at, Saved(s, id, patch, given, at))
  {
    var doc := Patched(s.requests[id], patch, at);
    var files := PutAll(s.files, given);
    PutAllPuts(s.files, given);
    PatchedIs(doc, s.requests[id], patch, at);
    SweptIs(s.(requests := s.requests[id := doc], files := files));
    hide Swept, Patched, ArePut, IsSavedRequest, OnlyNamedFiles;
    assert ArePut(s.files, given, files);
  }

  lemma {:induction false} SavedIsOne(
    s: Snapshot, id: string, patch: Patch, given: seq<(string, StoredFile)>, at: int, t: Snapshot, u: Snapshot)
    requires IsSave(s, id, patch, given, at, t) && IsSave(s, id, patch, given, at, u)
    ensures t == u
  {
    if id in s.requests {
      PatchedIs(t.requests[id], s.requests[id], patch, at);
      PatchedIs(u.requests[id], s.requests[id], patch, at);
      hide Patched, ArePut, IsSavedRequest, OnlyNamedFiles;
      assert t.requests == u.requests;
      var a :| ArePut(s.files, given, a) && FilesAfter(a, patch, t);
      var b :| ArePut(s.files, given, b) && FilesAfter(b, patch, u);
      PutOnce(s.files, given, a, b);
      if patch.body.Some? {
        SameFiles(a, t.requests, t.files, u.files);
      }
    }
  }

  /** What a save leaves stored. */
  lemma {:induction false} SaveIs(
    s: Snapshot, id: string, patch: Patch, given: seq<(string, StoredFile)>, at: int, t: Snapshot)
    ensures t == Saved(s, id, patch, given, at) <==> IsSave(s, id, patch, given, at, t)
  {
    if id in s.requests {
      SavedFits(s, id, patch, given, at);
      hide Saved;
    }
    hide IsSave;
    if IsSave(s, id, patch, given, at, t) && id in s.requests {
      SavedIsOne(s, id, patch, given, at, t, Saved(s, id, patch, given, at));
    }
  }
}
