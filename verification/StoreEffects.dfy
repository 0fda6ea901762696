/** What an import and a delete come to in the stores, said without the steps that make it so. */
module StoreEffects {
  import opened Database
  import opened FolderTree
  import opened ImportUndo
  import opened Stores

  /** The last folder of this id in the file is the one that stays. */
  lemma {:induction false} LastFolderStays(store: map<string, Folder>, p: Payload, n: nat, i: nat)
    requires i < n <= |p.folders|
    requires forall j :: i < j < n ==> p.folders[j].meta.id != p.folders[i].meta.id
    ensures var now := PutAll(store, ImportedFolders(p, n));
            p.folders[i].meta.id in now && now[p.folders[i].meta.id] == FolderInto(p.folders[i], p.collection.meta.id)
  {
    var last := p.folders[n - 1];
    PutAllOneMore(store, ImportedFolders(p, n - 1), (last.meta.id, FolderInto(last, p.collection.meta.id)));
    hide FolderInto;
    if i < n - 1 {
      LastFolderStays(store, p, n - 1, i);
    }
  }

  lemma {:induction false} LastRequestStays(store: map<string, Request>, p: Payload, n: nat, i: nat)
    requires i < n <= |p.requests|
    requires forall j :: i < j < n ==> p.requests[j].meta.id != p.requests[i].meta.id
    ensures var now := PutAll(store, ImportedRequests(p, n));
            && p.requests[i].meta.id in now
            && now[p.requests[i].meta.id] == RequestInto(p.requests[i], p.collection.meta.id, p.folders)
  {
    var last := p.requests[n - 1];
    PutAllOneMore(store, ImportedRequests(p, n - 1),
      (last.meta.id, RequestInto(last, p.collection.meta.id, p.folders)));
    hide RequestInto;
    if i < n - 1 {
      LastRequestStays(store, p, n - 1, i);
    }
  }

  /** The ids the file's folders have as their own, which are their keys in a file as it is read. */
  function OwnIds(p: Payload): set<string> {
    set f | f in p.folders :: Id(f.id, f.meta)
  }

  /** At the top of its collection, or in one of these folders. */
  predicate Stands(r: Request, folders: set<string>) {
    r.folderId.None? || r.folderId.value == "" || r.folderId.value in folders
  }

  /** No imported request is left in a folder that did not come with it. */
  lemma {:induction false} RequestsStandInFolders(s: Snapshot, p: Payload, asNew: bool)
    requires asNew ==> Unused(s, p.collection.meta.id)
    ensures var (id, now) := (p.collection.meta.id, Imported(s, p, asNew));
            && (forall k :: k in RequestsOf(now, id) ==> Stands(now.requests[k], FoldersOf(now, id) + OwnIds(p)))
            && (OwnIds(p) == FolderKeys(p) ==>
                 forall k :: k in RequestsOf(now, id) ==> Stands(now.requests[k], FoldersOf(now, id)))
  {
    var (id, entries) := (p.collection.meta.id, ImportedRequests(p, |p.requests|));
    ImportHolds(s, p, asNew);
    assert Imported(s, p, asNew).requests == PutAll(Cleared(s, id, asNew).requests, entries);
    ImportedRequestsAre(p, |p.requests|);
    assert p.requests[..|p.requests|] == p.requests;
    assert KeysOf(entries) == RequestKeys(p);
    EntriesStand(p, |p.requests|);
    hide Imported, FolderKeys, RequestKeys, OwnIds, ImportedRequests;
    var folders := FolderKeys(p) + OwnIds(p);
    PutAllWhere(Cleared(s, id, asNew).requests, entries, (r: Request) => Stands(r, folders));
  }

  lemma {:induction false} EntriesStand(p: Payload, n: nat)
    requires n <= |p.requests|
    ensures forall e :: e in ImportedRequests(p, n) ==> Stands(e.1, FolderKeys(p) + OwnIds(p))
  {
    if n > 0 {
      EntriesStand(p, n - 1);
      var r := p.requests[n - 1];
      var into := RequestInto(r, p.collection.meta.id, p.folders);
      if r.folderId.Some? && HasFolder(p.folders, r.folderId.value) {
        var f :| f in p.folders && (f.meta.id == r.folderId.value || Id(f.id, f.meta) == r.folderId.value);
        assert f.meta.id in FolderKeys(p) && Id(f.id, f.meta) in OwnIds(p);
      }
      assert Stands(into, FolderKeys(p) + OwnIds(p));
    }
  }

  /** A request whose folder comes with it stays in it. */
  lemma {:induction false} RequestStaysInFolder(s: Snapshot, p: Payload, asNew: bool, i: nat)
    requires i < |p.requests| && forall j :: i < j < |p.requests| ==> p.requests[j].meta.id != p.requests[i].meta.id
    requires p.requests[i].folderId.Some? && p.requests[i].folderId.value in FolderKeys(p)
    ensures var (k, now) := (p.requests[i].meta.id, Imported(s, p, asNew));
            && k in now.requests && now.requests[k].folderId == p.requests[i].folderId
            && p.requests[i].folderId.value in FoldersOf(now, p.collection.meta.id)
  {
    var id := p.collection.meta.id;
    var f :| f in p.folders && f.meta.id == p.requests[i].folderId.value;
    assert HasFolder(p.folders, p.requests[i].folderId.value);
    FoldersAfter(s, p, asNew);
    LastRequestStays(Cleared(s, id, asNew).requests, p, |p.requests|, i);
    assert Imported(s, p, asNew).requests == PutAll(Cleared(s, id, asNew).requests, ImportedRequests(p, |p.requests|));
    hide Imported, ImportedRequests, PutAll;
  }

  /**
   * After an import the collection is the file's and is not trusted, it holds exactly the file's folders and requests,
   * and every document of another collection whose id the file does not have is as it was.
   */
  lemma {:induction false} ImportHolds(s: Snapshot, p: Payload, asNew: bool)
    requires asNew ==> Unused(s, p.collection.meta.id)
    ensures var (id, now) := (p.collection.meta.id, Imported(s, p, asNew));
            && id in now.collections && !now.collections[id].trusted
            && now.collections[id].content == p.collection.content && now.collections[id].name == p.collection.name
            && FoldersOf(now, id) == FolderKeys(p) && RequestsOf(now, id) == RequestKeys(p)
            && (forall k :: k in s.collections && k != id ==>
                 k in now.collections && now.collections[k] == s.collections[k])
            && (forall k :: k in s.folders && k !in FolderKeys(p) && s.folders[k].collectionId != id ==>
                 k in now.folders && now.folders[k] == s.folders[k])
            && (forall k :: k in s.requests && k !in RequestKeys(p) && s.requests[k].collectionId != id ==>
                 k in now.requests && now.requests[k] == s.requests[k])
            && now.files.Keys == s.files.Keys * Used(now)
  {
    CollectionComesIn(s, p, asNew);
    FilesKept(s, p, asNew);
    FoldersAfter(s, p, asNew);
    RequestsAfter(s, p, asNew);
    ClearedHasNone(s, p.collection.meta.id, asNew);
    var (id, now) := (p.collection.meta.id, Imported(s, p, asNew));
    var cleared := Cleared(s, id, asNew);
    hide Imported, FolderKeys, RequestKeys, Used, Cleared, FoldersOf, RequestsOf;
    assert now.folders.Keys == cleared.folders.Keys + FolderKeys(p);
    assert now.requests.Keys == cleared.requests.Keys + RequestKeys(p);
    OnlyTheFiles(cleared.folders, now, id, FolderKeys(p), RequestKeys(p), cleared.requests);
  }

  lemma {:induction false} CollectionComesIn(s: Snapshot, p: Payload, asNew: bool)
    ensures var (id, now) := (p.collection.meta.id, Imported(s, p, asNew));
            && id in now.collections && !now.collections[id].trusted
            && now.collections[id].content == p.collection.content && now.collections[id].name == p.collection.name
            && (forall k :: k in s.collections && k != id ==>
                 k in now.collections && now.collections[k] == s.collections[k])
  {
    var (id, now) := (p.collection.meta.id, Imported(s, p, asNew));
    assert now.collections == Cleared(s, id, asNew).collections[id := Untrusted(p.collection)];
    hide Imported;
  }

  lemma {:induction false} FilesKept(s: Snapshot, p: Payload, asNew: bool)
    ensures Imported(s, p, asNew).files.Keys == s.files.Keys * Used(Imported(s, p, asNew))
  {
    var now := Imported(s, p, asNew);
    var before := Snapshot(now.collections, now.folders, now.requests, Cleared(s, p.collection.meta.id, asNew).files);
    assert now == Swept(before) && Used(before) == Used(now);
    hide Imported, Used;
  }

  /** What is cleared has none of the collection's documents, and all of the others. */
  lemma {:induction false} ClearedHasNone(s: Snapshot, id: string, asNew: bool)
    requires asNew ==> Unused(s, id)
    ensures var cleared := Cleared(s, id, asNew);
            && (forall k :: k in cleared.folders ==> cleared.folders[k].collectionId != id)
            && (forall k :: k in cleared.requests ==> cleared.requests[k].collectionId != id)
            && (forall k :: k in s.folders && s.folders[k].collectionId != id ==>
                 k in cleared.folders && cleared.folders[k] == s.folders[k])
            && (forall k :: k in s.requests && s.requests[k].collectionId != id ==>
                 k in cleared.requests && cleared.requests[k] == s.requests[k])
  {
    assert asNew ==> forall k :: k in s.folders && s.folders[k].collectionId == id ==> k in FoldersOf(s, id);
    assert asNew ==> forall k :: k in s.requests && s.requests[k].collectionId == id ==> k in RequestsOf(s, id);
  }

  lemma {:induction false} OnlyTheFiles(folders: map<string, Folder>, now: Snapshot, id: string, fs: set<string>,
    rs: set<string>,
    requests: map<string, Request>)
    requires forall k :: k in folders ==> folders[k].collectionId != id
    requires forall k :: k in requests ==> requests[k].collectionId != id
    requires now.folders.Keys == folders.Keys + fs
    requires forall k :: k in fs ==> now.folders[k].collectionId == id
    requires forall k :: k in folders && k !in fs ==> now.folders[k] == folders[k]
    requires now.requests.Keys == requests.Keys + rs
    requires forall k :: k in rs ==> now.requests[k].collectionId == id
    requires forall k :: k in requests && k !in rs ==> now.requests[k] == requests[k]
    ensures FoldersOf(now, id) == fs && RequestsOf(now, id) == rs
  {
    forall k ensures k in FoldersOf(now, id) <==> k in fs {
      assert k in now.folders.Keys <==> k in folders.Keys || k in fs;
    }
    forall k ensures k in RequestsOf(now, id) <==> k in rs {
      assert k in now.requests.Keys <==> k in requests.Keys || k in rs;
    }
  }

  /** A deleted folder leaves nothing behind that names it or a folder that went with it, and nothing else goes. */
  lemma {:induction false} DeletedFolderIsWhole(s: Snapshot, id: string)
    requires id in s.folders
    ensures var (gone, t) := (WithInside(s.folders, id), DeletedFolder(s, id));
            && id in gone && gone !! t.folders.Keys
            && (forall k :: k in t.folders && t.folders[k].parentFolderId.Some? ==>
                 t.folders[k].parentFolderId.value !in gone)
            && (forall k :: k in t.requests && t.requests[k].folderId.Some? ==> t.requests[k].folderId.value !in gone)
            && (forall k :: k in gone && k != id ==>
                 s.folders[k].parentFolderId.Some? && s.folders[k].parentFolderId.value in gone)
            && t.collections == s.collections
  {
    var (gone, t) := (WithInside(s.folders, id), DeletedFolder(s, id));
    assert t.folders == s.folders - gone && t.requests == s.requests - RequestsIn(s, gone);
    hide DeletedFolder, Below;
    forall k | k in t.folders && t.folders[k].parentFolderId.Some? ensures t.folders[k].parentFolderId.value !in gone {
      if t.folders[k].parentFolderId.value in gone {
        ChildrenGoToo(s.folders, id, k);
      }
    }
    forall k | k in gone && k != id
      ensures s.folders[k].parentFolderId.Some? && s.folders[k].parentFolderId.value in gone
    {
      ParentsGoToo(s.folders, id, k);
    }
  }

  lemma {:induction false} ChildrenGoToo(folders: map<string, Folder>, id: string, k: string)
    requires id in folders && IsBelow(folders, k, WithInside(folders, id))
    ensures k in WithInside(folders, id)
  {
    NextIsReachable(folders, id, folders[k].parentFolderId.value, k);
  }

  lemma {:induction false} ParentsGoToo(folders: map<string, Folder>, id: string, k: string)
    requires id in folders && k in Below(folders, id)
    ensures folders[k].parentFolderId.Some? && folders[k].parentFolderId.value in WithInside(folders, id)
  {
    var n: nat :| k in Within(folders, id, n);
    WithinHasParents(folders, id, n, k);
  }

  lemma {:induction false} WithinHasParents(folders: map<string, Folder>, id: string, n: nat, k: string)
    requires k in Within(folders, id, n)
    ensures k in folders && folders[k].parentFolderId.Some?
    ensures folders[k].parentFolderId.value == id
         || (folders[k].parentFolderId.value in folders && Reachable(folders, id, folders[k].parentFolderId.value))
  {
    WithinIsIn(folders, id, n);
    if k in Within(folders, id, n - 1) {
      WithinHasParents(folders, id, n - 1, k);
    } else {
      WithinIsIn(folders, id, n - 1);
    }
  }
}
