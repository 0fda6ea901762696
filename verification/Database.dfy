/** The transactions over the four stores: what a delete, a restore and an import change, in place. */
module Database {
  import opened Basics
  import opened FolderTree
  import ImportUndo
  import opened StoreCopies
  import opened Stores
  import opened Text

  datatype Error = MissingIdentifier

  /** These documents of the store, each once. */
  ghost predicate ListsRequests(found: seq<Request>, requests: map<string, Request>, these: set<string>) {
    && (forall r :: r in found ==> r.meta.id in these && r.meta.id in requests && requests[r.meta.id] == r)
    && (forall k :: k in these ==> k in requests && requests[k] in found)
    && (forall i, j :: 0 <= i < j < |found| ==> found[i].meta.id != found[j].meta.id)
  }

  /** Those of these folders that the store has, as they are. */
  ghost predicate HoldsFolders(found: seq<Folder>, folders: map<string, Folder>, these: set<string>) {
    forall f :: f in found <==> f.meta.id in these && f.meta.id in folders && folders[f.meta.id] == f
  }

  ghost predicate HoldsRequests(found: seq<Request>, requests: map<string, Request>, these: set<string>) {
    forall r :: r in found <==> r.meta.id in these && r.meta.id in requests && requests[r.meta.id] == r
  }

  ghost predicate RequestsKeyed(requests: map<string, Request>) {
    forall k :: k in requests ==> requests[k].meta.id == k
  }

  /** The files these requests name. */
  function NamedIn(requests: seq<Request>): set<string> {
    set r, f | r in requests && f in FileIdsOf(r.body) :: f
  }

  /** Every file of the stores with one of these ids, as it is. */
  ghost predicate ListsFiles(found: seq<(string, StoredFile)>, files: map<string, StoredFile>, these: set<string>) {
    forall e :: e in found <==> e.0 in these && e.0 in files && files[e.0] == e.1
  }

  /** A folder that is there, and every folder inside it. */
  ghost function WithInside(folders: map<string, Folder>, id: string): set<string> {
    Below(folders, id) + if id in folders then {id} else {}
  }

  ghost function DeletedFolder(s: Snapshot, id: string): Snapshot {
    var fs := WithInside(s.folders, id);
    TakeOut(s, {}, fs, RequestsIn(s, fs))
  }

  class Database {
    var collections: map<string, Collection>
    var folders: map<string, Folder>
    var requests: map<string, Request>
    var files: map<string, StoredFile>

    function State(): Snapshot
      reads this
    {
      Snapshot(collections, folders, requests, files)
    }

    ghost predicate Valid()
      reads this
    {
      Keyed(State())
    }

    constructor ()
      ensures Valid() && State() == Snapshot(map[], map[], map[], map[])
    {
      collections, folders, requests, files := map[], map[], map[], map[];
    }

    // ---- Reading ----

    method ListRequests(these: set<string>) returns (found: seq<Request>)
      requires Valid() && these <= requests.Keys
      ensures ListsRequests(found, requests, these)
    {
      found := [];
      var left := these;
      while left != {}
        invariant left <= these && ListsRequests(found, requests, these - left)
        decreases left
      {
        var k :| k in left;
        found, left := found + [requests[k]], left - {k};
      }
    }

    /** Looks up what `NamedIn` lists; an id without a stored file gives nothing. */
    method FilesOf(these: seq<Request>) returns (found: seq<(string, StoredFile)>)
      ensures ListsFiles(found, files, NamedIn(these))
    {
      found := [];
      ghost var all := NamedIn(these);
      var left := NamedIn(these);
      while left != {}
        invariant left <= all && ListsFiles(found, files, all - left)
        decreases left
      {
        var id :| id in left;
        if id in files {
          found := found + [(id, files[id])];
        }
        left := left - {id};
      }
    }

    // ---- Steps of the transactions ----

    /** A loop over the file keys that leaves `Swept` of the stores. */
    method SweepFiles()
      modifies `files
      ensures State() == Swept(old(State()))
    {
      var used := Named(requests, requests.Keys);
      var left := files.Keys;
      ghost var was := files;
      hide Named;
      while left != {}
        invariant left <= was.Keys
        invariant files == was - (was.Keys - left - used)
        decreases left
      {
        var id :| id in left;
        if id !in used {
          files := files - {id};
        }
        left := left - {id};
      }
      assert files == map f | f in was && f in used :: was[f];
    }

    method DeleteFolders(these: seq<Folder>)
      modifies `folders
      ensures folders == old(folders) - Ids(these)
    {
      for i := 0 to |these|
        invariant folders == old(folders) - Ids(these[..i])
      {
        IdsOneMore(these, i);
        folders := folders - {these[i].meta.id};
      }
      assert these[..|these|] == these;
    }

    method DeleteRequests(these: seq<Request>)
      modifies `requests
      ensures requests == old(requests) - RequestIds(these)
    {
      for i := 0 to |these|
        invariant requests == old(requests) - RequestIds(these[..i])
      {
        RequestIdsOneMore(these, i);
        requests := requests - {these[i].meta.id};
      }
      assert these[..|these|] == these;
    }

    // ---- Deletes ----

    method DeleteRequest(id: string) returns (removed: Removed)
      requires Valid()
      modifies `requests, `files
      ensures Valid() && State() == TakeOut(old(State()), {}, {}, {id})
      ensures Captures(removed, old(State()), {}, {}, {id})
    {
      ghost var s := State();
      var found := if id in requests then [requests[id]] else [];
      var kept := FilesOf(found);
      CapturesThese(s, {}, {}, {id}, [], [], found, kept);
      requests := requests - {id};
      SweepFiles();
      removed := Removed([], [], found, kept);
      TakenOut(s, {}, {}, {id});
    }

    /** Takes out the subtree of the folder and the requests in it, and hands over what that was. */
    method DeleteFolder(id: string) returns (removed: Removed)
      requires Valid()
      modifies `folders, `requests, `files
      ensures Valid() && State() == DeletedFolder(old(State()), id)
      ensures var fs := WithInside(old(folders), id);
              Captures(removed, old(State()), {}, fs, RequestsIn(old(State()), fs))
    {
      hide Below, TakeOut, Captures, RequestsIn, Swept, Lists, ListsRequests, ListsFiles, NamedIn;
      ghost var s := State();
      var inside := Subtree(folders, id);
      var all := if id in folders then [folders[id]] + inside else inside;
      ListsWithInside(folders, id, inside, all);
      ghost var fs := WithInside(folders, id);
      var found := RequestsInside(all);
      var kept := FilesOf(found);
      RequestsAreIn(s, fs);
      CapturesExactly(s, {}, fs, RequestsIn(s, fs), [], all, found, kept);
      TakenOut(s, {}, fs, RequestsIn(s, fs));
      hide Keyed, Ids, RequestIds;
      DeleteFolders(all);
      DeleteRequests(found);
      assert s.collections - {} == s.collections;
      SweepFiles();
      removed := Removed([], all, found, kept);
    }

    /** The requests of each of these folders. */
    method RequestsInside(these: seq<Folder>) returns (found: seq<Request>)
      requires Valid() && forall i, j :: 0 <= i < j < |these| ==> these[i].meta.id != these[j].meta.id
      ensures ListsRequests(found, requests, RequestsIn(State(), Ids(these)))
    {
      found := [];
      for i := 0 to |these|
        invariant ListsRequests(found, requests, RequestsIn(State(), Ids(these[..i])))
      {
        IdsOneMore(these, i);
        var k := these[i].meta.id;
        var keys := set r | r in requests && requests[r].folderId == Some(k);
        var more := ListRequests(keys);
        assert k !in Ids(these[..i]);
        assert RequestsIn(State(), Ids(these[..i + 1])) == RequestsIn(State(), Ids(these[..i])) + keys;
        ListsBoth(requests, found, RequestsIn(State(), Ids(these[..i])), more, keys);
        found := found + more;
      }
      assert these[..|these|] == these;
    }

    method DeleteCollection(id: string) returns (removed: Removed)
      requires Valid()
      modifies this
      ensures Valid() && State() == DeletedCollection(old(State()), id)
      ensures Captures(removed, old(State()), {id}, FoldersOf(old(State()), id), RequestsOf(old(State()), id))
    {
      hide TakeOut, Captures, Swept, FoldersOf, RequestsOf, Lists, ListsRequests, ListsFiles, NamedIn;
      ghost var s := State();
      var collection := if id in collections then [collections[id]] else [];
      OfAreIn(s, id);
      var folderKeys := FoldersOf(State(), id);
      var requestKeys := RequestsOf(State(), id);
      var foundFolders := List(folders, folderKeys);
      var foundRequests := ListRequests(requestKeys);
      var kept := FilesOf(foundRequests);
      CapturesExactly(s, {id}, folderKeys, requestKeys, collection, foundFolders, foundRequests, kept);
      TakenOut(s, {id}, folderKeys, requestKeys);
      hide Keyed, Ids, RequestIds;
      collections := collections - {id};
      DeleteFolders(foundFolders);
      DeleteRequests(foundRequests);
      SweepFiles();
      removed := Removed(collection, foundFolders, foundRequests, kept);
    }

    // ---- Undo ----

    /** Leaves `PutBack` of the stores: four loops of puts, the second and third of them guarded. */
    method Restore(removed: Removed)
      requires Valid()
      modifies this
      ensures Valid() && State() == PutBack(old(State()), removed)
    {
      hide PutAll, CollectionEntries, FolderEntries, RequestEntries;
      ghost var s := State();
      RestoreCollections(removed.collections);
      RestoreFolders(removed.folders);
      var any := RestoreRequests(removed.requests);
      if any {
        RestoreFiles(removed.files);
      }
      PutBackKeyed(s, removed);
    }

    method RestoreCollections(docs: seq<Collection>)
      modifies `collections
      ensures collections == PutAll(old(collections), CollectionEntries(docs))
    {
      hide PutAll;
      PutAllNone(collections);
      for i := 0 to |docs|
        invariant collections == PutAll(old(collections), CollectionEntries(docs[..i]))
      {
        assert docs[..i + 1][..i] == docs[..i];
        PutAllOneMore(old(collections), CollectionEntries(docs[..i]), (docs[i].meta.id, docs[i]));
        collections := collections[docs[i].meta.id := docs[i]];
      }
      assert docs[..|docs|] == docs;
    }

    method RestoreFiles(entries: seq<(string, StoredFile)>)
      modifies `files
      ensures files == PutAll(old(files), entries)
    {
      for i := 0 to |entries|
        invariant files == PutAll(old(files), entries[..i])
      {
        assert entries[..i + 1][..i] == entries[..i];
        files := files[entries[i].0 := entries[i].1];
      }
      assert entries[..|entries|] == entries;
    }

    method RestoreFolders(docs: seq<Folder>)
      modifies `folders
      ensures folders == PutAll(old(folders), FolderEntries(collections.Keys, docs))
    {
      hide PutAll;
      PutAllNone(folders);
      for i := 0 to |docs|
        invariant folders == PutAll(old(folders), FolderEntries(collections.Keys, docs[..i]))
      {
        assert docs[..i + 1][..i] == docs[..i];
        PutAllOneMore(old(folders), FolderEntries(collections.Keys, docs[..i]), (docs[i].meta.id, docs[i]));
        if docs[i].collectionId in collections {
          folders := folders[docs[i].meta.id := docs[i]];
        }
      }
      assert docs[..|docs|] == docs;
    }

    /** Whether any request came back. */
    method RestoreRequests(docs: seq<Request>) returns (any: bool)
      modifies `requests
      ensures requests == PutAll(old(requests), RequestEntries(collections.Keys, docs))
      ensures any == (RequestEntries(collections.Keys, docs) != [])
    {
      hide PutAll;
      PutAllNone(requests);
      any := false;
      for i := 0 to |docs|
        invariant requests == PutAll(old(requests), RequestEntries(collections.Keys, docs[..i]))
        invariant any == (RequestEntries(collections.Keys, docs[..i]) != [])
      {
        assert docs[..i + 1][..i] == docs[..i];
        PutAllOneMore(old(requests), RequestEntries(collections.Keys, docs[..i]), (docs[i].meta.id, docs[i]));
        if docs[i].collectionId in collections {
          requests := requests[docs[i].meta.id := docs[i]];
          any := true;
        }
      }
      assert docs[..|docs|] == docs;
    }

    // ---- Importing ----

    /** Takes out the collection that is replaced; gives it back as it was, when it is there. */
    method ClearCollection(id: string) returns (handed: seq<Removed>)
      requires Valid()
      modifies `collections, `folders, `requests
      ensures Valid() && State() == Cleared(old(State()), id, false)
      ensures |handed| == if id in old(collections) then 1 else 0
      ensures handed != [] ==>
        Captures(handed[0], old(State()), {id}, FoldersOf(old(State()), id), RequestsOf(old(State()), id))
    {
      hide Captures, FoldersOf, RequestsOf, Lists, ListsRequests, ListsFiles, NamedIn;
      ghost var s := State();
      OfAreIn(s, id);
      var folderKeys := FoldersOf(State(), id);
      var requestKeys := RequestsOf(State(), id);
      var foundFolders := List(folders, folderKeys);
      var foundRequests := ListRequests(requestKeys);
      handed := [];
      if id in collections {
        var kept := FilesOf(foundRequests);
        CapturesExactly(s, {id}, folderKeys, requestKeys, [collections[id]], foundFolders, foundRequests, kept);
        handed := [Removed([collections[id]], foundFolders, foundRequests, kept)];
      }
      ListedIds(s, foundFolders, folderKeys, foundRequests, requestKeys);
      hide Ids, RequestIds;
      collections := collections - {id};
      DeleteFolders(foundFolders);
      DeleteRequests(foundRequests);
    }

    /** The stored folders of other collections whose ids these have. */
    method TakenFoldersOf(docs: seq<Folder>, id: string) returns (taken: seq<Folder>)
      requires FolderTree.Keys(folders)
      ensures HoldsFolders(taken, folders, TakenAmong(folders, docs, id))
    {
      taken := [];
      for i := 0 to |docs|
        invariant HoldsFolders(taken, folders, TakenAmong(folders, docs[..i], id))
      {
        assert docs[..i + 1] == docs[..i] + [docs[i]];
        var k := docs[i].meta.id;
        if k in folders && folders[k].collectionId != id {
          taken := taken + [folders[k]];
        }
      }
      assert docs[..|docs|] == docs;
    }

    method TakenRequestsOf(docs: seq<Request>, id: string) returns (taken: seq<Request>)
      requires RequestsKeyed(requests)
      ensures HoldsRequests(taken, requests, TakenRequestsAmong(requests, docs, id))
    {
      taken := [];
      for i := 0 to |docs|
        invariant HoldsRequests(taken, requests, TakenRequestsAmong(requests, docs[..i], id))
      {
        assert docs[..i + 1] == docs[..i] + [docs[i]];
        var k := docs[i].meta.id;
        if k in requests && requests[k].collectionId != id {
          taken := taken + [requests[k]];
        }
      }
      assert docs[..|docs|] == docs;
    }

    method PutFolders(p: Payload)
      modifies `folders
      ensures folders == PutAll(old(folders), ImportedFolders(p, |p.folders|))
    {
      hide PutAll;
      PutAllNone(folders);
      for i := 0 to |p.folders|
        invariant folders == PutAll(old(folders), ImportedFolders(p, i))
      {
        var folder := FolderInto(p.folders[i], p.collection.meta.id);
        PutAllOneMore(old(folders), ImportedFolders(p, i), (folder.meta.id, folder));
        folders := folders[folder.meta.id := folder];
      }
    }

    method PutRequests(p: Payload)
      modifies `requests
      ensures requests == PutAll(old(requests), ImportedRequests(p, |p.requests|))
    {
      hide PutAll, HasFolder;
      PutAllNone(requests);
      for i := 0 to |p.requests|
        invariant requests == PutAll(old(requests), ImportedRequests(p, i))
      {
        var request := RequestInto(p.requests[i], p.collection.meta.id, p.folders);
        PutAllOneMore(old(requests), ImportedRequests(p, i), (request.meta.id, request));
        requests := requests[request.meta.id := request];
      }
    }

    /**
     * Leaves `Imported` of the stores, or leaves them alone and says why. `handed` holds the calls of `replaced`: one
     * when a collection was stored under the id, one when documents of others lost their ids to the file's.
     */
    method ImportCollectionExport(p: Payload, asNew: bool)
      returns (imported: Result<Collection, Error>, handed: seq<Removed>)
      requires Valid()
      modifies this
      ensures Valid()
      ensures imported == if p.collection.meta.id == "" then Err(MissingIdentifier) else Ok(Untrusted(p.collection))
      ensures imported.Err? ==> State() == old(State()) && handed == []
      ensures imported.Ok? ==> State() == Imported(old(State()), p, asNew) && Handed(handed, old(State()), p, asNew)
    {
      hide Swept, Captures, FolderKeys, RequestKeys, PutAll, ImportedFolders, ImportedRequests, ListsFiles, NamedIn,
        FoldersOf, RequestsOf, HoldsFolders, HoldsRequests, TakenAmong, TakenRequestsAmong, TakenFolders,
        TakenRequests, Keyed,
        FolderTree.Keys, RequestsKeyed;
      var id := p.collection.meta.id;
      handed := [];
      if id == "" {
        return Err(MissingIdentifier), handed;
      }
      ghost var s := State();
      if !asNew {
        handed := ClearCollection(id);
      }
      ghost var cleared := State();
      ClearedIs(s, id, asNew);
      assert cleared == Cleared(s, id, asNew);
      var collection := Untrusted(p.collection);
      collections := collections[id := collection];
      var takenFolders := TakenFoldersOf(p.folders, id);
      var takenRequests := TakenRequestsOf(p.requests, id);
      TakenAre(s, p, asNew, takenFolders, takenRequests);
      if takenFolders != [] || takenRequests != [] {
        var kept := FilesOf(takenRequests);
        CapturesThese(cleared, {}, TakenFolders(s, p, asNew), TakenRequests(s, p, asNew), [], takenFolders,
          takenRequests, kept);
        handed := handed + [Removed([], takenFolders, takenRequests, kept)];
      }
      PutFolders(p);
      PutRequests(p);
      assert State() == Snapshot(cleared.collections[id := collection],
        PutAll(cleared.folders, ImportedFolders(p, |p.folders|)),
        PutAll(cleared.requests, ImportedRequests(p, |p.requests|)), cleared.files);
      SweepFiles();
      imported := Ok(collection);
      ImportedKeyed(s, p, asNew);
    }

    // ---- Creating and saving ----

    /** The last of the orders, and no less than zero. */
    static method LastOrder(orders: map<string, real>) returns (last: real)
      ensures last >= 0.0 && forall k :: k in orders ==> orders[k] <= last
      ensures last == 0.0 || exists k :: k in orders && orders[k] == last
    {
      last := 0.0;
      var left := orders.Keys;
      while left != {}
        invariant left <= orders.Keys && last >= 0.0
        invariant last == 0.0 || exists k :: k in orders && orders[k] == last
        invariant forall k :: k in orders && k !in left ==> orders[k] <= last
        decreases left
      {
        var k :| k in left;
        last := if orders[k] > last then orders[k] else last;
        left := left - {k};
      }
    }

    /** One past the largest order in either store, counting from zero. */
    static method NextOrder(orders: map<string, real>, others: map<string, real>) returns (next: real)
      ensures IsNext(next, orders, others)
    {
      var last := LastOrder(orders);
      var other := LastOrder(others);
      next := (if other > last then other else last) + 1.0;
    }

    method CreateCollection(meta: Meta, name: string, content: string) returns (doc: Collection)
      requires Valid() && meta.id !in collections
      modifies `collections
      ensures Valid() && State() == old(State()).(collections := old(collections)[meta.id := doc])
      ensures doc == Collection(meta.id, meta, Trim(name), doc.order, content, true)
      ensures IsNext(doc.order, CollectionOrders(old(State())), map[])
    {
      var order := NextOrder(CollectionOrders(State()), map[]);
      doc := Collection(meta.id, meta, Trim(name), order, content, true);
      collections := collections[meta.id := doc];
    }

    method CreateFolder(meta: Meta, collectionId: string, name: string, parent: Option<string>, order: Option<real>,
      content: string)
      returns (doc: Folder)
      requires Valid() && meta.id !in folders
      modifies `folders
      ensures Valid() && State() == old(State()).(folders := old(folders)[meta.id := doc])
      ensures doc == Folder(meta.id, meta, collectionId, parent, Trim(name), doc.order, content)
      ensures if order.Some? then doc.order == order.value
        else IsNext(doc.order, FolderOrders(old(State())), RequestOrders(old(State())))
    {
      var next := NextOrder(FolderOrders(State()), RequestOrders(State()));
      doc := Folder(meta.id, meta, collectionId, parent, Trim(name), order.Or(next), content);
      folders := folders[meta.id := doc];
    }

    /** Puts `stored` among the files, and the request after every folder and request there is. */
    method CreateRequest(meta: Meta, r: Request, order: Option<real>,
      stored: seq<(string, StoredFile)>) returns (doc: Request)
      requires Valid() && meta.id !in requests
      modifies `requests, `files
      ensures Valid() && State() == Created(old(State()), doc, stored)
      ensures doc == r.(id := meta.id, meta := meta, name := Trim(r.name), order := doc.order)
      ensures if order.Some? then doc.order == order.value
        else IsNext(doc.order, FolderOrders(old(State())), RequestOrders(old(State())))
    {
      RestoreFiles(stored);
      var next := NextOrder(FolderOrders(State()), RequestOrders(State()));
      doc := r.(id := meta.id, meta := meta, name := Trim(r.name), order := order.Or(next));
      requests := requests[meta.id := doc];
    }

    /** Leaves `Saved` of the stores: the patched request, the new files, and a sweep when the body changed. */
    method UpdateRequest(id: string, patch: Patch, stored: seq<(string, StoredFile)>,
      now: int) returns (doc: Option<Request>)
      requires Valid()
      modifies `requests, `files
      ensures Valid() && State() == Saved(old(State()), id, patch, stored, now)
      ensures doc == if id in old(requests) then Some(Patched(old(requests)[id], patch, now)) else None
    {
      hide Swept, PutAll;
      if id !in requests {
        return None;
      }
      var updated := Patched(requests[id], patch, now);
      RestoreFiles(stored);
      requests := requests[id := updated];
      if patch.body.Some? {
        SweepFiles();
      }
      assert Keyed(State()) by {
        SweptKeyed(old(State()).(requests := requests, files := PutAll(old(files), stored)));
      }
      doc := Some(updated);
    }

    // ---- Copies ----

    method DuplicateRequest(id: string, meta: Meta) returns (copy: Option<Request>)
      requires Valid() && meta.id !in requests
      modifies `requests
      ensures Valid() && (copy.None? <==> id !in old(requests))
      ensures copy.None? ==> State() == old(State())
      ensures copy.Some? ==>
        && State() == old(State()).(requests := old(requests)[meta.id := copy.value])
        && copy.value == old(requests)[id].(id := meta.id, meta := meta, name := old(requests)[id].name + " copy",
             order := copy.value.order)
        && IsNext(copy.value.order, FolderOrders(old(State())), RequestOrders(old(State())))
    {
      if id !in requests {
        return None;
      }
      var next := NextOrder(FolderOrders(State()), RequestOrders(State()));
      var doc := requests[id].(id := meta.id, meta := meta, name := requests[id].name + " copy", order := next);
      requests := requests[meta.id := doc];
      copy := Some(doc);
    }

    /** Leaves stores that `CollectionCopied` relates to the old ones; the metas say the new ids. */
    method DuplicateCollection(id: string, meta: Meta, folderMetas: map<string, Meta>, requestMetas: map<string, Meta>)
      returns (copy: Option<Collection>, ghost fm: map<string, string>, ghost rm: map<string, string>)
      requires Valid() && meta.id !in collections
      requires NewIds(folderMetas, FoldersOf(State(), id), folders.Keys)
      requires NewIds(requestMetas, RequestsOf(State(), id), requests.Keys)
      modifies `collections, `folders, `requests
      ensures Valid() && (copy.None? <==> id !in old(collections))
      ensures copy.None? ==> State() == old(State())
      ensures copy.Some? ==>
        && CollectionCopied(old(State()), State(), id, copy.value, fm, rm)
        && IsNext(copy.value.order, CollectionOrders(old(State())), map[])
    {
      assert FoldersOf(State(), id) <= folderMetas.Keys;
      hide Added, Lists, ListsRequests, FoldersOf, RequestsOf, Ids, RequestIds, MovedParent, MovedFolder,
        IsFolderCopy, IsRequestCopy, NewIds, FoldersCloned, RequestsCloned, CollectionCopied, Places;
      fm, rm := map[], map[];
      if id !in collections {
        return None, fm, rm;
      }
      ghost var s := State();
      OfAreIn(s, id);
      var next := NextOrder(CollectionOrders(State()), map[]);
      var original := collections[id];
      var doc := original.(id := meta.id, meta := meta, name := original.name + " copy", order := next);
      var sourceFolders := List(folders, FoldersOf(State(), id));
      var sourceRequests := ListRequests(RequestsOf(State(), id));
      ListedIds(s, sourceFolders, FoldersOf(s, id), sourceRequests, RequestsOf(s, id));
      collections := collections[doc.meta.id := doc];
      var folderIds := IdsFrom(folderMetas, Ids(sourceFolders));
      CloneFolders(s, doc.meta.id, sourceFolders, folderMetas, folderIds);
      fm := folderIds;
      rm := CloneRequests(s, doc.meta.id, folderIds, sourceRequests, requestMetas);
      copy := Some(doc);
      CollectionIsCopied(s, State(), id, doc, fm, rm);
    }

    /** A copy of each folder in the collection, under the copy of its parent. */
    method CloneFolders(ghost s: Snapshot, collectionId: string, source: seq<Folder>, metas: map<string, Meta>,
      ids: map<string, string>)
      requires Keyed(s) && folders == s.folders && NewIds(metas, Ids(source), s.folders.Keys)
      requires Lists(source, s.folders, Ids(source)) && ids == IdsFrom(metas, Ids(source))
      modifies `folders
      ensures FoldersCloned(s, folders, ids, ids, collectionId)
    {
      ghost var done: map<string, string> := map[];
      NothingCloned(s, ids, map[], collectionId);
      NoIds(source);
      hide Added, MovedParent, Lists, Ids, Keyed, NewIds, FoldersCloned, IsFolderCopy, CloneOf;
      for i := 0 to |source|
        invariant done.Keys == Ids(source[..i]) && FoldersCloned(s, folders, done, ids, collectionId)
        invariant forall k :: k in done ==> k in metas && done[k] == metas[k].id
      {
        var k := source[i].meta.id;
        IdsOneMore(source, i);
        ListedNext(s.folders, source, i);
        FoldersClonedHasNot(s, folders, done, ids, collectionId, metas, Ids(source), k);
        var clone := CloneOf(source[i], metas[k], collectionId, MovedParent(source[i].parentFolderId, ids));
        OneFolderCloned(s, folders, done, ids, collectionId, k, clone);
        folders := folders[clone.meta.id := clone];
        done := done[k := clone.meta.id];
      }
      assert source[..|source|] == source;
      SameIds(done, metas, Ids(source));
    }

    /** A copy of each request in the collection, in the copy of its folder. */
    method CloneRequests(ghost s: Snapshot, collectionId: string, folderIds: map<string, string>, source: seq<Request>,
      metas: map<string, Meta>)
      returns (ghost ids: map<string, string>)
      requires Keyed(s) && requests == s.requests && NewIds(metas, RequestIds(source), s.requests.Keys)
      requires ListsRequests(source, s.requests, RequestIds(source))
      modifies `requests
      ensures ids.Keys == RequestIds(source) && RequestsCloned(s, requests, ids, collectionId, Places(s, folderIds))
    {
      ghost var place := Places(s, folderIds);
      ids := map[];
      NothingCloned(s, folderIds, place, collectionId);
      NoRequestIds(source);
      hide Places, Added, MovedFolder, ListsRequests, RequestIds, Keyed, NewIds, RequestsCloned, IsRequestCopy,
        RequestCloneOf;
      for i := 0 to |source|
        invariant ids.Keys == RequestIds(source[..i]) && RequestsCloned(s, requests, ids, collectionId, place)
        invariant forall k :: k in ids ==> k in metas && ids[k] == metas[k].id
      {
        var k := source[i].meta.id;
        RequestIdsOneMore(source, i);
        RequestListedNext(s.requests, source, i);
        RequestsClonedHasNot(s, requests, ids, collectionId, place, metas, RequestIds(source), k);
        var clone := RequestCloneOf(source[i], metas[k], collectionId, MovedFolder(source[i].folderId, folderIds));
        PlaceOf(s, folderIds, k);
        OneRequestCloned(s, requests, ids, collectionId, place, k, clone);
        requests := requests[clone.meta.id := clone];
        ids := ids[k := clone.meta.id];
      }
      assert source[..|source|] == source;
    }

    /** Leaves stores that `FolderCopied` relates to the old ones; the metas say the new ids. */
    method DuplicateFolder(id: string, folderMetas: map<string, Meta>, requestMetas: map<string, Meta>)
      returns (copy: Option<Folder>, ghost fm: map<string, string>, ghost rm: map<string, string>)
      requires Valid() && NewIds(folderMetas, WithInside(folders, id), folders.Keys)
      requires NewIds(requestMetas, RequestsIn(State(), WithInside(folders, id)), requests.Keys)
      modifies `folders, `requests
      ensures Valid() && (copy.None? <==> id !in old(folders))
      ensures copy.None? ==> State() == old(State())
      ensures copy.Some? ==>
        && FolderCopied(old(State()), State(), id, copy.value, fm, rm)
        && IsNext(copy.value.order, FolderOrders(old(State())), RequestOrders(old(State())))
    {
      assert WithInside(folders, id) <= folderMetas.Keys;
      hide Added, Lists, Ids, Below, RequestsIn, NewIds, TreeCloned, RequestsCloned, FolderCopied, ParentsFirst,
        InnerPlaces;
      fm, rm := map[], map[];
      if id !in folders {
        return None, fm, rm;
      }
      ghost var s := State();
      var original := folders[id];
      var inside := Subtree(folders, id);
      var all := [original] + inside;
      ListsWithInside(folders, id, inside, all);
      var next := NextOrder(FolderOrders(State()), RequestOrders(State()));
      var meta := folderMetas[id];
      var top := original.(id := meta.id, meta := meta, name := original.name + " copy", order := next);
      fm := IdsFrom(folderMetas, Ids(all));
      rm := CloneTree(s, id, top, inside, all, folderMetas, requestMetas, fm);
      copy := Some(top);
      FolderIsCopied(s, State(), id, top, fm, rm);
    }

    /** A copy of each folder and of its requests, the top first and each other folder after its parent. */
    method CloneTree(ghost s: Snapshot, id: string, top: Folder, ghost inside: seq<Folder>, all: seq<Folder>,
      folderMetas: map<string, Meta>, requestMetas: map<string, Meta>, ghost ids: map<string, string>)
      returns (ghost rm: map<string, string>)
      requires Keyed(s) && s == State() && id in s.folders && all == [s.folders[id]] + inside
      requires Lists(all, s.folders, Ids(all)) && ParentsFirst(id, inside)
      requires NewIds(folderMetas, Ids(all), s.folders.Keys)
      requires ids == IdsFrom(folderMetas, Ids(all)) && ids.Keys == Ids(all)
      requires NewIds(requestMetas, RequestsIn(s, Ids(all)), s.requests.Keys)
      requires id in folderMetas && top.meta.id == folderMetas[id].id
      modifies `folders, `requests
      ensures TreeCloned(s, folders, ids, ids, id, top)
      ensures rm.Keys == RequestsIn(s, ids.Keys)
      ensures RequestsCloned(s, requests, rm, s.folders[id].collectionId, InnerPlaces(s, ids))
    {
      hide Added, Lists, Ids, RequestsIn, NewIds, TreeCloned, RequestsCloned, ParentsFirst, InnerPlaces, Keyed,
        IsInnerCopy, CloneOf;
      var copies: map<string, string> := map[];
      rm := map[];
      NothingOfTree(s, ids, id, top);
      NoIds(all);
      IdsAreNew(folderMetas, Ids(all), s.folders.Keys);
      for i := 0 to |all|
        invariant copies.Keys == Ids(all[..i]) && TreeCloned(s, folders, copies, ids, id, top)
        invariant forall k :: k in copies ==> k in folderMetas && k in ids && copies[k] == folderMetas[k].id == ids[k]
        invariant rm.Keys == RequestsIn(s, Ids(all[..i]))
        invariant forall k :: k in rm ==> k in requestMetas && rm[k] == requestMetas[k].id
        invariant RequestsCloned(s, requests, rm, s.folders[id].collectionId, InnerPlaces(s, ids))
      {
        var folder := all[i];
        var k := folder.meta.id;
        IdsOneMore(all, i);
        ListedNext(s.folders, all, i);
        TreeHasNot(s, folders, copies, ids, id, top, folderMetas, Ids(all), k);
        IdIsFrom(folderMetas, Ids(all), k);
        ParentIsBefore(s, id, inside, all, i);
        var meta := folderMetas[k];
        ghost var before := copies;
        copies := copies[k := meta.id];
        var parent := folder.parentFolderId.Or("");
        var clone := if k == id then top
          else CloneOf(folder, meta, folder.collectionId, if parent in copies then Some(copies[parent]) else None);
        InnerIsCopy(s, id, k, clone, meta, copies, ids);
        OneOfTree(s, folders, before, ids, id, top, k, clone);
        folders := folders[clone.meta.id := clone];
        InsideOthers(s, Ids(all[..i]), k);
        rm := CloneInside(s, all[0].collectionId, k, meta.id, rm, ids, requestMetas, Ids(all));
        MoreInside(s, Ids(all[..i]), k);
      }
      assert all[..|all|] == all;
      SameIds(copies, folderMetas, Ids(all));
    }

    /** A copy of each request of one folder, in the copy of the folder. */
    method CloneInside(ghost s: Snapshot, collectionId: string, k: string, copyId: string,
      ghost done: map<string, string>,
      ghost ids: map<string, string>, metas: map<string, Meta>, ghost these: set<string>)
      returns (ghost rm: map<string, string>)
      requires Keyed(s) && k in s.folders && k in ids && ids[k] == copyId && k in these
      requires forall i :: i in ids ==> ids[i] !in s.folders
      requires NewIds(metas, RequestsIn(s, these), s.requests.Keys)
      requires RequestsCloned(s, requests, done, collectionId, InnerPlaces(s, ids))
      requires forall r :: r in done ==> r in metas && done[r] == metas[r].id
      requires forall r :: r in done ==> r in s.requests && s.requests[r].folderId != Some(k)
      modifies `requests
      ensures rm.Keys == done.Keys + RequestsIn(s, {k})
      ensures RequestsCloned(s, requests, rm, collectionId, InnerPlaces(s, ids))
      ensures forall r :: r in rm ==> r in metas && rm[r] == metas[r].id
    {
      hide InnerPlaces, RequestsCloned, NewIds, RequestCloneOf;
      InsideAsBefore(s, requests, done, collectionId, ids, k);
      var keys := set r | r in requests && requests[r].folderId == Some(k);
      assert keys == RequestsIn(s, {k});
      rm := done;
      var left := keys;
      while left != {}
        invariant left <= keys && rm.Keys == done.Keys + (keys - left)
        invariant RequestsCloned(s, requests, rm, collectionId, InnerPlaces(s, ids))
        invariant forall r :: r in rm ==> r in metas && rm[r] == metas[r].id
        invariant forall r :: r in s.requests ==> r in requests && requests[r] == s.requests[r]
        decreases left
      {
        var r :| r in left;
        assert r in RequestsIn(s, these);
        RequestsClonedHasNot(s, requests, rm, collectionId, InnerPlaces(s, ids), metas, RequestsIn(s, these), r);
        InnerPlaceOf(s, ids, r);
        var clone := RequestCloneOf(requests[r], metas[r], collectionId, Some(copyId));
        OneRequestCloned(s, requests, rm, collectionId, InnerPlaces(s, ids), r, clone);
        requests := requests[clone.meta.id := clone];
        rm := rm[r := clone.meta.id];
        left := left - {r};
      }
    }
  }

  lemma {:induction false} NothingOfTree(s: Snapshot, ids: map<string, string>, id: string, top: Folder)
    ensures TreeCloned(s, s.folders, map[], ids, id, top)
    ensures RequestsIn(s, {}) == {}
    ensures RequestsCloned(s, s.requests, map[], s.folders[id].collectionId, InnerPlaces(s, ids))
    requires id in s.folders
  {
  }

  lemma {:induction false} TreeHasNot(s: Snapshot, now: map<string, Folder>, done: map<string, string>,
    ids: map<string, string>,
    id: string, top: Folder, metas: map<string, Meta>, these: set<string>, k: string)
    requires TreeCloned(s, now, done, ids, id, top) && NewIds(metas, these, s.folders.Keys) && k in these && k !in done
    requires forall i :: i in done ==> i in metas && done[i] == metas[i].id
    ensures k in metas && metas[k].id !in now
  {
    AddedHasNot(s.folders, now, done, metas, these, k);
  }

  lemma {:induction false} IdIsFrom(metas: map<string, Meta>, these: set<string>, k: string)
    requires k in these && k in metas
    ensures k in IdsFrom(metas, these) && IdsFrom(metas, these)[k] == metas[k].id
  {
  }

  lemma {:induction false} IdsAreNew(metas: map<string, Meta>, these: set<string>, used: set<string>)
    requires NewIds(metas, these, used)
    ensures forall i :: i in IdsFrom(metas, these) ==> IdsFrom(metas, these)[i] !in used
  {
  }

  /** In the list of a folder and what is inside it, each folder but the first stands after its parent. */
  lemma {:induction false} ParentIsBefore(s: Snapshot, id: string, inside: seq<Folder>, all: seq<Folder>, i: nat)
    requires id in s.folders && Keyed(s) && all == [s.folders[id]] + inside && ParentsFirst(id, inside)
    requires Lists(all, s.folders, Ids(all)) && i < |all|
    ensures all[i].meta.id == id <==> i == 0
    ensures i > 0 ==> all[i].parentFolderId.Some? && all[i].parentFolderId.value in Ids(all[..i])
  {
    if i > 0 {
      assert IsBelowFound(inside[i - 1], id, inside[..i - 1]);
      assert all[..i] == [s.folders[id]] + inside[..i - 1];
      assert s.folders[id] in all[..i] && forall f :: f in inside[..i - 1] ==> f in all[..i];
    }
  }

  lemma {:induction false} InnerIsCopy(s: Snapshot, id: string, k: string, clone: Folder, meta: Meta,
    copies: map<string, string>, ids: map<string, string>)
    requires k in s.folders && k in ids && ids[k] == meta.id
    requires k != id ==> s.folders[k].parentFolderId.Some? && s.folders[k].parentFolderId.value in copies
    requires forall i :: i in copies ==> i in ids && copies[i] == ids[i]
    requires k != id ==>
      clone == CloneOf(s.folders[k], meta, s.folders[k].collectionId, Some(copies[s.folders[k].parentFolderId.value]))
    ensures k != id ==> IsInnerCopy(s, clone, k, ids)
  {
  }

  lemma {:induction false} InsideOthers(s: Snapshot, these: set<string>, k: string)
    requires k !in these
    ensures forall r :: r in RequestsIn(s, these) ==> r in s.requests && s.requests[r].folderId != Some(k)
  {
  }

  lemma {:induction false} MoreInside(s: Snapshot, these: set<string>, k: string)
    ensures RequestsIn(s, these + {k}) == RequestsIn(s, these) + RequestsIn(s, {k})
  {
  }

  /** A new id for each of these: in no use, and no two alike. */
  ghost predicate NewIds(metas: map<string, Meta>, these: set<string>, used: set<string>) {
    && these <= metas.Keys
    && (forall k :: k in metas ==> metas[k].id !in used)
    && (forall i, k :: i in metas && k in metas && metas[i].id == metas[k].id ==> i == k)
  }

  lemma {:induction false} AddedHasNot<D(!new)>(was: map<string, D>, now: map<string, D>, done: map<string, string>,
    metas: map<string, Meta>, these: set<string>, k: string)
    requires Added(was, now, done) && NewIds(metas, these, was.Keys) && k in these && k !in done
    requires forall i :: i in done ==> i in metas && done[i] == metas[i].id
    ensures k in metas && metas[k].id !in now
  {
    assert forall i :: i in done ==> done[i] != metas[k].id;
  }

  lemma {:induction false} FoldersClonedHasNot(s: Snapshot, now: map<string, Folder>, done: map<string, string>,
    ids: map<string, string>, collectionId: string, metas: map<string, Meta>, these: set<string>, k: string)
    requires FoldersCloned(s, now, done, ids, collectionId)
    requires NewIds(metas, these, s.folders.Keys) && k in these && k !in done
    requires forall i :: i in done ==> i in metas && done[i] == metas[i].id
    ensures k in metas && metas[k].id !in now
  {
    AddedHasNot(s.folders, now, done, metas, these, k);
  }

  lemma {:induction false} RequestsClonedHasNot(s: Snapshot, now: map<string, Request>, done: map<string, string>,
    collectionId: string, place: map<string, Option<string>>, metas: map<string, Meta>, these: set<string>, k: string)
    requires RequestsCloned(s, now, done, collectionId, place)
    requires NewIds(metas, these, s.requests.Keys) && k in these && k !in done
    requires forall i :: i in done ==> i in metas && done[i] == metas[i].id
    ensures k in metas && metas[k].id !in now
  {
    AddedHasNot(s.requests, now, done, metas, these, k);
  }

  /** One more than the last of the orders, or one when none is above zero. */
  ghost predicate IsNext(next: real, orders: map<string, real>, others: map<string, real>) {
    && next >= 1.0
    && (forall k :: k in orders ==> orders[k] <= next - 1.0)
    && (forall k :: k in others ==> others[k] <= next - 1.0)
    && (next > 1.0 ==>
         || (exists k :: k in orders && orders[k] == next - 1.0)
         || (exists k :: k in others && others[k] == next - 1.0))
  }

  function CollectionOrders(s: Snapshot): map<string, real> {
    map k | k in s.collections :: s.collections[k].order
  }

  function FolderOrders(s: Snapshot): map<string, real> {
    map k | k in s.folders :: s.folders[k].order
  }

  function RequestOrders(s: Snapshot): map<string, real> {
    map k | k in s.requests :: s.requests[k].order
  }

  /** The ids of these metas. */
  function IdsFrom(metas: map<string, Meta>, these: set<string>): (ids: map<string, string>)
    ensures ids.Keys == these * metas.Keys
  {
    map k | k in these && k in metas :: metas[k].id
  }

  lemma {:induction false} SameIds(done: map<string, string>, metas: map<string, Meta>, these: set<string>)
    requires done.Keys == these && forall k :: k in done ==> k in metas && done[k] == metas[k].id
    ensures done == IdsFrom(metas, these)
  {
  }

  lemma {:induction false} NoIds(source: seq<Folder>)
    ensures Ids(source[..0]) == {}
  {
  }

  lemma {:induction false} NoRequestIds(source: seq<Request>)
    ensures RequestIds(source[..0]) == {}
  {
  }

  lemma {:induction false} SweptKeyed(s: Snapshot)
    requires Keyed(s)
    ensures Keyed(Swept(s))
  {
  }

  lemma {:induction false} ListedNext(folders: map<string, Folder>, source: seq<Folder>, i: nat)
    requires i < |source| && Lists(source, folders, Ids(source))
    ensures source[i].meta.id !in Ids(source[..i]) && source[i].meta.id in Ids(source)
    ensures source[i].meta.id in folders && folders[source[i].meta.id] == source[i]
  {
    assert source[i] in source;
  }

  lemma {:induction false} RequestListedNext(requests: map<string, Request>, source: seq<Request>, i: nat)
    requires i < |source| && ListsRequests(source, requests, RequestIds(source))
    ensures source[i].meta.id !in RequestIds(source[..i]) && source[i].meta.id in RequestIds(source)
    ensures source[i].meta.id in requests && requests[source[i].meta.id] == source[i]
  {
    assert source[i] in source;
  }

  // ---- What the steps come to ----

  lemma {:induction false} RequestsAreIn(s: Snapshot, fs: set<string>)
    ensures RequestsIn(s, fs) <= s.requests.Keys
  {
  }

  function RequestIds(these: seq<Request>): set<string> {
    set r | r in these :: r.meta.id
  }

  lemma {:induction false} IdsOneMore(these: seq<Folder>, i: nat)
    requires i < |these|
    ensures Ids(these[..i + 1]) == Ids(these[..i]) + {these[i].meta.id}
  {
    assert these[..i + 1] == these[..i] + [these[i]];
  }

  lemma {:induction false} RequestIdsOneMore(these: seq<Request>, i: nat)
    requires i < |these|
    ensures RequestIds(these[..i + 1]) == RequestIds(these[..i]) + {these[i].meta.id}
  {
    assert these[..i + 1] == these[..i] + [these[i]];
  }

  lemma {:induction false} RequestIdsListed(found: seq<Request>, requests: map<string, Request>, these: set<string>)
    requires ListsRequests(found, requests, these) && forall k :: k in requests ==> requests[k].meta.id == k
    ensures RequestIds(found) == these
  {
    forall k | k in these ensures k in RequestIds(found) {
      assert requests[k] in found;
    }
  }

  lemma {:induction false} ListsBoth(requests: map<string, Request>, a: seq<Request>, as_: set<string>,
    b: seq<Request>, bs: set<string>)
    requires ListsRequests(a, requests, as_) && ListsRequests(b, requests, bs) && as_ !! bs
    ensures ListsRequests(a + b, requests, as_ + bs)
  {
    var both := a + b;
    assert forall r :: r in both <==> r in a || r in b;
    forall i, j | 0 <= i < j < |both| ensures both[i].meta.id != both[j].meta.id {
      if i < |a| <= j {
        assert a[i] in a && b[j - |a|] in b;
      }
    }
  }

  lemma {:induction false} ListsWithInside(folders: map<string, Folder>, id: string, inside: seq<Folder>,
    all: seq<Folder>)
    requires FolderTree.Keys(folders) && Lists(inside, folders, Below(folders, id))
    requires all == if id in folders then [folders[id]] + inside else inside
    ensures Lists(all, folders, WithInside(folders, id)) && Ids(all) == WithInside(folders, id)
    ensures WithInside(folders, id) <= folders.Keys
    ensures forall i, j :: 0 <= i < j < |all| ==> all[i].meta.id != all[j].meta.id
  {
    assert id !in Below(folders, id) && Below(folders, id) <= folders.Keys;
    hide Below;
    if id in folders {
      FirstOfList(folders, id, inside, Below(folders, id));
    }
  }

  lemma {:induction false} FirstOfList(folders: map<string, Folder>, id: string, rest: seq<Folder>, these: set<string>)
    requires FolderTree.Keys(folders) && Lists(rest, folders, these) && id in folders && id !in these
    ensures Lists([folders[id]] + rest, folders, these + {id})
  {
    var all := [folders[id]] + rest;
    assert forall f :: f in all <==> f in rest || f == folders[id];
    forall j | 0 < j < |all| ensures all[j].meta.id in these {
      assert all[j] == rest[j - 1] && rest[j - 1] in rest;
    }
    assert Ids(all) == Ids(rest) + {id};
  }

  /** Lists of these documents and of the files their requests name are what a delete of them hands over. */
  lemma {:induction false} CapturesThese(s: Snapshot, cs: set<string>, fs: set<string>, rs: set<string>,
    collections: seq<Collection>, folders: seq<Folder>, requests: seq<Request>, files: seq<(string, StoredFile)>)
    requires Keyed(s)
    requires forall c :: c in collections <==>
      c.meta.id in cs && c.meta.id in s.collections && s.collections[c.meta.id] == c
    requires HoldsFolders(folders, s.folders, fs) && HoldsRequests(requests, s.requests, rs)
    requires ListsFiles(files, s.files, NamedIn(requests))
    ensures Captures(Removed(collections, folders, requests, files), s, cs, fs, rs)
  {
    NamedListed(s, rs, requests);
  }

  function TakenAmong(folders: map<string, Folder>, docs: seq<Folder>, id: string): set<string> {
    set f | f in docs && f.meta.id in folders && folders[f.meta.id].collectionId != id :: f.meta.id
  }

  function TakenRequestsAmong(requests: map<string, Request>, docs: seq<Request>, id: string): set<string> {
    set r | r in docs && r.meta.id in requests && requests[r.meta.id].collectionId != id :: r.meta.id
  }

  lemma {:induction false} TakenAre(s: Snapshot, p: Payload, asNew: bool, folders: seq<Folder>, requests: seq<Request>)
    requires var (id, cleared) := (p.collection.meta.id, Cleared(s, p.collection.meta.id, asNew));
             && Keyed(cleared)
             && HoldsFolders(folders, cleared.folders, TakenAmong(cleared.folders, p.folders, id))
             && HoldsRequests(requests, cleared.requests, TakenRequestsAmong(cleared.requests, p.requests, id))
    ensures var cleared := Cleared(s, p.collection.meta.id, asNew);
            && HoldsFolders(folders, cleared.folders, TakenFolders(s, p, asNew))
            && HoldsRequests(requests, cleared.requests, TakenRequests(s, p, asNew))
    ensures Takes(s, p, asNew) <==> folders != [] || requests != []
  {
    var (id, cleared) := (p.collection.meta.id, Cleared(s, p.collection.meta.id, asNew));
    assert TakenAmong(cleared.folders, p.folders, id) == TakenFolders(s, p, asNew);
    assert TakenRequestsAmong(cleared.requests, p.requests, id) == TakenRequests(s, p, asNew);
    hide TakenAmong, TakenRequestsAmong, Cleared;
    if k :| k in TakenFolders(s, p, asNew) {
      assert cleared.folders[k] in folders;
    }
    if k :| k in TakenRequests(s, p, asNew) {
      assert cleared.requests[k] in requests;
    }
    if folders != [] {
      assert folders[0] in folders;
    }
    if requests != [] {
      assert requests[0] in requests;
    }
  }

  lemma {:induction false} ClearedIs(s: Snapshot, id: string, asNew: bool)
    requires Keyed(s)
    ensures asNew ==> Cleared(s, id, asNew) == s
    ensures var cleared := Cleared(s, id, asNew);
            && Keyed(cleared) && FolderTree.Keys(cleared.folders) && RequestsKeyed(cleared.requests)
            && cleared.files == s.files
  {
  }

  lemma {:induction false} ListedIds(s: Snapshot, folders: seq<Folder>, fs: set<string>, requests: seq<Request>,
    rs: set<string>)
    requires Keyed(s) && Lists(folders, s.folders, fs) && ListsRequests(requests, s.requests, rs)
    ensures Ids(folders) == fs && RequestIds(requests) == rs
  {
    RequestIdsListed(requests, s.requests, rs);
  }

  lemma {:induction false} ImportedKeyed(s: Snapshot, p: Payload, asNew: bool)
    requires Keyed(s)
    ensures Keyed(Imported(s, p, asNew))
  {
    ImportUndo.FoldersAfter(s, p, asNew);
    ImportUndo.RequestsAfter(s, p, asNew);
    ClearedIs(s, p.collection.meta.id, asNew);
    var (cleared, now) := (Cleared(s, p.collection.meta.id, asNew), Imported(s, p, asNew));
    assert now.collections == cleared.collections[p.collection.meta.id := Untrusted(p.collection)];
    hide Imported, FolderKeys, RequestKeys, Cleared;
    forall k | k in now.folders ensures now.folders[k].meta.id == k {
      if k !in FolderKeys(p) {
        assert k in cleared.folders && now.folders[k] == cleared.folders[k];
      }
    }
    forall k | k in now.requests ensures now.requests[k].meta.id == k {
      if k !in RequestKeys(p) {
        assert k in cleared.requests && now.requests[k] == cleared.requests[k];
      }
    }
  }

  lemma {:induction false} ListsHold(s: Snapshot, folders: seq<Folder>, fs: set<string>, requests: seq<Request>,
    rs: set<string>)
    requires Keyed(s) && Lists(folders, s.folders, fs) && ListsRequests(requests, s.requests, rs)
    ensures HoldsFolders(folders, s.folders, fs) && HoldsRequests(requests, s.requests, rs)
  {
    forall f: Folder | f.meta.id in fs && f.meta.id in s.folders && s.folders[f.meta.id] == f ensures f in folders {
      assert f.meta.id in Ids(folders);
    }
    forall f | f in folders ensures f.meta.id in fs {
      assert f.meta.id in Ids(folders);
    }
  }

  lemma {:induction false} CapturesExactly(s: Snapshot, cs: set<string>, fs: set<string>, rs: set<string>,
    collections: seq<Collection>, folders: seq<Folder>, requests: seq<Request>, files: seq<(string, StoredFile)>)
    requires Keyed(s) && fs <= s.folders.Keys && rs <= s.requests.Keys
    requires forall c :: c in collections <==>
      c.meta.id in cs && c.meta.id in s.collections && s.collections[c.meta.id] == c
    requires Lists(folders, s.folders, fs) && ListsRequests(requests, s.requests, rs)
    requires ListsFiles(files, s.files, NamedIn(requests))
    ensures Captures(Removed(collections, folders, requests, files), s, cs, fs, rs)
    ensures Ids(folders) == fs && RequestIds(requests) == rs
  {
    ListsHold(s, folders, fs, requests, rs);
    CapturesThese(s, cs, fs, rs, collections, folders, requests, files);
    RequestIdsListed(requests, s.requests, rs);
  }

  lemma {:induction false} OfAreIn(s: Snapshot, id: string)
    ensures FoldersOf(s, id) <= s.folders.Keys && RequestsOf(s, id) <= s.requests.Keys
  {
  }

  lemma {:induction false} NamedListed(s: Snapshot, rs: set<string>, requests: seq<Request>)
    requires Keyed(s) && HoldsRequests(requests, s.requests, rs)
    ensures NamedIn(requests) == Named(s.requests, rs)
  {
    hide FileIdsOf;
    forall f | f in Named(s.requests, rs) ensures f in NamedIn(requests) {
      var k :| k in rs && k in s.requests && f in FileIdsOf(s.requests[k].body);
      assert s.requests[k] in requests;
    }
    forall f | f in NamedIn(requests) ensures f in Named(s.requests, rs) {
      var r :| r in requests && f in FileIdsOf(r.body);
    }
  }

  lemma {:induction false} TakenOut(s: Snapshot, cs: set<string>, fs: set<string>, rs: set<string>)
    requires Keyed(s)
    ensures TakeOut(s, cs, fs, rs) == Swept(Snapshot(s.collections - cs, s.folders - fs, s.requests - rs, s.files))
    ensures Keyed(TakeOut(s, cs, fs, rs))
  {
    hide Used;
  }

  lemma {:induction false} PutAllNone<D>(store: map<string, D>)
    ensures PutAll(store, []) == store
  {
  }

  lemma {:induction false} PutBackKeyed(s: Snapshot, removed: Removed)
    requires Keyed(s)
    ensures Keyed(PutBack(s, removed))
  {
    hide PutAll, CollectionEntries, FolderEntries, RequestEntries;
    var collections := PutAll(s.collections, CollectionEntries(removed.collections));
    PutCollectionsKeyed(s.collections, removed.collections);
    PutFoldersKeyed(s.folders, collections.Keys, removed.folders);
    PutRequestsKeyed(s.requests, collections.Keys, removed.requests);
  }

  lemma {:induction false} PutCollectionsKeyed(store: map<string, Collection>, docs: seq<Collection>)
    requires forall k :: k in store ==> store[k].meta.id == k
    ensures forall k :: k in PutAll(store, CollectionEntries(docs)) ==>
      PutAll(store, CollectionEntries(docs))[k].meta.id == k
  {
    if docs == [] {
      PutAllNone(store);
    } else {
      var (front, last) := (docs[..|docs| - 1], docs[|docs| - 1]);
      PutCollectionsKeyed(store, front);
      PutAllOneMore(store, CollectionEntries(front), (last.meta.id, last));
    }
  }

  lemma {:induction false} PutFoldersKeyed(store: map<string, Folder>, homes: set<string>, docs: seq<Folder>)
    requires forall k :: k in store ==> store[k].meta.id == k
    ensures forall k :: k in PutAll(store, FolderEntries(homes, docs)) ==>
      PutAll(store, FolderEntries(homes, docs))[k].meta.id == k
  {
    if docs == [] {
      PutAllNone(store);
    } else {
      var (front, last) := (docs[..|docs| - 1], docs[|docs| - 1]);
      PutFoldersKeyed(store, homes, front);
      PutAllOneMore(store, FolderEntries(homes, front), (last.meta.id, last));
    }
  }

  lemma {:induction false} PutRequestsKeyed(store: map<string, Request>, homes: set<string>, docs: seq<Request>)
    requires forall k :: k in store ==> store[k].meta.id == k
    ensures forall k :: k in PutAll(store, RequestEntries(homes, docs)) ==>
      PutAll(store, RequestEntries(homes, docs))[k].meta.id == k
  {
    if docs == [] {
      PutAllNone(store);
    } else {
      var (front, last) := (docs[..|docs| - 1], docs[|docs| - 1]);
      PutRequestsKeyed(store, homes, front);
      PutAllOneMore(store, RequestEntries(homes, front), (last.meta.id, last));
    }
  }
}
