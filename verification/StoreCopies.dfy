/** Copies of collections and folders as relations between two states of the stores, and what those relations keep. */
module StoreCopies {
  import opened Basics
  import opened FolderTree
  import opened Stores

  ghost predicate Injective(ids: map<string, string>) {
    forall i, k :: i in ids && k in ids && ids[i] == ids[k] ==> i == k
  }

  /** The stores hold a new document for each of these, under an id of its own, and the others as they were. */
  ghost predicate Added<D(!new)>(was: map<string, D>, now: map<string, D>, ids: map<string, string>) {
    && Injective(ids) && ids.Keys <= was.Keys && ids.Values !! was.Keys
    && now.Keys == was.Keys + ids.Values
    && forall k :: k in was ==> now[k] == was[k]
  }

  lemma {:induction false} OneAdded<D(!new)>(was: map<string, D>, now: map<string, D>, ids: map<string, string>,
    k: string, id: string, doc: D)
    requires Added(was, now, ids) && k in was && k !in ids && id !in now
    ensures Added(was, now[id := doc], ids[k := id])
    ensures forall i :: i in ids ==> ids[i] in now && ids[i] != id
  {
    var more := ids[k := id];
    assert more.Values == ids.Values + {id} by {
      forall v | v in ids.Values + {id} ensures v in more.Values {
        if v == id {
          assert more[k] == id;
        } else {
          var i :| i in ids && ids[i] == v;
          assert more[i] == v;
        }
      }
    }
    forall i | i in ids ensures ids[i] in now && ids[i] != id {
      assert ids[i] in ids.Values;
    }
  }

  /** The copy of a link: to the copy of what it names, or to nothing when that is not in the copy. */
  function Moved(link: Option<string>, ids: map<string, string>): Option<string> {
    if link.Some? && link.value in ids then Some(ids[link.value]) else None
  }

  function MovedParent(parent: Option<string>, ids: map<string, string>): Option<string> {
    if parent.None? || parent.value == "" then parent else Moved(parent, ids)
  }

  function MovedFolder(folder: Option<string>, ids: map<string, string>): Option<string> {
    if folder.None? || folder.value == "" then None else Moved(folder, ids)
  }

  lemma {:induction false} MovedIs(link: Option<string>, ids: map<string, string>, p: string)
    requires Injective(ids) && p in ids
    ensures Moved(link, ids) == Some(ids[p]) <==> link == Some(p)
    ensures p != "" ==> (MovedFolder(link, ids) == Some(ids[p]) <==> link == Some(p))
    ensures p != "" && ids[p] != "" ==> (MovedParent(link, ids) == Some(ids[p]) <==> link == Some(p))
  {
  }

  /** A copied link leads between copies exactly as the original leads between originals. */
  ghost predicate FolderLinksCopied(s: Snapshot, t: Snapshot, fm: map<string, string>, but: set<string>)
    requires fm.Keys <= s.folders.Keys && fm.Values <= t.folders.Keys
  {
    forall k, p :: k in fm && p in fm && k !in but ==>
      (t.folders[fm[k]].parentFolderId == Some(fm[p]) <==> s.folders[k].parentFolderId == Some(p))
  }

  ghost predicate RequestLinksCopied(s: Snapshot, t: Snapshot, fm: map<string, string>, rm: map<string, string>)
    requires rm.Keys <= s.requests.Keys && rm.Values <= t.requests.Keys
  {
    forall k, p :: k in rm && p in fm ==>
      (t.requests[rm[k]].folderId == Some(fm[p]) <==> s.requests[k].folderId == Some(p))
  }

  /** Nothing that was there has changed. */
  ghost predicate Untouched(s: Snapshot, t: Snapshot) {
    && (forall k :: k in s.collections ==> k in t.collections && t.collections[k] == s.collections[k])
    && (forall k :: k in s.folders ==> k in t.folders && t.folders[k] == s.folders[k])
    && (forall k :: k in s.requests ==> k in t.requests && t.requests[k] == s.requests[k])
    && t.files == s.files
  }

  predicate IsFolderCopy(copy: Folder, f: Folder, id: string, collectionId: string, parent: Option<string>) {
    && copy.meta.id == id
    && copy == f.(id := id, meta := copy.meta, collectionId := collectionId, parentFolderId := parent)
  }

  predicate IsRequestCopy(copy: Request, r: Request, id: string, collectionId: string, folder: Option<string>) {
    && copy.meta.id == id
    && copy == r.(id := id, meta := copy.meta, collectionId := collectionId, folderId := folder)
  }

  lemma {:induction false} AddedIsIn<D(!new)>(was: map<string, D>, now: map<string, D>, ids: map<string, string>)
    requires Added(was, now, ids)
    ensures forall k :: k in ids ==> k in was && ids[k] in now
  {
    forall k | k in ids ensures ids[k] in now {
      assert ids[k] in ids.Values;
    }
  }

  function CloneOf(f: Folder, meta: Meta, collectionId: string, parent: Option<string>): (copy: Folder)
    ensures IsFolderCopy(copy, f, meta.id, collectionId, parent) && copy.meta == meta
  {
    f.(id := meta.id, meta := meta, collectionId := collectionId, parentFolderId := parent)
  }

  function RequestCloneOf(r: Request, meta: Meta, collectionId: string, folder: Option<string>): (copy: Request)
    ensures IsRequestCopy(copy, r, meta.id, collectionId, folder) && copy.meta == meta
  {
    r.(id := meta.id, meta := meta, collectionId := collectionId, folderId := folder)
  }

  /** Each of the folders in `done` has its copy, under the id and the parent that `ids` says. */
  ghost predicate FoldersCloned(s: Snapshot, now: map<string, Folder>, done: map<string, string>,
    ids: map<string, string>,
    collectionId: string)
  {
    && Added(s.folders, now, done)
    && forall k :: k in done && k in s.folders && done[k] in now ==>
         && k in ids && done[k] == ids[k]
         && IsFolderCopy(now[done[k]], s.folders[k], done[k], collectionId,
              MovedParent(s.folders[k].parentFolderId, ids))
  }

  lemma {:induction false} OneFolderCloned(s: Snapshot, now: map<string, Folder>, done: map<string, string>,
    ids: map<string, string>, collectionId: string, k: string, clone: Folder)
    requires FoldersCloned(s, now, done, ids, collectionId)
    requires k in s.folders && k !in done && clone.meta.id !in now && k in ids && ids[k] == clone.meta.id
    requires IsFolderCopy(clone, s.folders[k], clone.meta.id, collectionId,
      MovedParent(s.folders[k].parentFolderId, ids))
    ensures FoldersCloned(s, now[clone.meta.id := clone], done[k := clone.meta.id], ids, collectionId)
  {
    OneAdded(s.folders, now, done, k, clone.meta.id, clone);
    AddedIsIn(s.folders, now, done);
    hide Added, MovedParent, IsFolderCopy;
  }

  lemma {:induction false} AllFoldersCloned(s: Snapshot, now: map<string, Folder>, done: map<string, string>,
    ids: map<string, string>, collectionId: string)
    requires FoldersCloned(s, now, done, ids, collectionId) && done.Keys == ids.Keys
    ensures Added(s.folders, now, ids)
    ensures forall k :: k in ids ==> k in s.folders && ids[k] in now
    ensures forall k :: k in ids ==>
      IsFolderCopy(now[ids[k]], s.folders[k], ids[k], collectionId, MovedParent(s.folders[k].parentFolderId, ids))
  {
    AddedIsIn(s.folders, now, done);
    hide Added, MovedParent, IsFolderCopy;
    assert done == ids;
  }

  /** Where each request's copy stands in the copy of a collection. */
  function Places(s: Snapshot, folderIds: map<string, string>): map<string, Option<string>> {
    map k | k in s.requests :: MovedFolder(s.requests[k].folderId, folderIds)
  }

  /** Each of the requests has its copy, in the place that `place` says. */
  ghost predicate RequestsCloned(s: Snapshot, now: map<string, Request>, done: map<string, string>,
    collectionId: string,
    place: map<string, Option<string>>)
  {
    && Added(s.requests, now, done)
    && forall k :: k in done && k in s.requests && done[k] in now ==>
         k in place && IsRequestCopy(now[done[k]], s.requests[k], done[k], collectionId, place[k])
  }

  lemma {:induction false} PlaceOf(s: Snapshot, folderIds: map<string, string>, k: string)
    requires k in s.requests
    ensures k in Places(s, folderIds) && Places(s, folderIds)[k] == MovedFolder(s.requests[k].folderId, folderIds)
  {
  }

  lemma {:induction false} NothingCloned(s: Snapshot, ids: map<string, string>, place: map<string, Option<string>>,
    collectionId: string)
    ensures FoldersCloned(s, s.folders, map[], ids, collectionId)
    ensures RequestsCloned(s, s.requests, map[], collectionId, place)
  {
  }

  lemma {:induction false} OneRequestCloned(s: Snapshot, now: map<string, Request>, done: map<string, string>,
    collectionId: string, place: map<string, Option<string>>, k: string, clone: Request)
    requires RequestsCloned(s, now, done, collectionId, place)
    requires k in s.requests && k !in done && clone.meta.id !in now && k in place
    requires IsRequestCopy(clone, s.requests[k], clone.meta.id, collectionId, place[k])
    ensures RequestsCloned(s, now[clone.meta.id := clone], done[k := clone.meta.id], collectionId, place)
  {
    OneAdded(s.requests, now, done, k, clone.meta.id, clone);
    AddedIsIn(s.requests, now, done);
    hide Added, IsRequestCopy;
  }

  lemma {:induction false} AllRequestsCloned(s: Snapshot, now: map<string, Request>, done: map<string, string>,
    collectionId: string, place: map<string, Option<string>>)
    requires RequestsCloned(s, now, done, collectionId, place)
    ensures Added(s.requests, now, done)
    ensures forall k :: k in done ==> k in s.requests && done[k] in now && k in place
    ensures forall k :: k in done ==> IsRequestCopy(now[done[k]], s.requests[k], done[k], collectionId, place[k])
  {
    AddedIsIn(s.requests, now, done);
    hide Added, IsRequestCopy;
  }

  // ---- A copy of a collection ----

  /** `fm` and `rm` give each folder's and each request's copy. */
  ghost predicate CollectionCopied(s: Snapshot, t: Snapshot, id: string, copy: Collection,
    fm: map<string, string>, rm: map<string, string>)
  {
    && id in s.collections && copy.meta.id !in s.collections
    && t.collections == s.collections[copy.meta.id := copy]
    && copy == s.collections[id].(id := copy.meta.id, meta := copy.meta, name := s.collections[id].name + " copy",
         order := copy.order)
    && t.files == s.files
    && fm.Keys == FoldersOf(s, id) && Added(s.folders, t.folders, fm)
    && rm.Keys == RequestsOf(s, id) && Added(s.requests, t.requests, rm)
    && (forall k :: k in fm ==>
         IsFolderCopy(t.folders[fm[k]], s.folders[k], fm[k], copy.meta.id,
           MovedParent(s.folders[k].parentFolderId, fm)))
    && (forall k :: k in rm ==>
         IsRequestCopy(t.requests[rm[k]], s.requests[k], rm[k], copy.meta.id, MovedFolder(s.requests[k].folderId, fm)))
  }

  lemma {:induction false} CollectionIsCopied(s: Snapshot, t: Snapshot, id: string, copy: Collection,
    fm: map<string, string>, rm: map<string, string>)
    requires id in s.collections && copy.meta.id !in s.collections && t.files == s.files
    requires t.collections == s.collections[copy.meta.id := copy]
    requires copy == s.collections[id].(id := copy.meta.id, meta := copy.meta,
      name := s.collections[id].name + " copy", order := copy.order)
    requires fm.Keys == FoldersOf(s, id) && FoldersCloned(s, t.folders, fm, fm, copy.meta.id)
    requires rm.Keys == RequestsOf(s, id) && RequestsCloned(s, t.requests, rm, copy.meta.id, Places(s, fm))
    ensures CollectionCopied(s, t, id, copy, fm, rm)
    ensures Keyed(s) ==> Keyed(t)
  {
    AllFoldersCloned(s, t.folders, fm, fm, copy.meta.id);
    AllRequestsCloned(s, t.requests, rm, copy.meta.id, Places(s, fm));
    hide Added, FoldersCloned, RequestsCloned, FoldersOf, RequestsOf, MovedParent, MovedFolder, IsFolderCopy,
      IsRequestCopy;
    assert CollectionCopied(s, t, id, copy, fm, rm);
    if Keyed(s) {
      CollectionCopyKeyed(s, t, id, copy, fm, rm);
    }
  }

  lemma {:induction false} CollectionCopyKeyed(s: Snapshot, t: Snapshot, id: string, copy: Collection,
    fm: map<string, string>, rm: map<string, string>)
    requires Keyed(s) && CollectionCopied(s, t, id, copy, fm, rm)
    ensures Keyed(t)
  {
    hide MovedParent, MovedFolder, FoldersOf, RequestsOf, Injective;
    forall k | k in t.folders ensures t.folders[k].meta.id == k {
      if k !in s.folders {
        var j :| j in fm && fm[j] == k;
      }
    }
    forall k | k in t.requests ensures t.requests[k].meta.id == k {
      if k !in s.requests {
        var j :| j in rm && rm[j] == k;
      }
    }
  }

  /** No document of the stores is in a collection of this id. */
  predicate HoldsNone(s: Snapshot, id: string) {
    FoldersOf(s, id) == {} && RequestsOf(s, id) == {}
  }

  /** The copy's tree is the collection's: the same parents, the same places, the same order and content. */
  lemma {:induction false} CopyIsIsomorphic(s: Snapshot, t: Snapshot, id: string, copy: Collection,
    fm: map<string, string>, rm: map<string, string>)
    requires CollectionCopied(s, t, id, copy, fm, rm) && HoldsNone(s, copy.meta.id) && "" !in fm && "" !in fm.Values
    ensures Untouched(s, t) && fm.Values !! s.folders.Keys && rm.Values !! s.requests.Keys
    ensures Injective(fm) && Injective(rm)
    ensures FoldersOf(t, copy.meta.id) == fm.Values && RequestsOf(t, copy.meta.id) == rm.Values
    ensures FolderLinksCopied(s, t, fm, {}) && RequestLinksCopied(s, t, fm, rm)
    ensures forall k :: k in fm ==> SameFolder(t.folders[fm[k]], s.folders[k])
    ensures forall k :: k in rm ==> SameRequest(t.requests[rm[k]], s.requests[k])
  {
    CopyFolderLinks(s, t, id, copy, fm, rm);
    CopyRequestLinks(s, t, id, copy, fm, rm);
    CopyHolds(s, t, id, copy, fm, rm);
    hide FolderLinksCopied, RequestLinksCopied, FoldersOf, RequestsOf, MovedParent, MovedFolder;
  }

  lemma {:induction false} CopyHolds(s: Snapshot, t: Snapshot, id: string, copy: Collection,
    fm: map<string, string>, rm: map<string, string>)
    requires CollectionCopied(s, t, id, copy, fm, rm) && HoldsNone(s, copy.meta.id)
    ensures FoldersOf(t, copy.meta.id) == fm.Values && RequestsOf(t, copy.meta.id) == rm.Values
  {
    hide MovedParent, MovedFolder;
    forall k | k in t.folders ensures t.folders[k].collectionId == copy.meta.id <==> k in fm.Values {
      if k in fm.Values {
        var j :| j in fm && fm[j] == k;
      } else {
        assert k in s.folders && k !in FoldersOf(s, copy.meta.id);
      }
    }
    forall k | k in t.requests ensures t.requests[k].collectionId == copy.meta.id <==> k in rm.Values {
      if k in rm.Values {
        var j :| j in rm && rm[j] == k;
      } else {
        assert k in s.requests && k !in RequestsOf(s, copy.meta.id);
      }
    }
  }

  lemma {:induction false} CopyFolderLinks(s: Snapshot, t: Snapshot, id: string, copy: Collection,
    fm: map<string, string>, rm: map<string, string>)
    requires CollectionCopied(s, t, id, copy, fm, rm) && "" !in fm && "" !in fm.Values
    ensures FolderLinksCopied(s, t, fm, {})
  {
    forall k, p | k in fm && p in fm
      ensures t.folders[fm[k]].parentFolderId == Some(fm[p]) <==> s.folders[k].parentFolderId == Some(p)
    {
      assert IsFolderCopy(t.folders[fm[k]], s.folders[k], fm[k], copy.meta.id,
        MovedParent(s.folders[k].parentFolderId, fm));
      assert Injective(fm);
      hide Injective, Added, FoldersOf, RequestsOf;
      MovedIs(s.folders[k].parentFolderId, fm, p);
    }
  }

  lemma {:induction false} CopyRequestLinks(s: Snapshot, t: Snapshot, id: string, copy: Collection,
    fm: map<string, string>, rm: map<string, string>)
    requires CollectionCopied(s, t, id, copy, fm, rm) && "" !in fm
    ensures RequestLinksCopied(s, t, fm, rm)
  {
    forall k, p | k in rm && p in fm
      ensures t.requests[rm[k]].folderId == Some(fm[p]) <==> s.requests[k].folderId == Some(p)
    {
      assert IsRequestCopy(t.requests[rm[k]], s.requests[k], rm[k], copy.meta.id,
        MovedFolder(s.requests[k].folderId, fm));
      assert Injective(fm);
      hide Injective, Added, FoldersOf, RequestsOf;
      MovedIs(s.requests[k].folderId, fm, p);
    }
  }

  predicate SameFolder(a: Folder, b: Folder) {
    a.name == b.name && a.order == b.order && a.content == b.content
  }

  predicate SameRequest(a: Request, b: Request) {
    a.name == b.name && a.order == b.order && a.content == b.content && a.body == b.body
  }

  // ---- A copy of a folder ----

  ghost predicate FolderCopied(s: Snapshot, t: Snapshot, id: string, copy: Folder,
    fm: map<string, string>, rm: map<string, string>)
  {
    && id in s.folders && id in fm
    && t.collections == s.collections && t.files == s.files
    && fm.Keys == Below(s.folders, id) + {id} && Added(s.folders, t.folders, fm)
    && rm.Keys == RequestsIn(s, fm.Keys) && Added(s.requests, t.requests, rm)
    && t.folders[fm[id]] == copy && copy.meta.id == fm[id]
    && copy == s.folders[id].(id := fm[id], meta := copy.meta, name := s.folders[id].name + " copy",
         order := copy.order)
    && (forall k :: k in fm && k != id ==>
         && s.folders[k].parentFolderId.Some? && s.folders[k].parentFolderId.value in fm
         && IsFolderCopy(t.folders[fm[k]], s.folders[k], fm[k], s.folders[k].collectionId,
              Moved(s.folders[k].parentFolderId, fm)))
    && (forall k :: k in rm ==>
         IsRequestCopy(t.requests[rm[k]], s.requests[k], rm[k], s.folders[id].collectionId,
           Moved(s.requests[k].folderId, fm)))
  }

  /** Each of the folders in `done` has its copy: the top as it is said, the others under the copy of their parent. */
  ghost predicate TreeCloned(s: Snapshot, now: map<string, Folder>, done: map<string, string>, ids: map<string, string>,
    id: string, copy: Folder)
  {
    && Added(s.folders, now, done)
    && forall k :: k in done && k in s.folders && done[k] in now ==>
         && k in ids && done[k] == ids[k]
         && (k == id ==> now[done[k]] == copy)
         && (k != id ==> IsInnerCopy(s, now[done[k]], k, ids))
  }

  predicate IsInnerCopy(s: Snapshot, copy: Folder, k: string, ids: map<string, string>) {
    && k in s.folders && k in ids
    && s.folders[k].parentFolderId.Some? && s.folders[k].parentFolderId.value in ids
    && IsFolderCopy(copy, s.folders[k], ids[k], s.folders[k].collectionId, Moved(s.folders[k].parentFolderId, ids))
  }

  lemma {:induction false} OneOfTree(s: Snapshot, now: map<string, Folder>, done: map<string, string>,
    ids: map<string, string>, id: string, copy: Folder, k: string, clone: Folder)
    requires TreeCloned(s, now, done, ids, id, copy)
    requires k in s.folders && k !in done && k in ids && ids[k] == clone.meta.id && clone.meta.id !in now
    requires if k == id then clone == copy else IsInnerCopy(s, clone, k, ids)
    ensures TreeCloned(s, now[clone.meta.id := clone], done[k := clone.meta.id], ids, id, copy)
  {
    OneAdded(s.folders, now, done, k, clone.meta.id, clone);
    AddedIsIn(s.folders, now, done);
    hide Added, IsInnerCopy;
  }

  /** Where each request's copy stands in the copy of a folder. */
  function InnerPlaces(s: Snapshot, ids: map<string, string>): map<string, Option<string>> {
    map k | k in s.requests :: Moved(s.requests[k].folderId, ids)
  }

  lemma {:induction false} InnerPlaceOf(s: Snapshot, ids: map<string, string>, k: string)
    requires k in s.requests
    ensures k in InnerPlaces(s, ids) && InnerPlaces(s, ids)[k] == Moved(s.requests[k].folderId, ids)
  {
  }

  /** The requests of a folder are still those it had: a copy is in the copy of a folder. */
  lemma {:induction false} InsideAsBefore(s: Snapshot, now: map<string, Request>, done: map<string, string>,
    collectionId: string, ids: map<string, string>, k: string)
    requires RequestsCloned(s, now, done, collectionId, InnerPlaces(s, ids))
    requires forall i :: i in ids ==> ids[i] != k
    ensures (set r | r in now && now[r].folderId == Some(k))
         == set r | r in s.requests && s.requests[r].folderId == Some(k)
    ensures forall r :: r in s.requests ==> r in now && now[r] == s.requests[r]
  {
    AllRequestsCloned(s, now, done, collectionId, InnerPlaces(s, ids));
    hide RequestsCloned;
    forall r | r in now && r !in s.requests ensures now[r].folderId != Some(k) {
      var i :| i in done && done[i] == r;
      InnerPlaceOf(s, ids, i);
    }
  }

  lemma {:induction false} FolderIsCopied(s: Snapshot, t: Snapshot, id: string, copy: Folder,
    fm: map<string, string>, rm: map<string, string>)
    requires Keyed(s) && id in s.folders && t.collections == s.collections && t.files == s.files
    requires fm.Keys == Below(s.folders, id) + {id} && TreeCloned(s, t.folders, fm, fm, id, copy)
    requires rm.Keys == RequestsIn(s, fm.Keys)
    requires RequestsCloned(s, t.requests, rm, s.folders[id].collectionId, InnerPlaces(s, fm))
    requires copy.meta.id == fm[id]
    requires copy
         == s.folders[id].(id := fm[id], meta := copy.meta, name := s.folders[id].name + " copy", order := copy.order)
    ensures FolderCopied(s, t, id, copy, fm, rm) && Keyed(t)
  {
    AddedIsIn(s.folders, t.folders, fm);
    AllRequestsCloned(s, t.requests, rm, s.folders[id].collectionId, InnerPlaces(s, fm));
    forall k | k in rm
      ensures IsRequestCopy(t.requests[rm[k]], s.requests[k], rm[k], s.folders[id].collectionId,
        Moved(s.requests[k].folderId, fm))
    {
      InnerPlaceOf(s, fm, k);
    }
    hide RequestsCloned, Below, RequestsIn, Moved, InnerPlaces;
    forall k | k in t.folders ensures t.folders[k].meta.id == k {
      if k !in s.folders {
        var j :| j in fm && fm[j] == k;
      }
    }
    forall k | k in t.requests ensures t.requests[k].meta.id == k {
      if k !in s.requests {
        var j :| j in rm && rm[j] == k;
      }
    }
  }

  /**
   * The copy's tree is the folder's. Every link between two folders of it is copied, exactly when the folder is in no
   * ring: the copy's top keeps the original's own parent.
   */
  lemma {:induction false} FolderCopyIsIsomorphic(s: Snapshot, t: Snapshot, id: string, copy: Folder,
    fm: map<string, string>, rm: map<string, string>)
    requires FolderCopied(s, t, id, copy, fm, rm)
    requires s.folders[id].parentFolderId.Some? ==> s.folders[id].parentFolderId.value !in fm.Values
    ensures Untouched(s, t) && fm.Values !! s.folders.Keys && rm.Values !! s.requests.Keys
    ensures Injective(fm) && Injective(rm)
    ensures copy.parentFolderId == s.folders[id].parentFolderId
    ensures FolderLinksCopied(s, t, fm, {id}) && RequestLinksCopied(s, t, fm, rm)
    ensures FolderLinksCopied(s, t, fm, {})
       <==> !(s.folders[id].parentFolderId.Some? && s.folders[id].parentFolderId.value in fm)
    ensures forall k :: k in fm && k != id ==> SameFolder(t.folders[fm[k]], s.folders[k])
    ensures forall k :: k in rm ==> SameRequest(t.requests[rm[k]], s.requests[k])
  {
    hide FolderLinksCopied, RequestLinksCopied, RequestsIn, Below, Moved;
    FolderCopyLinks(s, t, id, copy, fm, rm);
    FolderCopyRequests(s, t, id, copy, fm, rm);
    TopLinks(s, t, id, copy, fm);
    FolderCopySame(s, t, id, copy, fm, rm);
    hide SameFolder, SameRequest;
  }

  lemma {:induction false} FolderCopySame(s: Snapshot, t: Snapshot, id: string, copy: Folder,
    fm: map<string, string>, rm: map<string, string>)
    requires FolderCopied(s, t, id, copy, fm, rm)
    ensures forall k :: k in fm && k != id ==> SameFolder(t.folders[fm[k]], s.folders[k])
    ensures forall k :: k in rm ==> SameRequest(t.requests[rm[k]], s.requests[k])
  {
    hide RequestsIn, Below, Moved, Injective;
  }

  lemma {:induction false} FolderCopyLinks(s: Snapshot, t: Snapshot, id: string, copy: Folder,
    fm: map<string, string>, rm: map<string, string>)
    requires FolderCopied(s, t, id, copy, fm, rm)
    ensures FolderLinksCopied(s, t, fm, {id})
  {
    hide RequestsIn, Below;
    forall k, p | k in fm && p in fm && k !in {id}
      ensures t.folders[fm[k]].parentFolderId == Some(fm[p]) <==> s.folders[k].parentFolderId == Some(p)
    {
      assert IsFolderCopy(t.folders[fm[k]], s.folders[k], fm[k], s.folders[k].collectionId,
        Moved(s.folders[k].parentFolderId, fm));
      assert Injective(fm);
      hide Injective, Added;
      MovedIs(s.folders[k].parentFolderId, fm, p);
    }
  }

  lemma {:induction false} FolderCopyRequests(s: Snapshot, t: Snapshot, id: string, copy: Folder,
    fm: map<string, string>, rm: map<string, string>)
    requires FolderCopied(s, t, id, copy, fm, rm)
    ensures RequestLinksCopied(s, t, fm, rm)
  {
    hide RequestsIn, Below;
    forall k, p | k in rm && p in fm
      ensures t.requests[rm[k]].folderId == Some(fm[p]) <==> s.requests[k].folderId == Some(p)
    {
      assert IsRequestCopy(t.requests[rm[k]], s.requests[k], rm[k], s.folders[id].collectionId,
        Moved(s.requests[k].folderId, fm));
      assert Injective(fm);
      hide Injective, Added;
      MovedIs(s.requests[k].folderId, fm, p);
    }
  }

  /** The link of the top: the copy has the original's, which names an original and not a copy. */
  lemma {:induction false} TopLinks(s: Snapshot, t: Snapshot, id: string, copy: Folder, fm: map<string, string>)
    requires id in fm && fm.Keys <= s.folders.Keys && fm.Values <= t.folders.Keys && fm.Values !! s.folders.Keys
    requires FolderLinksCopied(s, t, fm, {id}) && t.folders[fm[id]] == copy
    requires copy.parentFolderId == s.folders[id].parentFolderId
    requires copy.parentFolderId.Some? ==> copy.parentFolderId.value !in fm.Values
    ensures FolderLinksCopied(s, t, fm, {})
       <==> !(s.folders[id].parentFolderId.Some? && s.folders[id].parentFolderId.value in fm)
  {
    var parent := s.folders[id].parentFolderId;
    if parent.Some? && parent.value in fm {
      assert t.folders[fm[id]].parentFolderId != Some(fm[parent.value]);
    }
  }

  // ---- A folder in a ring ----

  const RING_META: Meta := Meta("", 0, 0)

  function RingFolder(id: string, parent: string, name: string): Folder {
    Folder(id, RING_META.(id := id), "c", Some(parent), name, 1.0, "")
  }

  /** Folders `a` and `b`, each in the other. */
  const RING: map<string, Folder> := map["a" := RingFolder("a", "b", "a"), "b" := RingFolder("b", "a", "b")]
  const RING_IDS: map<string, string> := map["a" := "x", "b" := "y"]

  /** The copy of `a`, and in it the copy of `b`. */
  const TOP_COPY: Folder := RingFolder("x", "b", "a copy")
  const INNER_COPY: Folder := RingFolder("y", "x", "b")

  /** The copy of a folder in a ring is in the original of the folder it was in, whose copy is there too. */
  lemma {:induction false} RingKeepsItsParent()
    ensures var s := Snapshot(map[], RING, map[], map[]);
            var t := Snapshot(map[], RING["x" := TOP_COPY]["y" := INNER_COPY], map[], map[]);
            && FolderCopied(s, t, "a", TOP_COPY, RING_IDS, map[])
            && RING["a"].parentFolderId == Some("b") && TOP_COPY.parentFolderId == Some("b") && RING_IDS["b"] == "y"
  {
    BelowRing();
    RingIsAdded();
    hide Below, Added;
    assert RequestsIn(Snapshot(map[], RING, map[], map[]), RING_IDS.Keys) == {};
    NothingIsAdded(map[]);
    assert "a" + " copy" == "a copy";
  }

  lemma {:induction false} NothingIsAdded(requests: map<string, Request>)
    ensures Added(requests, requests, map[])
  {
  }

  lemma {:induction false} RingIsAdded()
    ensures Added(RING, RING["x" := TOP_COPY]["y" := INNER_COPY], RING_IDS)
  {
    assert RING_IDS.Values == {"x", "y"} by {
      assert RING_IDS["a"] == "x" && RING_IDS["b"] == "y";
    }
    assert RING["x" := TOP_COPY]["y" := INNER_COPY].Keys == RING.Keys + RING_IDS.Values;
  }

  lemma {:induction false} BelowRing()
    ensures Below(RING, "a") == {"b"}
  {
    assert Within(RING, "a", 1) >= {"b"};
    assert Reachable(RING, "a", "b");
  }
}
