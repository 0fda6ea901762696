/** A collection file's documents under new ids: what makes a file a copy, and what every other format is read into. */
module ImportFiles {
  import opened Basics
  import opened ImportUndo
  import opened ManyImports
  import opened Stores

  /** What an id of the file is now; an id the file does not have stays as it is. */
  function Now(ids: map<string, string>, id: string): string {
    if id in ids then ids[id] else id
  }

  /** A link to a folder, by the folder's new id. */
  function Link(ids: map<string, string>, folder: Option<string>): Option<string> {
    if folder.Some? && folder.value != "" then Some(Now(ids, folder.value)) else folder
  }

  function Renewed(meta: Meta, id: string, now: int): Meta {
    meta.(id := id, updatedAt := now)
  }

  /** How many ids the copy of a file takes. */
  function Count(p: Payload): nat {
    1 + |p.folders| + |p.requests|
  }

  /** The id of the file's nth document: its collection, then its folders, then its requests. */
  function KeyAt(p: Payload, n: nat): string
    requires n < Count(p)
  {
    if n == 0 then p.collection.meta.id
    else if n <= |p.folders| then p.folders[n - 1].meta.id
    else p.requests[n - 1 - |p.folders|].meta.id
  }

  /** The new ids once the first documents have theirs. */
  function Ids(p: Payload, supply: seq<string>, n: nat): map<string, string>
    requires n <= Count(p) <= |supply|
  {
    if n == 0 then map[] else Ids(p, supply, n - 1)[KeyAt(p, n - 1) := supply[n - 1]]
  }

  /** The new ids by which folders are linked. */
  function FolderIds(p: Payload, supply: seq<string>): map<string, string>
    requires Count(p) <= |supply|
  {
    Ids(p, supply, 1 + |p.folders|)
  }

  function CopyFolder(f: Folder, ids: map<string, string>, collectionId: string, now: int): Folder {
    var id := Now(ids, f.meta.id);
    f.(id := id, meta := Renewed(f.meta, id, now), collectionId := collectionId,
      parentFolderId := Link(ids, f.parentFolderId))
  }

  function CopyRequest(r: Request, ids: map<string, string>, collectionId: string, now: int): Request {
    var id := Now(ids, r.meta.id);
    r.(id := id, meta := Renewed(r.meta, id, now), collectionId := collectionId, folderId := Link(ids, r.folderId))
  }

  /** The copy: the folders' links are looked up among all their new ids, a request's among those given so far. */
  ghost predicate Remapped(copy: Payload, p: Payload, supply: seq<string>, now: int)
    requires Count(p) <= |supply|
  {
    && copy.collection == p.collection.(id := supply[0], meta := Renewed(p.collection.meta, supply[0], now))
    && |copy.folders| == |p.folders| && |copy.requests| == |p.requests|
    && (forall i :: 0 <= i < |p.folders| ==>
         copy.folders[i] == CopyFolder(p.folders[i], FolderIds(p, supply), supply[0], now))
    && (forall i :: 0 <= i < |p.requests| ==>
         copy.requests[i] == CopyRequest(p.requests[i], Ids(p, supply, 2 + |p.folders| + i), supply[0], now))
  }

  /** Gives a file's documents new ids, in the order they are handed out. */
  method RemapIdentifiers(p: Payload, supply: seq<string>, now: int) returns (copy: Payload)
    requires Count(p) <= |supply|
    ensures Remapped(copy, p, supply, now)
  {
    var top := supply[0];
    var ids := map[p.collection.meta.id := top];
    var collection := p.collection.(id := top, meta := Renewed(p.collection.meta, top, now));
    FirstIds(p, supply);
    hide Ids, CopyFolder, KeyAt, Link, Now;
    for n := 0 to |p.folders|
      invariant ids == Ids(p, supply, 1 + n)
    {
      NextIds(p, supply, 1 + n);
      ids := ids[p.folders[n].meta.id := supply[1 + n]];
    }
    var folders := RemapFolders(p.folders, ids, top, now);
    var requests := RemapRequests(p, supply, ids, now);
    copy := Payload(collection, folders, requests);
  }

  /** Every request takes its new id, and is then put in its folder. */
  method RemapRequests(p: Payload, supply: seq<string>, given: map<string, string>, now: int)
    returns (requests: seq<Request>)
    requires Count(p) <= |supply| && given == FolderIds(p, supply)
    ensures |requests| == |p.requests|
    ensures forall i :: 0 <= i < |p.requests| ==>
      requests[i] == CopyRequest(p.requests[i], Ids(p, supply, 2 + |p.folders| + i), supply[0], now)
  {
    hide KeyAt, Link, Now;
    var (ids, top) := (given, supply[0]);
    requests := [];
    for n := 0 to |p.requests|
      invariant |requests| == n && ids == Ids(p, supply, 1 + |p.folders| + n)
      invariant forall i :: 0 <= i < n ==>
        requests[i] == CopyRequest(p.requests[i], Ids(p, supply, 2 + |p.folders| + i), top, now)
    {
      var (r, id) := (p.requests[n], supply[1 + |p.folders| + n]);
      NextIds(p, supply, 1 + |p.folders| + n);
      hide Ids;
      ids := ids[r.meta.id := id];
      var copied := r.(
        id := id,
        meta := Renewed(r.meta, id, now),
        collectionId := top,
        folderId := Link(ids, r.folderId));
      IsCopy(copied, r, ids, id, top, now);
      hide CopyRequest;
      requests := requests + [copied];
    }
  }

  lemma {:induction false} FirstIds(p: Payload, supply: seq<string>)
    requires Count(p) <= |supply|
    ensures Ids(p, supply, 1) == map[p.collection.meta.id := supply[0]]
  {
    assert Ids(p, supply, 0) == map[];
  }

  lemma {:induction false} NextIds(p: Payload, supply: seq<string>, n: nat)
    requires 0 < n < Count(p) <= |supply|
    ensures Ids(p, supply, n + 1) == Ids(p, supply, n)[KeyAt(p, n) := supply[n]]
    ensures n <= |p.folders| ==> KeyAt(p, n) == p.folders[n - 1].meta.id
    ensures n > |p.folders| ==> KeyAt(p, n) == p.requests[n - 1 - |p.folders|].meta.id
  {
  }

  lemma {:induction false} IsCopy(copied: Request, r: Request, ids: map<string, string>, id: string, top: string,
    now: int)
    requires r.meta.id in ids && ids[r.meta.id] == id
    requires copied
         == r.(id := id, meta := Renewed(r.meta, id, now), collectionId := top, folderId := Link(ids, r.folderId))
    ensures copied == CopyRequest(r, ids, top, now)
  {
  }

  /** The folders' own loop: `ids` is complete for folders here, so their order in the file cannot matter to a link. */
  method RemapFolders(originals: seq<Folder>, ids: map<string, string>, top: string, now: int)
    returns (folders: seq<Folder>)
    ensures |folders| == |originals|
    ensures forall i :: 0 <= i < |originals| ==> folders[i] == CopyFolder(originals[i], ids, top, now)
  {
    folders := [];
    for n := 0 to |originals|
      invariant |folders| == n
      invariant forall i :: 0 <= i < n ==> folders[i] == CopyFolder(originals[i], ids, top, now)
    {
      var f := originals[n];
      var id := Now(ids, f.meta.id);
      var copied := f.(
        id := id,
        meta := Renewed(f.meta, id, now),
        collectionId := top,
        parentFolderId := Link(ids, f.parentFolderId));
      folders := folders + [copied];
    }
  }

  // ---- The ids a copy has ----

  /** Which of the first documents has this id, the last if several have, or -1. */
  function LastAt(p: Payload, id: string, n: nat): int
    requires n <= Count(p)
  {
    if n == 0 then -1 else if KeyAt(p, n - 1) == id then n - 1 else LastAt(p, id, n - 1)
  }

  lemma {:induction false} LastIs(p: Payload, id: string, n: nat)
    requires n <= Count(p)
    ensures var m := LastAt(p, id, n);
            -1 <= m < n && (m >= 0 ==> KeyAt(p, m) == id) && forall j :: m < j < n ==> KeyAt(p, j) != id
  {
    hide KeyAt;
    if n > 0 {
      LastIs(p, id, n - 1);
    }
  }

  /** The last document of an id gives it its new one. */
  lemma {:induction false} IdsAre(p: Payload, supply: seq<string>, id: string, n: nat)
    requires n <= Count(p) <= |supply|
    ensures var m := LastAt(p, id, n);
            && -1 <= m < n && (id in Ids(p, supply, n) <==> m >= 0)
            && (m >= 0 ==> Ids(p, supply, n)[id] == supply[m])
  {
    hide KeyAt;
    if n > 0 {
      IdsAre(p, supply, id, n - 1);
    }
  }

  /** What `newId` hands out: no id twice, none that the file has or links to, and none empty. */
  predicate Fresh(p: Payload, supply: seq<string>) {
    && Count(p) <= |supply|
    && (forall i, j :: 0 <= i < j < |supply| ==> supply[i] != supply[j])
    && "" !in supply
    && (forall f :: f in p.folders && f.parentFolderId.Some? ==> f.parentFolderId.value !in supply)
    && (forall r :: r in p.requests && r.folderId.Some? ==> r.folderId.value !in supply)
  }

  lemma {:induction false} FreshDiffer(p: Payload, supply: seq<string>, i: nat, j: nat)
    requires Fresh(p, supply) && i < |supply| && j < |supply|
    ensures supply[i] == supply[j] <==> i == j
    ensures supply[i] != ""
  {
  }

  /** A link leads to a folder's copy exactly when it led to the folder, and no later document took its id. */
  lemma {:induction false} LinkLeads(p: Payload, supply: seq<string>, n: nat, link: Option<string>, folder: string)
    requires Fresh(p, supply) && 1 + |p.folders| <= n <= Count(p)
    requires folder != "" && LastAt(p, folder, 1 + |p.folders|) >= 0
    requires link.Some? ==> link.value !in supply
    ensures Link(Ids(p, supply, n), link) == Some(Now(FolderIds(p, supply), folder))
       <==> link == Some(folder) && LastAt(p, folder, n) == LastAt(p, folder, 1 + |p.folders|)
  {
    var m := LastAt(p, folder, 1 + |p.folders|);
    IdsAre(p, supply, folder, 1 + |p.folders|);
    LastIs(p, folder, 1 + |p.folders|);
    assert Now(FolderIds(p, supply), folder) == supply[m];
    if link.Some? {
      var l := LastAt(p, link.value, n);
      IdsAre(p, supply, link.value, n);
      LastIs(p, link.value, n);
      hide Ids, KeyAt, FolderIds, LastAt;
      if l >= 0 {
        FreshDiffer(p, supply, l, m);
        hide Fresh;
        if l == m {
          assert link.value == folder;
        }
      } else if link.value == folder {
        FolderStays(p, folder, n);
        assert false;
      }
    }
  }

  /** The id of a folder is not lost as more documents get theirs. */
  lemma {:induction false} FolderStays(p: Payload, id: string, n: nat)
    requires 1 + |p.folders| <= n <= Count(p)
    ensures LastAt(p, id, n) >= LastAt(p, id, 1 + |p.folders|)
  {
    hide KeyAt;
    if n > 1 + |p.folders| {
      FolderStays(p, id, n - 1);
      LastBelow(p, id, n - 1);
    }
  }

  lemma {:induction false} LastBelow(p: Payload, id: string, n: nat)
    requires n <= Count(p)
    ensures LastAt(p, id, n) < n
  {
    hide KeyAt;
    if n > 0 {
      LastBelow(p, id, n - 1);
    }
  }

  lemma {:induction false} FolderCopyIs(copy: Payload, p: Payload, supply: seq<string>, now: int, i: nat)
    requires Count(p) <= |supply| && Remapped(copy, p, supply, now) && i < |p.folders|
    ensures var (id, last) := (p.folders[i].meta.id, LastAt(p, p.folders[i].meta.id, 1 + |p.folders|));
            && 0 < last <= |p.folders| && KeyAt(p, last) == id && id in FolderIds(p, supply)
            && copy.folders[i].meta.id == Now(FolderIds(p, supply), id) == supply[last]
            && copy.folders[i].parentFolderId == Link(FolderIds(p, supply), p.folders[i].parentFolderId)
  {
    var id := p.folders[i].meta.id;
    assert copy.folders[i] == CopyFolder(p.folders[i], FolderIds(p, supply), supply[0], now);
    hide Remapped, Link, LastAt;
    IdsAre(p, supply, id, 1 + |p.folders|);
    LastIs(p, id, 1 + |p.folders|);
    assert KeyAt(p, i + 1) == id;
    hide Ids, KeyAt;
  }

  lemma {:induction false} RequestCopyIs(copy: Payload, p: Payload, supply: seq<string>, now: int, i: nat)
    requires Count(p) <= |supply| && Remapped(copy, p, supply, now) && i < |p.requests|
    ensures copy.requests[i].meta.id == supply[1 + |p.folders| + i]
    ensures copy.requests[i].folderId == Link(Ids(p, supply, 2 + |p.folders| + i), p.requests[i].folderId)
  {
    NextIds(p, supply, 1 + |p.folders| + i);
    hide Ids, Link, KeyAt;
  }

  /** A document of the copy is as old as the file's and was updated when the copy was made, under an id of its own. */
  predicate IsRenewed(meta: Meta, id: string, was: Meta, now: int) {
    meta.id == id && meta.createdAt == was.createdAt && meta.updatedAt == now
  }

  /** What a copy keeps: but for ids, links and times, every document of it is the file's. */
  lemma {:induction false} CopyKeepsContent(copy: Payload, p: Payload, supply: seq<string>, now: int)
    requires Count(p) <= |supply| && Remapped(copy, p, supply, now)
    ensures var (c, was) := (copy.collection, p.collection);
            && c.id == supply[0] && IsRenewed(c.meta, supply[0], was.meta, now)
            && c.name == was.name && c.order == was.order && c.content == was.content && c.trusted == was.trusted
    ensures |copy.folders| == |p.folders| && |copy.requests| == |p.requests|
    ensures forall i :: 0 <= i < |p.folders| ==>
              var (f, was) := (copy.folders[i], p.folders[i]);
              && IsRenewed(f.meta, f.id, was.meta, now) && f.collectionId == supply[0]
              && f.name == was.name && f.order == was.order && f.content == was.content
    ensures forall i :: 0 <= i < |p.requests| ==>
              var (r, was) := (copy.requests[i], p.requests[i]);
              && IsRenewed(r.meta, r.id, was.meta, now) && r.collectionId == supply[0]
              && r.name == was.name && r.order == was.order && r.content == was.content && r.body == was.body
  {
    hide Now, Link, Ids, FolderIds;
  }

  lemma {:induction false} LinksAreOld(p: Payload, supply: seq<string>)
    requires Fresh(p, supply)
    ensures forall i :: 0 <= i < |p.folders| && p.folders[i].parentFolderId.Some? ==>
      p.folders[i].parentFolderId.value !in supply
    ensures forall i :: 0 <= i < |p.requests| && p.requests[i].folderId.Some? ==>
      p.requests[i].folderId.value !in supply
  {
    assert forall i :: 0 <= i < |p.folders| ==> p.folders[i] in p.folders;
    assert forall i :: 0 <= i < |p.requests| ==> p.requests[i] in p.requests;
  }

  /** Two folders of the copy have one id exactly when they had, and a folder is in another exactly when it was. */
  lemma {:induction false} FoldersKeepTheirTree(copy: Payload, p: Payload, supply: seq<string>, now: int, i: nat,
    j: nat)
    requires Fresh(p, supply) && Remapped(copy, p, supply, now)
    requires i < |p.folders| && j < |p.folders| && p.folders[j].meta.id != ""
    ensures copy.folders[i].meta.id == copy.folders[j].meta.id <==> p.folders[i].meta.id == p.folders[j].meta.id
    ensures copy.folders[i].parentFolderId == Some(copy.folders[j].meta.id)
       <==> p.folders[i].parentFolderId == Some(p.folders[j].meta.id)
  {
    LinksAreOld(p, supply);
    hide Fresh, Remapped, FolderIds, Ids, Link, Now, LastAt, KeyAt;
    FolderCopyIs(copy, p, supply, now, i);
    FolderCopyIs(copy, p, supply, now, j);
    LinkLeads(p, supply, 1 + |p.folders|, p.folders[i].parentFolderId, p.folders[j].meta.id);
    FreshDiffer(p, supply, LastAt(p, p.folders[i].meta.id, 1 + |p.folders|),
      LastAt(p, p.folders[j].meta.id, 1 + |p.folders|));
  }

  /**
   * A request of the copy is in a folder exactly when it was in that folder, and neither it nor a request before it
   * had the folder's id: its new id takes the place of the folder's.
   */
  lemma {:induction false} RequestsKeepTheirFolder(copy: Payload, p: Payload, supply: seq<string>, now: int, i: nat,
    j: nat)
    requires Fresh(p, supply) && Remapped(copy, p, supply, now)
    requires i < |p.requests| && j < |p.folders| && p.folders[j].meta.id != ""
    ensures copy.requests[i].folderId == Some(copy.folders[j].meta.id)
       <==> && p.requests[i].folderId == Some(p.folders[j].meta.id)
            && forall m :: 0 <= m <= i ==> p.requests[m].meta.id != p.folders[j].meta.id
  {
    LinksAreOld(p, supply);
    hide Fresh, Remapped, FolderIds, Ids, Link, Now, LastAt, KeyAt;
    FolderCopyIs(copy, p, supply, now, j);
    RequestCopyIs(copy, p, supply, now, i);
    LinkLeads(p, supply, 2 + |p.folders| + i, p.requests[i].folderId, p.folders[j].meta.id);
    LastStays(p, p.folders[j].meta.id, i + 1);
  }

  lemma {:induction false} LastStays(p: Payload, id: string, n: nat)
    requires n <= |p.requests|
    ensures LastAt(p, id, 1 + |p.folders| + n) == LastAt(p, id, 1 + |p.folders|)
       <==> forall m :: 0 <= m < n ==> p.requests[m].meta.id != id
  {
    var folders := 1 + |p.folders|;
    if n > 0 {
      LastStays(p, id, n - 1);
      assert KeyAt(p, |p.folders| + n) == p.requests[n - 1].meta.id;
      LastBelow(p, id, folders);
      FolderStays(p, id, folders + n - 1);
      hide KeyAt;
      assert LastAt(p, id, folders + n)
          == if p.requests[n - 1].meta.id == id then folders + n - 1 else LastAt(p, id, folders + n - 1);
      hide LastAt;
    }
  }

  /** No two requests of a copy have one id, whatever ids they had. */
  lemma {:induction false} RequestsAreDistinct(copy: Payload, p: Payload, supply: seq<string>, now: int, i: nat, j: nat)
    requires Fresh(p, supply) && Remapped(copy, p, supply, now) && i < j < |p.requests|
    ensures copy.requests[i].meta.id != copy.requests[j].meta.id
  {
    RequestCopyIs(copy, p, supply, now, i);
    RequestCopyIs(copy, p, supply, now, j);
    hide Remapped, Ids, Link;
    FreshDiffer(p, supply, 1 + |p.folders| + i, 1 + |p.folders| + j);
  }

  // ---- Copies share no id ----

  lemma {:induction false} CopyHasNewIds(copy: Payload, p: Payload, supply: seq<string>, now: int)
    requires Count(p) <= |supply| && Remapped(copy, p, supply, now)
    ensures copy.collection.meta.id in supply
    ensures forall k :: k in FolderKeys(copy) || k in RequestKeys(copy) ==> k in supply
  {
    forall k | k in FolderKeys(copy) ensures k in supply {
      var i :| 0 <= i < |copy.folders| && copy.folders[i].meta.id == k;
      FolderCopyIs(copy, p, supply, now, i);
    }
    forall k | k in RequestKeys(copy) ensures k in supply {
      var i :| 0 <= i < |copy.requests| && copy.requests[i].meta.id == k;
      RequestCopyIs(copy, p, supply, now, i);
    }
  }

  /** Ids handed out for one file after another: none is in the stores, and none is handed out twice. */
  predicate HandedOut(s: Snapshot, supplies: seq<seq<string>>) {
    && (forall i, id :: 0 <= i < |supplies| && id in supplies[i] ==>
         Unused(s, id) && id !in s.folders && id !in s.requests)
    && (forall i, j, id :: 0 <= i < j < |supplies| && id in supplies[i] ==> id !in supplies[j])
  }

  ghost predicate AllRemapped(copies: seq<Payload>, ps: seq<Payload>, supplies: seq<seq<string>>, now: int) {
    && |copies| == |ps| == |supplies|
    && forall i :: 0 <= i < |ps| ==> Count(ps[i]) <= |supplies[i]| && Remapped(copies[i], ps[i], supplies[i], now)
  }

  /** Files that are each given new ids share none, and have none of the stores. */
  lemma {:induction false} CopiesAreNew(s: Snapshot, copies: seq<Payload>, ps: seq<Payload>, supplies: seq<seq<string>>,
    now: int)
    requires AllRemapped(copies, ps, supplies, now) && HandedOut(s, supplies)
    ensures AllNew(s, copies)
  {
    hide Remapped, Count, FolderKeys, RequestKeys, FoldersOf, RequestsOf;
    forall i | 0 <= i < |ps| ensures
      && copies[i].collection.meta.id in supplies[i]
      && forall k :: k in FolderKeys(copies[i]) || k in RequestKeys(copies[i]) ==> k in supplies[i]
    {
      CopyHasNewIds(copies[i], ps[i], supplies[i], now);
    }
    forall p | p in copies ensures
      Unused(s, p.collection.meta.id) && FolderKeys(p) !! s.folders.Keys && RequestKeys(p) !! s.requests.Keys
    {
      var i :| 0 <= i < |copies| && copies[i] == p;
    }
  }

  // ---- A request that has its folder's id ----

  const META: Meta := Meta("x", 0, 0)
  const TWINS: Payload := Payload(
    Collection("c", META.(id := "c"), "c", 0.0, "", false),
    [Folder("x", META, "c", None, "folder", 0.0, "")],
    [Request("x", META, "c", Some("x"), "request", 0.0, "", Body("none", "", [], None))])

  /** The copy of a request whose id is that of the folder it is in is in no folder of the copy. */
  lemma {:induction false} RequestLosesItsFolder(copy: Payload, now: int)
    requires Remapped(copy, TWINS, ["1", "2", "3"], now)
    ensures TWINS.requests[0].folderId == Some(TWINS.folders[0].meta.id)
    ensures copy.requests[0].folderId.Some? && !HasFolder(copy.folders, copy.requests[0].folderId.value)
  {
    var supply := ["1", "2", "3"];
    FirstIds(TWINS, supply);
    NextIds(TWINS, supply, 1);
    NextIds(TWINS, supply, 2);
    assert copy.folders[0].id == "2" && copy.requests[0].folderId == Some("3");
  }
}
