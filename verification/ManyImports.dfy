/** The Undo of an import of any number of collections, and exactly when it gives back the stores as they were. */
module ManyImports {
  import opened ImportPipeline
  import opened ImportUndo
  import opened StoreUndo
  import opened Stores

  function CollectionIds(ps: seq<Payload>): set<string> {
    if ps == [] then {} else CollectionIds(ps[..|ps| - 1]) + {ps[|ps| - 1].collection.meta.id}
  }

  /** The folders these imports put. */
  function PutF(ps: seq<Payload>): set<string> {
    if ps == [] then {} else PutF(ps[..|ps| - 1]) + FolderKeys(ps[|ps| - 1])
  }

  function PutR(ps: seq<Payload>): set<string> {
    if ps == [] then {} else PutR(ps[..|ps| - 1]) + RequestKeys(ps[|ps| - 1])
  }

  /** The folders of the stores that belong to the imported collections. */
  function OwnF(s: Snapshot, ps: seq<Payload>): set<string> {
    if ps == [] then {} else OwnF(s, ps[..|ps| - 1]) + FoldersOf(s, ps[|ps| - 1].collection.meta.id)
  }

  function OwnR(s: Snapshot, ps: seq<Payload>): set<string> {
    if ps == [] then {} else OwnR(s, ps[..|ps| - 1]) + RequestsOf(s, ps[|ps| - 1].collection.meta.id)
  }

  // ---- Files that do not meet ----

  /** The file has none of the documents the stores hold in the other collection. */
  predicate Avoids(s: Snapshot, p: Payload, id: string) {
    FolderKeys(p) !! FoldersOf(s, id) && RequestKeys(p) !! RequestsOf(s, id)
  }

  /** The two files have no id in common, and neither has that of a document stored in the other's collection. */
  predicate Distinct(s: Snapshot, p: Payload, q: Payload) {
    && p.collection.meta.id != q.collection.meta.id
    && FolderKeys(p) !! FolderKeys(q) && RequestKeys(p) !! RequestKeys(q)
    && Avoids(s, p, q.collection.meta.id) && Avoids(s, q, p.collection.meta.id)
  }

  predicate Apart(s: Snapshot, ps: seq<Payload>) {
    forall i, j :: 0 <= i < j < |ps| ==> Distinct(s, ps[i], ps[j])
  }

  /** Every id of the files is new to the stores, and no two of the files share one. */
  predicate AllNew(s: Snapshot, ps: seq<Payload>) {
    && (forall p :: p in ps ==>
         && Unused(s, p.collection.meta.id)
         && FolderKeys(p) !! s.folders.Keys && RequestKeys(p) !! s.requests.Keys)
    && (forall i, j :: 0 <= i < j < |ps| ==>
         && ps[i].collection.meta.id != ps[j].collection.meta.id
         && FolderKeys(ps[i]) !! FolderKeys(ps[j]) && RequestKeys(ps[i]) !! RequestKeys(ps[j]))
  }

  lemma {:induction false} NewAreApart(s: Snapshot, ps: seq<Payload>)
    requires AllNew(s, ps)
    ensures Apart(s, ps)
  {
    hide FolderKeys, RequestKeys;
    forall i, j | 0 <= i < j < |ps| ensures Distinct(s, ps[i], ps[j]) {
      assert ps[i] in ps && ps[j] in ps;
    }
  }

  /** What an import meets of those before it: nothing. */
  predicate Beside(s: Snapshot, front: seq<Payload>, p: Payload) {
    && p.collection.meta.id !in CollectionIds(front)
    && FolderKeys(p) + FoldersOf(s, p.collection.meta.id) !! PutF(front) + OwnF(s, front)
    && RequestKeys(p) + RequestsOf(s, p.collection.meta.id) !! PutR(front) + OwnR(s, front)
  }

  lemma {:induction false} DistinctAreBeside(s: Snapshot, front: seq<Payload>, p: Payload)
    requires forall q :: q in front ==> Distinct(s, q, p)
    ensures Beside(s, front, p)
  {
    if front != [] {
      DistinctAreBeside(s, front[..|front| - 1], p);
      assert front[|front| - 1] in front;
      hide FolderKeys, RequestKeys;
    }
  }

  lemma {:induction false} ApartAreBeside(s: Snapshot, ps: seq<Payload>, m: nat)
    requires Apart(s, ps) && m < |ps|
    ensures Beside(s, ps[..m], ps[m])
  {
    hide Distinct, Beside;
    forall q | q in ps[..m] ensures Distinct(s, q, ps[m]) {
      var i :| 0 <= i < m && ps[i] == q;
    }
    DistinctAreBeside(s, ps[..m], ps[m]);
  }

  // ---- What the imports leave ----

  /** What stands after the imports: what they put, and what was there and is neither replaced nor put over. */
  ghost predicate FoldersStand(s: Snapshot, t: Snapshot, ps: seq<Payload>) {
    && (forall k :: k in t.folders && (k in PutF(ps) || k in OwnF(s, ps)) ==>
         t.folders[k].collectionId in CollectionIds(ps))
    && (forall k :: k !in PutF(ps) && k !in OwnF(s, ps) ==>
         (k in t.folders <==> k in s.folders) && (k in s.folders ==> t.folders[k] == s.folders[k]))
  }

  ghost predicate RequestsStand(s: Snapshot, t: Snapshot, ps: seq<Payload>) {
    && (forall k :: k in t.requests && (k in PutR(ps) || k in OwnR(s, ps)) ==>
         t.requests[k].collectionId in CollectionIds(ps))
    && (forall k :: k !in PutR(ps) && k !in OwnR(s, ps) ==>
         (k in t.requests <==> k in s.requests) && (k in s.requests ==> t.requests[k] == s.requests[k]))
  }

  ghost predicate CollectionsStand(s: Snapshot, t: Snapshot, ps: seq<Payload>) {
    && t.collections.Keys == s.collections.Keys + CollectionIds(ps)
    && forall k :: k in s.collections && k !in CollectionIds(ps) ==> t.collections[k] == s.collections[k]
  }

  /** A file stays as long as a request names it that no import replaces or puts over. */
  ghost predicate FilesStand(s: Snapshot, t: Snapshot, ps: seq<Payload>) {
    && (forall f :: f in t.files ==> f in s.files && t.files[f] == s.files[f])
    && (forall f :: f in s.files && f in Named(s.requests, s.requests.Keys - PutR(ps) - OwnR(s, ps)) ==> f in t.files)
  }

  ghost predicate Stand(s: Snapshot, t: Snapshot, ps: seq<Payload>) {
    FoldersStand(s, t, ps) && RequestsStand(s, t, ps) && CollectionsStand(s, t, ps) && FilesStand(s, t, ps)
  }

  lemma {:induction false} FoldersStandNext(s: Snapshot, t: Snapshot, front: seq<Payload>, p: Payload, asNew: bool)
    requires FoldersStand(s, t, front)
    ensures FoldersStand(s, Imported(t, p, asNew), front + [p])
  {
    FoldersAfter(t, p, asNew);
    assert (front + [p])[..|front|] == front;
    var (was, now) := (Cleared(t, p.collection.meta.id, asNew).folders, Imported(t, p, asNew).folders);
    hide Imported, FolderKeys;
    forall k | k in now && (k in PutF(front + [p]) || k in OwnF(s, front + [p]))
      ensures now[k].collectionId in CollectionIds(front + [p])
    {
      if k !in FolderKeys(p) {
        assert k in was && now[k] == was[k] == t.folders[k];
      }
    }
    forall k | k !in PutF(front + [p]) && k !in OwnF(s, front + [p])
      ensures (k in now <==> k in s.folders) && (k in s.folders ==> now[k] == s.folders[k])
    {
      assert k in now <==> k in was;
    }
  }

  lemma {:induction false} RequestsStandNext(s: Snapshot, t: Snapshot, front: seq<Payload>, p: Payload, asNew: bool)
    requires RequestsStand(s, t, front)
    ensures RequestsStand(s, Imported(t, p, asNew), front + [p])
  {
    RequestsAfter(t, p, asNew);
    assert (front + [p])[..|front|] == front;
    var (was, now) := (Cleared(t, p.collection.meta.id, asNew).requests, Imported(t, p, asNew).requests);
    hide Imported, RequestKeys;
    forall k | k in now && (k in PutR(front + [p]) || k in OwnR(s, front + [p]))
      ensures now[k].collectionId in CollectionIds(front + [p])
    {
      if k !in RequestKeys(p) {
        assert k in was && now[k] == was[k] == t.requests[k];
      }
    }
    forall k | k !in PutR(front + [p]) && k !in OwnR(s, front + [p])
      ensures (k in now <==> k in s.requests) && (k in s.requests ==> now[k] == s.requests[k])
    {
      assert k in now <==> k in was;
    }
  }

  lemma {:induction false} FilesStandNext(s: Snapshot, t: Snapshot, front: seq<Payload>, p: Payload, asNew: bool)
    requires FilesStand(s, t, front) && RequestsStand(s, Imported(t, p, asNew), front + [p])
    ensures FilesStand(s, Imported(t, p, asNew), front + [p])
  {
    var now := Imported(t, p, asNew);
    FilesKept(t, p, asNew);
    var (before, after) := (s.requests.Keys - PutR(front) - OwnR(s, front),
      s.requests.Keys - PutR(front + [p]) - OwnR(s, front + [p]));
    assert after <= before by {
      assert (front + [p])[..|front|] == front;
    }
    hide Imported, PutR, OwnR;
    NamedStay(s, now, before, after);
    hide Named, Used;
  }

  lemma {:induction false} FilesKept(t: Snapshot, p: Payload, asNew: bool)
    ensures var now := Imported(t, p, asNew);
            && (forall f :: f in now.files <==> f in t.files && f in Used(now))
            && forall f :: f in now.files ==> now.files[f] == t.files[f]
  {
    var now := Imported(t, p, asNew);
    var before := Snapshot(now.collections, now.folders, now.requests, Cleared(t, p.collection.meta.id, asNew).files);
    assert now == Swept(before) && Used(before) == Used(now);
    hide Imported, Used;
  }

  /** A file that a request names which stays is named in the stores after. */
  lemma {:induction false} NamedStay(s: Snapshot, now: Snapshot, before: set<string>, after: set<string>)
    requires after <= before
    requires forall k :: k in after && k in s.requests ==> k in now.requests && now.requests[k] == s.requests[k]
    ensures Named(s.requests, after) <= Named(s.requests, before) && Named(s.requests, after) <= Used(now)
  {
  }

  lemma {:induction false} CollectionsStandNext(s: Snapshot, t: Snapshot, front: seq<Payload>, p: Payload, asNew: bool)
    requires CollectionsStand(s, t, front)
    ensures CollectionsStand(s, Imported(t, p, asNew), front + [p])
  {
    assert (front + [p])[..|front|] == front;
    var id := p.collection.meta.id;
    assert Imported(t, p, asNew).collections == Cleared(t, id, asNew).collections[id := Untrusted(p.collection)];
    hide Imported;
  }

  lemma {:induction false} NoneStand(s: Snapshot)
    ensures Stand(s, s, [])
  {
  }

  lemma {:induction false} AllStand(s: Snapshot, ps: seq<Payload>, asNew: bool)
    ensures Stand(s, ImportedAll(s, ps, asNew), ps)
  {
    if ps == [] {
      NoneStand(s);
    } else {
      var (front, last) := (ps[..|ps| - 1], ps[|ps| - 1]);
      var t := ImportedAll(s, front, asNew);
      AllStand(s, front, asNew);
      assert ImportedAll(s, ps, asNew) == Imported(t, last, asNew);
      assert front + [last] == ps;
      hide ImportedAll, Imported, PutF, PutR, OwnF, OwnR, CollectionIds, FoldersStand, RequestsStand,
        CollectionsStand, FilesStand;
      FoldersStandNext(s, t, front, last, asNew);
      RequestsStandNext(s, t, front, last, asNew);
      CollectionsStandNext(s, t, front, last, asNew);
      FilesStandNext(s, t, front, last, asNew);
    }
  }

  // ---- What each import hands over ----

  lemma {:induction false} OwnIsOf(s: Snapshot, ps: seq<Payload>)
    ensures forall k :: k in OwnF(s, ps) <==> k in s.folders && s.folders[k].collectionId in CollectionIds(ps)
    ensures forall k :: k in OwnR(s, ps) <==> k in s.requests && s.requests[k].collectionId in CollectionIds(ps)
  {
    if ps != [] {
      OwnIsOf(s, ps[..|ps| - 1]);
    }
  }

  /** These documents are in both stores, and are the same there. */
  ghost predicate SameFolders(s: Snapshot, t: Snapshot, fs: set<string>) {
    forall k :: k in fs ==> k in s.folders && k in t.folders && t.folders[k] == s.folders[k]
  }

  ghost predicate SameRequests(s: Snapshot, t: Snapshot, rs: set<string>) {
    forall k :: k in rs ==> k in s.requests && k in t.requests && t.requests[k] == s.requests[k]
  }

  lemma {:induction false} TakenAre(s: Snapshot, p: Payload, asNew: bool)
    ensures forall k :: k in TakenFolders(s, p, asNew) <==>
      k in FolderKeys(p) && k in s.folders && s.folders[k].collectionId != p.collection.meta.id
    ensures forall k :: k in TakenRequests(s, p, asNew) <==>
      k in RequestKeys(p) && k in s.requests && s.requests[k].collectionId != p.collection.meta.id
  {
  }

  lemma {:induction false} FoldersAsTheyWere(s: Snapshot, t: Snapshot, front: seq<Payload>, p: Payload, asNew: bool)
    requires Beside(s, front, p) && FoldersStand(s, t, front)
    ensures var id := p.collection.meta.id;
            && FoldersOf(t, id) == FoldersOf(s, id) && SameFolders(s, t, FoldersOf(s, id))
            && TakenFolders(t, p, asNew) == TakenFolders(s, p, asNew) && SameFolders(s, t, TakenFolders(s, p, asNew))
  {
    var id := p.collection.meta.id;
    TakenAre(s, p, asNew);
    TakenAre(t, p, asNew);
    OwnIsOf(s, front);
    hide PutF, OwnF, CollectionIds, FolderKeys, TakenFolders;
    assert forall k :: k in FolderKeys(p) || k in FoldersOf(s, id) ==> k !in PutF(front) && k !in OwnF(s, front);
  }

  lemma {:induction false} RequestsAsTheyWere(s: Snapshot, t: Snapshot, front: seq<Payload>, p: Payload, asNew: bool)
    requires Beside(s, front, p) && RequestsStand(s, t, front)
    ensures var id := p.collection.meta.id;
            && RequestsOf(t, id) == RequestsOf(s, id) && SameRequests(s, t, RequestsOf(s, id))
            && TakenRequests(t, p, asNew) == TakenRequests(s, p, asNew)
            && SameRequests(s, t, TakenRequests(s, p, asNew))
            && RequestsOf(s, id) <= s.requests.Keys - PutR(front) - OwnR(s, front)
            && TakenRequests(s, p, asNew) <= s.requests.Keys - PutR(front) - OwnR(s, front)
  {
    var id := p.collection.meta.id;
    TakenAre(s, p, asNew);
    TakenAre(t, p, asNew);
    OwnIsOf(s, front);
    hide PutR, OwnR, CollectionIds, RequestKeys, TakenRequests;
    assert forall k :: k in RequestKeys(p) || k in RequestsOf(s, id) ==> k !in PutR(front) && k !in OwnR(s, front);
  }

  lemma {:induction false} CapturedAsItWas(s: Snapshot, t: Snapshot, cs: set<string>, fs: set<string>, rs: set<string>,
    removed: Removed, front: seq<Payload>)
    requires Captures(removed, t, cs, fs, rs) && SameFolders(s, t, fs) && SameRequests(s, t, rs)
    requires forall id :: id in cs ==>
      id in s.collections && id in t.collections && t.collections[id] == s.collections[id]
    requires FilesStand(s, t, front) && rs <= s.requests.Keys - PutR(front) - OwnR(s, front)
    ensures Captures(removed, s, cs, fs, rs)
  {
    var stays := s.requests.Keys - PutR(front) - OwnR(s, front);
    assert Named(t.requests, rs) == Named(s.requests, rs) <= Named(s.requests, stays);
    hide Named, PutR, OwnR;
  }

  /** What an import hands over, taken from the stores as they were before the imports. */
  ghost predicate HandedOf(all: seq<Removed>, s: Snapshot, p: Payload, asNew: bool) {
    var id := p.collection.meta.id;
    var first := if Replaces(s, p, asNew) then 1 else 0;
    && |all| == first + (if Takes(s, p, asNew) then 1 else 0)
    && (Replaces(s, p, asNew) ==> Captures(all[0], s, {id}, FoldersOf(s, id), RequestsOf(s, id)))
    && (Takes(s, p, asNew) ==> Captures(all[first], s, {}, TakenFolders(s, p, asNew), TakenRequests(s, p, asNew)))
  }

  /** What an import of these hands over is what it replaced and took, as it was before the first of them. */
  lemma {:induction false} NextHanded(s: Snapshot, front: seq<Payload>, p: Payload, asNew: bool, handed: seq<Removed>)
    requires Beside(s, front, p) && Handed(handed, ImportedAll(s, front, asNew), p, asNew)
    ensures HandedOf(handed, s, p, asNew)
  {
    var (id, t) := (p.collection.meta.id, ImportedAll(s, front, asNew));
    AllStand(s, front, asNew);
    FoldersAsTheyWere(s, t, front, p, asNew);
    RequestsAsTheyWere(s, t, front, p, asNew);
    assert id !in CollectionIds(front) && CollectionsStand(s, t, front) && FilesStand(s, t, front);
    assert id in t.collections.Keys <==> id in s.collections.Keys;
    hide Beside, Stand, FilesStand, ImportedAll, Captures, FoldersOf, RequestsOf, TakenFolders, TakenRequests, PutR,
      OwnR,
      SameFolders, SameRequests, CollectionIds;
    var first := if Replaces(s, p, asNew) then 1 else 0;
    if Replaces(s, p, asNew) {
      CapturedAsItWas(s, t, {id}, FoldersOf(s, id), RequestsOf(s, id), handed[0], front);
    }
    if Takes(s, p, asNew) {
      TakenAsItWas(t, p, asNew, handed[first]);
      CapturedAsItWas(s, t, {}, TakenFolders(s, p, asNew), TakenRequests(s, p, asNew), handed[first], front);
    }
  }

  // ---- The deletes ----

  function SetOf(ids: seq<string>): set<string> {
    set id | id in ids
  }

  /** The deletes, one after the other, leave what is in none of the collections, and the files that is named by. */
  lemma {:induction false} DeletedAllLeaves(t: Snapshot, ids: seq<string>)
    ensures var left := DeletedAll(t, ids);
            && left.collections == t.collections - SetOf(ids)
            && left.folders == t.folders - FoldersOfAny(t, SetOf(ids))
            && left.requests == t.requests - RequestsOfAny(t, SetOf(ids))
            && (forall f :: f in left.files ==> f in t.files && left.files[f] == t.files[f])
            && (forall f :: f in t.files && f in Used(left) ==> f in left.files)
            && (ids != [] ==> NoOrphan(left))
  {
    if ids == [] {
      assert t.collections - {} == t.collections && t.folders - {} == t.folders && t.requests - {} == t.requests;
    } else {
      var (front, last) := (ids[..|ids| - 1], ids[|ids| - 1]);
      DeletedAllLeaves(t, front);
      assert SetOf(ids) == SetOf(front) + {last} by {
        assert ids == front + [last];
      }
      var before := DeletedAll(t, front);
      DeletedNext(t, before, SetOf(front), last);
    }
  }

  lemma {:induction false} DeletedNext(t: Snapshot, before: Snapshot, gone: set<string>, id: string)
    requires before.collections == t.collections - gone
    requires before.folders == t.folders - FoldersOfAny(t, gone)
    requires before.requests == t.requests - RequestsOfAny(t, gone)
    requires forall f :: f in before.files ==> f in t.files && before.files[f] == t.files[f]
    requires forall f :: f in t.files && f in Used(before) ==> f in before.files
    ensures var left := DeletedCollection(before, id);
            && left.collections == t.collections - (gone + {id})
            && left.folders == t.folders - FoldersOfAny(t, gone + {id})
            && left.requests == t.requests - RequestsOfAny(t, gone + {id})
            && (forall f :: f in left.files ==> f in t.files && left.files[f] == t.files[f])
            && (forall f :: f in t.files && f in Used(left) ==> f in left.files)
            && NoOrphan(left)
  {
    var left := DeletedCollection(before, id);
    assert left.folders == before.folders - FoldersOf(before, id);
    assert left.requests == before.requests - RequestsOf(before, id);
    assert Used(left) <= Used(before) by {
      FewerNamed(before, left);
    }
    DeletedIsSwept(before, id);
    hide Used, DeletedCollection;
    assert FoldersOfAny(t, gone + {id}) == FoldersOfAny(t, gone) + FoldersOf(before, id);
    assert RequestsOfAny(t, gone + {id}) == RequestsOfAny(t, gone) + RequestsOf(before, id);
  }

  lemma {:induction false} FewerNamed(s: Snapshot, t: Snapshot)
    requires forall k :: k in t.requests ==> k in s.requests && t.requests[k] == s.requests[k]
    ensures Used(t) <= Used(s)
  {
  }

  lemma {:induction false} DeletedIsSwept(s: Snapshot, id: string)
    ensures var left := DeletedCollection(s, id);
            && NoOrphan(left) && left.collections == s.collections - {id}
            && (forall f :: f in left.files <==> f in s.files && f in Used(left))
            && forall f :: f in left.files ==> left.files[f] == s.files[f]
  {
    var rest := Snapshot(s.collections - {id}, s.folders - FoldersOf(s, id), s.requests - RequestsOf(s, id), s.files);
    assert Used(Swept(rest)) == Used(rest);
  }

  lemma {:induction false} SetOfIds(ps: seq<Payload>)
    ensures SetOf(IdsOf(ps)) == CollectionIds(ps)
  {
    if ps != [] {
      var (front, last) := (ps[..|ps| - 1], ps[|ps| - 1]);
      SetOfIds(front);
      assert IdsOf(ps) == IdsOf(front) + [last.collection.meta.id];
    }
  }

  /** What the deletes leave of the stores as they were before the imports. */
  lemma {:induction false} ImportedAndDeleted(s: Snapshot, ps: seq<Payload>, asNew: bool)
    requires ps != []
    ensures DeletedAll(ImportedAll(s, ps, asNew), IdsOf(ps))
         == Lacking(s, CollectionIds(ps), PutF(ps) + OwnF(s, ps), PutR(ps) + OwnR(s, ps),
           SweptBy(s, PutR(ps) + OwnR(s, ps)))
  {
    var t := ImportedAll(s, ps, asNew);
    var (ids, left) := (CollectionIds(ps), DeletedAll(t, IdsOf(ps)));
    AllStand(s, ps, asNew);
    OwnIsOf(s, ps);
    DeletedAllLeaves(t, IdsOf(ps));
    SetOfIds(ps);
    hide ImportedAll, DeletedAll, PutF, PutR, OwnF, OwnR, CollectionIds, SetOf, Used;
    CollectionsLeft(s, t, ps);
    FoldersLeftOver(s, t, ps);
    RequestsLeftOver(s, t, ps);
    FilesLeftOver(s, t, left, ps);
  }

  lemma {:induction false} CollectionsLeft(s: Snapshot, t: Snapshot, ps: seq<Payload>)
    requires CollectionsStand(s, t, ps)
    ensures t.collections - CollectionIds(ps) == s.collections - CollectionIds(ps)
  {
    hide CollectionIds;
  }

  lemma {:induction false} FoldersLeftOver(s: Snapshot, t: Snapshot, ps: seq<Payload>)
    requires FoldersStand(s, t, ps)
    ensures t.folders - FoldersOfAny(t, CollectionIds(ps)) == s.folders - (PutF(ps) + OwnF(s, ps))
  {
    OwnIsOf(s, ps);
    hide PutF, OwnF, CollectionIds;
    var (left, other) := (t.folders - FoldersOfAny(t, CollectionIds(ps)), s.folders - (PutF(ps) + OwnF(s, ps)));
    forall k ensures k in left <==> k in other {
      assert k in left <==> k in t.folders && t.folders[k].collectionId !in CollectionIds(ps);
    }
    assert left.Keys == other.Keys;
  }

  lemma {:induction false} RequestsLeftOver(s: Snapshot, t: Snapshot, ps: seq<Payload>)
    requires RequestsStand(s, t, ps)
    ensures t.requests - RequestsOfAny(t, CollectionIds(ps)) == s.requests - (PutR(ps) + OwnR(s, ps))
  {
    OwnIsOf(s, ps);
    hide PutR, OwnR, CollectionIds;
    var (left, other) := (t.requests - RequestsOfAny(t, CollectionIds(ps)), s.requests - (PutR(ps) + OwnR(s, ps)));
    forall k ensures k in left <==> k in other {
      assert k in left <==> k in t.requests && t.requests[k].collectionId !in CollectionIds(ps);
    }
    assert left.Keys == other.Keys;
  }

  lemma {:induction false} FilesLeftOver(s: Snapshot, t: Snapshot, left: Snapshot, ps: seq<Payload>)
    requires FilesStand(s, t, ps) && left.requests == s.requests - (PutR(ps) + OwnR(s, ps)) && NoOrphan(left)
    requires forall f :: f in left.files ==> f in t.files && left.files[f] == t.files[f]
    requires forall f :: f in t.files && f in Used(left) ==> f in left.files
    ensures left.files == s.files - SweptBy(s, PutR(ps) + OwnR(s, ps))
  {
    var gone := PutR(ps) + OwnR(s, ps);
    assert s.requests.Keys - PutR(ps) - OwnR(s, ps) == s.requests.Keys - gone;
    assert Used(left) == Named(s.requests, s.requests.Keys - gone);
    hide Used, Named, PutR, OwnR;
    var other := s.files - SweptBy(s, gone);
    forall f ensures f in left.files <==> f in other {
    }
    assert left.files.Keys == other.Keys;
  }

  // ---- The restores ----

  /** The collection one import gives back. */
  function GivenC(s: Snapshot, p: Payload, asNew: bool): set<string> {
    if Replaces(s, p, asNew) then {p.collection.meta.id} else {}
  }

  /** The folders of the collection it replaced, and those it took that have a collection to come back to. */
  function GivenF(s: Snapshot, p: Payload, asNew: bool): set<string> {
    (if Replaces(s, p, asNew) then FoldersOf(s, p.collection.meta.id) else {})
    + HomedFolders(s, s.collections.Keys, TakenFolders(s, p, asNew))
  }

  function GivenR(s: Snapshot, p: Payload, asNew: bool): set<string> {
    (if Replaces(s, p, asNew) then RequestsOf(s, p.collection.meta.id) else {})
    + HomedRequests(s, s.collections.Keys, TakenRequests(s, p, asNew))
  }

  function GivenFiles(s: Snapshot, p: Payload, asNew: bool): set<string> {
    var taken := TakenRequests(s, p, asNew);
    (if Replaces(s, p, asNew) then NamedFiles(s, RequestsOf(s, p.collection.meta.id)) else {})
    + (if HomedRequests(s, s.collections.Keys, taken) != {} then NamedFiles(s, taken) else {})
  }

  /** What the stores lack still, once what one import handed over is restored. */
  function Given(s: Snapshot, lack: Lack, p: Payload, asNew: bool): Lack {
    Lack(lack.cs - GivenC(s, p, asNew), lack.fs - GivenF(s, p, asNew), lack.rs - GivenR(s, p, asNew),
      lack.files - GivenFiles(s, p, asNew))
  }

  /** The same after the first of the two restores, which is for what the import replaced. */
  function ReplacedGiven(s: Snapshot, lack: Lack, p: Payload, asNew: bool): Lack {
    var id := p.collection.meta.id;
    if !Replaces(s, p, asNew) then lack
    else Lack(lack.cs - {id}, lack.fs - FoldersOf(s, id), lack.rs - RequestsOf(s, id),
      lack.files - NamedFiles(s, RequestsOf(s, id)))
  }

  /** And after the second, which is for what it took. */
  function TakenGiven(s: Snapshot, lack: Lack, p: Payload, asNew: bool): Lack {
    var (homes, taken) := (s.collections.Keys, TakenRequests(s, p, asNew));
    Lack(lack.cs,
      lack.fs - HomedFolders(s, homes, TakenFolders(s, p, asNew)),
      lack.rs - HomedRequests(s, homes, taken),
      if HomedRequests(s, homes, taken) != {} then lack.files - NamedFiles(s, taken) else lack.files)
  }

  lemma {:induction false} GivenInTwo(s: Snapshot, lack: Lack, p: Payload, asNew: bool)
    ensures TakenGiven(s, ReplacedGiven(s, lack, p, asNew), p, asNew) == Given(s, lack, p, asNew)
  {
    hide FoldersOf, RequestsOf, NamedFiles, TakenFolders, TakenRequests, HomedFolders, HomedRequests;
  }

  /** What the stores lack after the deletes, and after the restores for the first of the imports. */
  function Left(s: Snapshot, ps: seq<Payload>, back: seq<Payload>, asNew: bool): Lack {
    if back == [] then
      Lack(CollectionIds(ps), PutF(ps) + OwnF(s, ps), PutR(ps) + OwnR(s, ps), SweptBy(s, PutR(ps) + OwnR(s, ps)))
    else Given(s, Left(s, ps, back[..|back| - 1], asNew), back[|back| - 1], asNew)
  }

  /** What the import takes is not in one of these collections. */
  predicate TakesBeyond(s: Snapshot, p: Payload, asNew: bool, ids: set<string>) {
    && (forall k :: k in TakenFolders(s, p, asNew) && k in s.folders ==> s.folders[k].collectionId !in ids)
    && (forall k :: k in TakenRequests(s, p, asNew) && k in s.requests ==> s.requests[k].collectionId !in ids)
  }

  lemma {:induction false} OwnAreHomed(s: Snapshot, homes: set<string>, id: string)
    requires id in homes
    ensures HomedFolders(s, homes, FoldersOf(s, id)) == FoldersOf(s, id)
    ensures HomedRequests(s, homes, RequestsOf(s, id)) == RequestsOf(s, id)
    ensures RequestsOf(s, id) == {} ==> NamedFiles(s, RequestsOf(s, id)) == {}
  {
  }

  lemma {:induction false} ReplacedBack(s: Snapshot, lack: Lack, p: Payload, asNew: bool, removed: Removed)
    requires Keyed(s) && Replaces(s, p, asNew)
    requires var id := p.collection.meta.id; Captures(removed, s, {id}, FoldersOf(s, id), RequestsOf(s, id))
    ensures PutBack(Apply(s, lack), removed) == Apply(s, ReplacedGiven(s, lack, p, asNew))
  {
    var id := p.collection.meta.id;
    var (fs, rs) := (FoldersOf(s, id), RequestsOf(s, id));
    hide PutBack, Captures, Keyed, HomedFolders, HomedRequests, NamedFiles, FoldersOf, RequestsOf, Lacking;
    OwnAreHomed(s, s.collections.Keys - (lack.cs - {id}), id);
    PutBackLacking(s, lack.cs, lack.fs, lack.rs, lack.files, removed, {id}, fs, rs);
    assert rs == {} ==> lack.files - NamedFiles(s, rs) == lack.files;
  }

  lemma {:induction false} TakenAreHomed(s: Snapshot, p: Payload, asNew: bool, ids: set<string>)
    requires TakesBeyond(s, p, asNew, ids)
    ensures var (homes, fs, rs) := (s.collections.Keys, TakenFolders(s, p, asNew), TakenRequests(s, p, asNew));
            && HomedFolders(s, homes - ids, fs) == HomedFolders(s, homes, fs)
            && HomedRequests(s, homes - ids, rs) == HomedRequests(s, homes, rs)
  {
    hide TakenFolders, TakenRequests;
  }

  lemma {:induction false} TakenBack(s: Snapshot, lack: Lack, p: Payload, asNew: bool, removed: Removed)
    requires Keyed(s) && TakesBeyond(s, p, asNew, lack.cs)
    requires Captures(removed, s, {}, TakenFolders(s, p, asNew), TakenRequests(s, p, asNew))
    ensures PutBack(Apply(s, lack), removed) == Apply(s, TakenGiven(s, lack, p, asNew))
  {
    var (fs, rs) := (TakenFolders(s, p, asNew), TakenRequests(s, p, asNew));
    TakenAreHomed(s, p, asNew, lack.cs);
    hide PutBack, Captures, Keyed, HomedFolders, HomedRequests, NamedFiles, TakenFolders, TakenRequests, Lacking,
      TakesBeyond;
    PutBackLacking(s, lack.cs, lack.fs, lack.rs, lack.files, removed, {}, fs, rs);
    assert lack.cs - {} == lack.cs;
  }

  lemma {:induction false} NothingTakenBack(s: Snapshot, lack: Lack, p: Payload, asNew: bool)
    requires !Takes(s, p, asNew)
    ensures TakenGiven(s, lack, p, asNew) == lack
  {
    hide TakenFolders, TakenRequests;
    assert lack.fs - {} == lack.fs && lack.rs - {} == lack.rs;
  }

  /** The part of the restores that is for one import. */
  lemma {:induction false} OneRestored(s: Snapshot, lack: Lack, p: Payload, asNew: bool, handed: seq<Removed>)
    requires Keyed(s) && HandedOf(handed, s, p, asNew) && TakesBeyond(s, p, asNew, lack.cs)
    ensures PutBackAll(Apply(s, lack), handed) == Apply(s, Given(s, lack, p, asNew))
  {
    var (start, mid) := (Apply(s, lack), ReplacedGiven(s, lack, p, asNew));
    assert mid.cs <= lack.cs;
    GivenInTwo(s, lack, p, asNew);
    hide PutBack, Captures, Keyed, FoldersOf, RequestsOf, TakenFolders, TakenRequests, Apply, Given, TakenGiven;
    var first := if Replaces(s, p, asNew) then 1 else 0;
    assert PutBackAll(start, []) == start;
    assert first == 1 ==> handed[..1] == [handed[0]] && [handed[0]][..0] == [];
    assert first == 0 ==> handed[..first] == [];
    if Replaces(s, p, asNew) {
      ReplacedBack(s, lack, p, asNew, handed[0]);
    }
    assert PutBackAll(start, handed[..first]) == Apply(s, mid);
    if Takes(s, p, asNew) {
      assert handed[..|handed| - 1] == handed[..first];
      TakenBack(s, mid, p, asNew, handed[first]);
    } else {
      assert handed[..first] == handed;
      NothingTakenBack(s, mid, p, asNew);
    }
  }

  lemma {:induction false} PutBackConcat(s: Snapshot, a: seq<Removed>, b: seq<Removed>)
    ensures PutBackAll(s, a + b) == PutBackAll(PutBackAll(s, a), b)
  {
    hide PutBack;
    if b == [] {
      assert a + b == a;
    } else {
      PutBackConcat(s, a, b[..|b| - 1]);
      assert (a + b)[..|a + b| - 1] == a + b[..|b| - 1];
    }
  }

  lemma {:induction false} HandedAt(s: Snapshot, ps: seq<Payload>, parts: seq<seq<Removed>>, m: nat, asNew: bool)
    requires HandedAll(parts, s, ps, asNew) && m < |ps|
    ensures Handed(parts[m], ImportedAll(s, ps[..m], asNew), ps[m], asNew)
    ensures Concat(parts[..m + 1]) == Concat(parts[..m]) + parts[m]
  {
    hide Handed, ImportedAll;
    assert parts[..m + 1][..m] == parts[..m];
  }

  lemma {:induction false} LackShrinks(s: Snapshot, ps: seq<Payload>, back: seq<Payload>, asNew: bool)
    ensures Left(s, ps, back, asNew).cs <= CollectionIds(ps)
  {
    hide GivenC, GivenF, GivenR, GivenFiles;
    if back != [] {
      LackShrinks(s, ps, back[..|back| - 1], asNew);
    }
  }

  lemma {:induction false} HandedOfEach(s: Snapshot, ps: seq<Payload>, m: nat, asNew: bool, handed: seq<Removed>)
    requires Apart(s, ps) && m < |ps| && Handed(handed, ImportedAll(s, ps[..m], asNew), ps[m], asNew)
    ensures HandedOf(handed, s, ps[m], asNew) && TakesBeyond(s, ps[m], asNew, CollectionIds(ps))
  {
    hide ImportedAll, Handed, HandedOf, Apart, Beside;
    ApartAreBeside(s, ps, m);
    NextHanded(s, ps[..m], ps[m], asNew, handed);
    TakenElsewhere(s, ps, ps[m], asNew);
  }

  lemma {:induction false} RestoredNext(s: Snapshot, ps: seq<Payload>, m: nat, asNew: bool, handed: seq<Removed>)
    requires Keyed(s) && Apart(s, ps) && m < |ps| && Handed(handed, ImportedAll(s, ps[..m], asNew), ps[m], asNew)
    ensures PutBackAll(Apply(s, Left(s, ps, ps[..m], asNew)), handed) == Apply(s, Left(s, ps, ps[..m + 1], asNew))
  {
    hide PutBackAll, ImportedAll, Handed, HandedOf, Apart, Keyed, Left, Given, Apply;
    HandedOfEach(s, ps, m, asNew, handed);
    LackShrinks(s, ps, ps[..m], asNew);
    LeftNext(s, ps, m, asNew);
    OneRestored(s, Left(s, ps, ps[..m], asNew), ps[m], asNew, handed);
  }

  lemma {:induction false} LeftNext(s: Snapshot, ps: seq<Payload>, m: nat, asNew: bool)
    requires m < |ps|
    ensures Left(s, ps, ps[..m + 1], asNew) == Given(s, Left(s, ps, ps[..m], asNew), ps[m], asNew)
  {
    hide Given, CollectionIds, PutF, PutR, OwnF, OwnR, SweptBy;
    assert ps[..m + 1][..m] == ps[..m];
  }

  lemma {:induction false} RestoredSoFar(s: Snapshot, start: Snapshot, ps: seq<Payload>, parts: seq<seq<Removed>>,
    m: nat, asNew: bool)
    requires m <= |parts| == |ps| && Keyed(s) && Apart(s, ps) && HandedAll(parts, s, ps, asNew)
    requires start == Apply(s, Left(s, ps, [], asNew))
    ensures PutBackAll(start, Concat(parts[..m])) == Apply(s, Left(s, ps, ps[..m], asNew))
    decreases m
  {
    hide ImportedAll, PutBack, Apply, Handed, HandedAll, Apart, Keyed, Left;
    if m == 0 {
      assert ps[..0] == [] && parts[..0] == [];
    } else {
      RestoredSoFar(s, start, ps, parts, m - 1, asNew);
      HandedAt(s, ps, parts, m - 1, asNew);
      hide Concat, PutBackAll;
      RestoredNext(s, ps, m - 1, asNew, parts[m - 1]);
      PutBackConcat(start, Concat(parts[..m - 1]), parts[m - 1]);
    }
  }

  // ---- Who has what ----

  lemma {:induction false} Members(s: Snapshot, ps: seq<Payload>)
    ensures forall id :: id in CollectionIds(ps) <==> exists p :: p in ps && p.collection.meta.id == id
    ensures forall k :: k in PutF(ps) <==> exists p :: p in ps && k in FolderKeys(p)
    ensures forall k :: k in PutR(ps) <==> exists p :: p in ps && k in RequestKeys(p)
  {
    hide FolderKeys, RequestKeys;
    if ps != [] {
      var (front, last) := (ps[..|ps| - 1], ps[|ps| - 1]);
      Members(s, front);
      assert forall p :: p in ps <==> p in front || p == last;
    }
  }

  lemma {:induction false} DistinctIn(s: Snapshot, ps: seq<Payload>, p: Payload, q: Payload)
    requires Apart(s, ps) && p in ps && q in ps && p.collection.meta.id != q.collection.meta.id
    ensures Distinct(s, p, q)
  {
    var i :| 0 <= i < |ps| && ps[i] == p;
    var j :| 0 <= j < |ps| && ps[j] == q;
    assert Distinct(s, ps[if i < j then i else j], ps[if i < j then j else i]);
    hide FolderKeys, RequestKeys, FoldersOf, RequestsOf;
  }

  lemma {:induction false} TakenElsewhere(s: Snapshot, ps: seq<Payload>, p: Payload, asNew: bool)
    requires Apart(s, ps) && p in ps
    ensures TakesBeyond(s, p, asNew, CollectionIds(ps))
  {
    Members(s, ps);
    TakenAre(s, p, asNew);
    hide CollectionIds, PutF, PutR, TakenFolders, TakenRequests, FolderKeys, RequestKeys, Apart;
    forall k | k in TakenFolders(s, p, asNew) && s.folders[k].collectionId in CollectionIds(ps) ensures false {
      var q :| q in ps && q.collection.meta.id == s.folders[k].collectionId;
      assert k in FoldersOf(s, q.collection.meta.id);
      DistinctIn(s, ps, p, q);
    }
    forall k | k in TakenRequests(s, p, asNew) && s.requests[k].collectionId in CollectionIds(ps) ensures false {
      var q :| q in ps && q.collection.meta.id == s.requests[k].collectionId;
      assert k in RequestsOf(s, q.collection.meta.id);
      DistinctIn(s, ps, p, q);
    }
  }

  // ---- Exactly when ----

  /** What one of the imports replaced and took can all come back. */
  ghost predicate ComesBack(s: Snapshot, p: Payload, asNew: bool) {
    && (Replaces(s, p, asNew) || Unused(s, p.collection.meta.id))
    && Homed(s, TakenFolders(s, p, asNew), TakenRequests(s, p, asNew))
  }

  predicate CollectionComesBack(s: Snapshot, p: Payload, asNew: bool) {
    Replaces(s, p, asNew) || p.collection.meta.id !in s.collections
  }

  ghost predicate FoldersComeBack(s: Snapshot, p: Payload, asNew: bool) {
    && (Replaces(s, p, asNew) || FoldersOf(s, p.collection.meta.id) == {})
    && Homed(s, TakenFolders(s, p, asNew), {})
  }

  ghost predicate RequestsComeBack(s: Snapshot, p: Payload, asNew: bool) {
    && (Replaces(s, p, asNew) || RequestsOf(s, p.collection.meta.id) == {})
    && Homed(s, {}, TakenRequests(s, p, asNew))
  }

  ghost predicate PartsComeBack(s: Snapshot, p: Payload, asNew: bool) {
    CollectionComesBack(s, p, asNew) && FoldersComeBack(s, p, asNew) && RequestsComeBack(s, p, asNew)
  }

  /** What is left lacks what the deletes took and no import gives back. */
  lemma {:induction false} LeftIs(s: Snapshot, ps: seq<Payload>, back: seq<Payload>, asNew: bool)
    ensures var left := Left(s, ps, back, asNew);
            && (forall k :: k in left.cs <==>
                 k in CollectionIds(ps) && forall p :: p in back ==> k !in GivenC(s, p, asNew))
            && (forall k :: k in left.fs <==>
                 (k in PutF(ps) || k in OwnF(s, ps)) && forall p :: p in back ==> k !in GivenF(s, p, asNew))
            && (forall k :: k in left.rs <==>
                 (k in PutR(ps) || k in OwnR(s, ps)) && forall p :: p in back ==> k !in GivenR(s, p, asNew))
            && (forall k :: k in left.files <==>
                 k in SweptBy(s, PutR(ps) + OwnR(s, ps)) && forall p :: p in back ==> k !in GivenFiles(s, p, asNew))
  {
    hide GivenC, GivenF, GivenR, GivenFiles, CollectionIds, PutF, PutR, OwnF, OwnR, SweptBy;
    if back != [] {
      var (front, last) := (back[..|back| - 1], back[|back| - 1]);
      LeftIs(s, ps, front, asNew);
      assert forall p :: p in back <==> p in front || p == last;
    }
  }

  lemma {:induction false} CollectionsWhole(s: Snapshot, ps: seq<Payload>, asNew: bool)
    ensures Left(s, ps, ps, asNew).cs !! s.collections.Keys
       <==> forall p :: p in ps ==> CollectionComesBack(s, p, asNew)
  {
    LeftIs(s, ps, ps, asNew);
    Members(s, ps);
    var left := Left(s, ps, ps, asNew).cs;
    hide Left, CollectionIds;
    if left !! s.collections.Keys {
      forall p | p in ps ensures CollectionComesBack(s, p, asNew) {
        if p.collection.meta.id in s.collections {
          assert p.collection.meta.id !in left;
          var q := GivenBySome(s, ps, asNew, p.collection.meta.id);
        }
      }
    }
  }

  /** What the stores do not lack in the end, one of the imports gave back. */
  lemma {:induction false} GivenBySome(s: Snapshot, ps: seq<Payload>, asNew: bool, id: string) returns (q: Payload)
    requires id in CollectionIds(ps) && id !in Left(s, ps, ps, asNew).cs
    ensures q in ps && id in GivenC(s, q, asNew)
  {
    LeftIs(s, ps, ps, asNew);
    hide Left, CollectionIds, GivenC;
    q :| q in ps && id in GivenC(s, q, asNew);
  }

  /** What the stores hold in an imported collection comes back, if at all, with that collection. */
  lemma {:induction false} OwnComesWith(s: Snapshot, ps: seq<Payload>, p: Payload, q: Payload, asNew: bool, k: string)
    requires Apart(s, ps) && p in ps && q in ps
    ensures k in FoldersOf(s, p.collection.meta.id) && k in GivenF(s, q, asNew) ==> Replaces(s, p, asNew)
    ensures k in RequestsOf(s, p.collection.meta.id) && k in GivenR(s, q, asNew) ==> Replaces(s, p, asNew)
  {
    TakenAre(s, q, asNew);
    hide Apart, TakenFolders, TakenRequests, FolderKeys, RequestKeys;
    if p.collection.meta.id != q.collection.meta.id {
      DistinctIn(s, ps, p, q);
    }
  }

  /** What was taken from another collection comes back, if at all, because that collection is there. */
  lemma {:induction false} TakenComesWith(s: Snapshot, ps: seq<Payload>, p: Payload, q: Payload, asNew: bool, k: string)
    requires Apart(s, ps) && p in ps && q in ps
    ensures k in TakenFolders(s, p, asNew) && k in GivenF(s, q, asNew) ==> s.folders[k].collectionId in s.collections
    ensures k in TakenRequests(s, p, asNew) && k in GivenR(s, q, asNew) ==> s.requests[k].collectionId in s.collections
  {
    TakenAre(s, p, asNew);
    hide Apart, TakenFolders, TakenRequests, FolderKeys, RequestKeys;
    if p.collection.meta.id != q.collection.meta.id {
      DistinctIn(s, ps, p, q);
    }
  }

  lemma {:induction false} FoldersAllBack(s: Snapshot, ps: seq<Payload>, asNew: bool)
    requires forall p :: p in ps ==> FoldersComeBack(s, p, asNew)
    ensures Left(s, ps, ps, asNew).fs !! s.folders.Keys
  {
    LeftIs(s, ps, ps, asNew);
    Members(s, ps);
    OwnIsOf(s, ps);
    hide Left, CollectionIds, PutF, OwnF, FolderKeys, TakenFolders;
    forall k | k in s.folders && (k in PutF(ps) || k in OwnF(s, ps))
      ensures exists p :: p in ps && k in GivenF(s, p, asNew)
    {
      if k in OwnF(s, ps) {
        var p :| p in ps && p.collection.meta.id == s.folders[k].collectionId;
        assert k in FoldersOf(s, p.collection.meta.id);
        assert k in GivenF(s, p, asNew);
      } else {
        var p :| p in ps && k in FolderKeys(p);
        TakenAre(s, p, asNew);
        assert k in GivenF(s, p, asNew);
      }
    }
  }

  lemma {:induction false} AllFoldersBack(s: Snapshot, ps: seq<Payload>, asNew: bool)
    requires Apart(s, ps) && Left(s, ps, ps, asNew).fs !! s.folders.Keys
    ensures forall p :: p in ps ==> FoldersComeBack(s, p, asNew)
  {
    LeftIs(s, ps, ps, asNew);
    Members(s, ps);
    OwnIsOf(s, ps);
    hide Left, CollectionIds, PutF, OwnF, FolderKeys, TakenFolders, GivenF, Apart;
    forall p | p in ps ensures FoldersComeBack(s, p, asNew) {
      TakenAre(s, p, asNew);
      if k :| k in FoldersOf(s, p.collection.meta.id) {
        var q :| q in ps && k in GivenF(s, q, asNew);
        OwnComesWith(s, ps, p, q, asNew, k);
      }
      forall k | k in TakenFolders(s, p, asNew) && k in s.folders ensures s.folders[k].collectionId in s.collections {
        var q :| q in ps && k in GivenF(s, q, asNew);
        TakenComesWith(s, ps, p, q, asNew, k);
      }
    }
  }

  lemma {:induction false} RequestsAllBack(s: Snapshot, ps: seq<Payload>, asNew: bool)
    requires forall p :: p in ps ==> RequestsComeBack(s, p, asNew)
    ensures Left(s, ps, ps, asNew).rs !! s.requests.Keys
  {
    LeftIs(s, ps, ps, asNew);
    Members(s, ps);
    OwnIsOf(s, ps);
    hide Left, CollectionIds, PutR, OwnR, RequestKeys, TakenRequests;
    forall k | k in s.requests && (k in PutR(ps) || k in OwnR(s, ps))
      ensures exists p :: p in ps && k in GivenR(s, p, asNew)
    {
      if k in OwnR(s, ps) {
        var p :| p in ps && p.collection.meta.id == s.requests[k].collectionId;
        assert k in RequestsOf(s, p.collection.meta.id);
        assert k in GivenR(s, p, asNew);
      } else {
        var p :| p in ps && k in RequestKeys(p);
        TakenAre(s, p, asNew);
        assert k in GivenR(s, p, asNew);
      }
    }
  }

  lemma {:induction false} AllRequestsBack(s: Snapshot, ps: seq<Payload>, asNew: bool)
    requires Apart(s, ps) && Left(s, ps, ps, asNew).rs !! s.requests.Keys
    ensures forall p :: p in ps ==> RequestsComeBack(s, p, asNew)
  {
    LeftIs(s, ps, ps, asNew);
    Members(s, ps);
    OwnIsOf(s, ps);
    hide Left, CollectionIds, PutR, OwnR, RequestKeys, TakenRequests, GivenR, Apart;
    forall p | p in ps ensures RequestsComeBack(s, p, asNew) {
      TakenAre(s, p, asNew);
      if k :| k in RequestsOf(s, p.collection.meta.id) {
        var q :| q in ps && k in GivenR(s, q, asNew);
        OwnComesWith(s, ps, p, q, asNew, k);
      }
      forall k | k in TakenRequests(s, p, asNew) && k in s.requests
        ensures s.requests[k].collectionId in s.collections
      {
        var q :| q in ps && k in GivenR(s, q, asNew);
        TakenComesWith(s, ps, p, q, asNew, k);
      }
    }
  }

  /** When the requests all come back, the files that went with them do. */
  lemma {:induction false} FileIsGiven(s: Snapshot, ps: seq<Payload>, asNew: bool, f: string)
    requires forall p :: p in ps ==> RequestsComeBack(s, p, asNew)
    requires f in NamedFiles(s, PutR(ps) + OwnR(s, ps))
    ensures exists p :: p in ps && f in GivenFiles(s, p, asNew)
  {
    var k :| (k in PutR(ps) || k in OwnR(s, ps)) && k in s.requests && f in FileIdsOf(s.requests[k].body);
    Members(s, ps);
    OwnIsOf(s, ps);
    hide CollectionIds, PutR, OwnR, RequestKeys, FileIdsOf, GivenFiles, RequestsComeBack;
    if k in OwnR(s, ps) {
      var p :| p in ps && p.collection.meta.id == s.requests[k].collectionId;
      NamedIsGiven(s, p, asNew, k, f);
    } else {
      var p :| p in ps && k in RequestKeys(p);
      NamedIsGiven(s, p, asNew, k, f);
    }
  }

  lemma {:induction false} NamedIsGiven(s: Snapshot, p: Payload, asNew: bool, k: string, f: string)
    requires RequestsComeBack(s, p, asNew) && k in s.requests && f in FileIdsOf(s.requests[k].body) && f in s.files
    requires k in RequestKeys(p) || s.requests[k].collectionId == p.collection.meta.id
    ensures f in GivenFiles(s, p, asNew)
  {
    TakenAre(s, p, asNew);
    hide RequestKeys, TakenRequests, FileIdsOf;
    if s.requests[k].collectionId == p.collection.meta.id {
      assert k in RequestsOf(s, p.collection.meta.id);
    } else {
      assert k in HomedRequests(s, s.collections.Keys, TakenRequests(s, p, asNew));
    }
  }

  lemma {:induction false} GivenIsNamed(s: Snapshot, ps: seq<Payload>, p: Payload, asNew: bool)
    requires p in ps
    ensures GivenFiles(s, p, asNew) <= NamedFiles(s, PutR(ps) + OwnR(s, ps))
  {
    Members(s, ps);
    OwnIsOf(s, ps);
    TakenAre(s, p, asNew);
    var (own, taken, gone) := (RequestsOf(s, p.collection.meta.id), TakenRequests(s, p, asNew), PutR(ps) + OwnR(s, ps));
    assert own <= gone && taken <= gone by {
      hide CollectionIds, PutR, OwnR, RequestKeys, TakenRequests;
    }
    MoreNamed(s, own, gone);
    MoreNamed(s, taken, gone);
    hide NamedFiles, RequestsOf, TakenRequests, HomedRequests, CollectionIds, PutR, OwnR, RequestKeys;
  }

  lemma {:induction false} MoreNamed(s: Snapshot, fewer: set<string>, more: set<string>)
    requires fewer <= more
    ensures NamedFiles(s, fewer) <= NamedFiles(s, more)
  {
  }

  lemma {:induction false} FilesAllBack(s: Snapshot, ps: seq<Payload>, asNew: bool)
    requires forall p :: p in ps ==> RequestsComeBack(s, p, asNew)
    ensures Left(s, ps, ps, asNew).files !! s.files.Keys <==> NoOrphan(s)
  {
    LeftIs(s, ps, ps, asNew);
    var (gone, left) := (PutR(ps) + OwnR(s, ps), Left(s, ps, ps, asNew).files);
    FilesComeBack(s, gone);
    hide Left, PutR, OwnR, NamedFiles, SweptBy, NoOrphan, GivenFiles, RequestsComeBack;
    forall f | f in NamedFiles(s, gone) ensures exists p :: p in ps && f in GivenFiles(s, p, asNew) {
      FileIsGiven(s, ps, asNew, f);
    }
    forall p | p in ps ensures GivenFiles(s, p, asNew) <= NamedFiles(s, gone) {
      GivenIsNamed(s, ps, p, asNew);
    }
    assert left == SweptBy(s, gone) - NamedFiles(s, gone);
  }

  lemma {:induction false} ComesBackParts(s: Snapshot, p: Payload, asNew: bool)
    ensures ComesBack(s, p, asNew) <==> PartsComeBack(s, p, asNew)
  {
    HomedBoth(s, TakenFolders(s, p, asNew), TakenRequests(s, p, asNew));
    hide Homed, TakenFolders, TakenRequests;
  }

  lemma {:induction false} AllBack(s: Snapshot, ps: seq<Payload>, asNew: bool)
    requires Apart(s, ps)
    ensures Apply(s, Left(s, ps, ps, asNew)) == s <==> NoOrphan(s) && forall p :: p in ps ==> ComesBack(s, p, asNew)
  {
    var left := Left(s, ps, ps, asNew);
    hide Left, Apart, FoldersComeBack, RequestsComeBack, CollectionComesBack, ComesBack, NoOrphan;
    forall p ensures ComesBack(s, p, asNew) <==> PartsComeBack(s, p, asNew) {
      ComesBackParts(s, p, asNew);
    }
    LackingNothing(s, left.cs, left.fs, left.rs, left.files);
    hide Lacking;
    CollectionsWhole(s, ps, asNew);
    if left.rs !! s.requests.Keys {
      AllRequestsBack(s, ps, asNew);
      FilesAllBack(s, ps, asNew);
    }
    if left.fs !! s.folders.Keys {
      AllFoldersBack(s, ps, asNew);
    }
    if forall p :: p in ps ==> ComesBack(s, p, asNew) {
      FoldersAllBack(s, ps, asNew);
      RequestsAllBack(s, ps, asNew);
    }
  }

  lemma {:induction false} NothingRestored(s: Snapshot, ps: seq<Payload>, asNew: bool)
    requires ps != []
    ensures DeletedAll(ImportedAll(s, ps, asNew), IdsOf(ps)) == Apply(s, Left(s, ps, [], asNew))
  {
    ImportedAndDeleted(s, ps, asNew);
  }

  /**
   * The Undo of an import of any number of collections that do not meet gives the stores as they were, exactly when
   * every file was named by a request, each import replaced a collection or its id was in no use, and what each took
   * from other collections has them to come back to.
   */
  lemma {:induction false} UndoOfMany(s: Snapshot, ps: seq<Payload>, asNew: bool, parts: seq<seq<Removed>>)
    requires Keyed(s) && Apart(s, ps) && HandedAll(parts, s, ps, asNew)
    ensures UndoneAll(ImportedAll(s, ps, asNew), IdsOf(ps), Concat(parts)) == s
       <==> ps == [] || (NoOrphan(s) && forall p :: p in ps ==> ComesBack(s, p, asNew))
  {
    hide ComesBack, NoOrphan, Apart, Keyed, Left, Apply, Handed, Imported, DeletedCollection, PutBack;
    if ps != [] {
      NothingRestored(s, ps, asNew);
      RestoredSoFar(s, Apply(s, Left(s, ps, [], asNew)), ps, parts, |ps|, asNew);
      assert ps[..|ps|] == ps && parts[..|ps|] == parts;
      AllBack(s, ps, asNew);
    }
  }

  /** What is confirmed is one collection under any ids, or several whose ids are all new. */
  predicate Received(s: Snapshot, ps: seq<Payload>) {
    |ps| <= 1 || AllNew(s, ps)
  }

  /** The Undo of everything that can be confirmed, and exactly when it is exact. */
  lemma {:induction false} UndoOfReceived(s: Snapshot, ps: seq<Payload>, asNew: bool, parts: seq<seq<Removed>>)
    requires Keyed(s) && Received(s, ps) && HandedAll(parts, s, ps, asNew)
    ensures UndoneAll(ImportedAll(s, ps, asNew), IdsOf(ps), Concat(parts)) == s
       <==> ps == [] || (NoOrphan(s) && forall p :: p in ps ==> ComesBack(s, p, asNew))
    ensures |ps| > 1 ==>
      (UndoneAll(ImportedAll(s, ps, asNew), IdsOf(ps), Concat(parts)) == s <==> NoOrphan(s))
  {
    if AllNew(s, ps) {
      NewAreApart(s, ps);
      forall p | p in ps ensures ComesBack(s, p, asNew) {
        NewComesBack(s, p, asNew);
      }
    }
    hide AllNew, Distinct, ComesBack, HandedAll, Keyed, NoOrphan, ImportedAll, UndoneAll, Concat;
    UndoOfMany(s, ps, asNew, parts);
  }

  /** New ids replace nothing and take nothing. */
  lemma {:induction false} NewComesBack(s: Snapshot, p: Payload, asNew: bool)
    requires Unused(s, p.collection.meta.id) && FolderKeys(p) !! s.folders.Keys && RequestKeys(p) !! s.requests.Keys
    ensures ComesBack(s, p, asNew)
  {
    TakenAre(s, p, asNew);
    hide TakenFolders, TakenRequests, FolderKeys, RequestKeys, FoldersOf, RequestsOf;
  }
}
