/** The Undo of an import of one collection gives back the stores as they were, and exactly when. */
module ImportUndo {
  import opened Stores
  import opened StoreUndo

  // ---- What an import puts ----

  lemma {:induction false} PutAllWhere<D>(store: map<string, D>, entries: seq<(string, D)>, p: D -> bool)
    requires forall e :: e in entries ==> p(e.1)
    ensures forall k :: k in PutAll(store, entries) <==> k in store || k in KeysOf(entries)
    ensures forall k :: k in KeysOf(entries) ==> p(PutAll(store, entries)[k])
    ensures forall k :: k in store && k !in KeysOf(entries) ==> PutAll(store, entries)[k] == store[k]
  {
    if entries != [] {
      var (front, last) := (entries[..|entries| - 1], entries[|entries| - 1]);
      assert forall e :: e in entries <==> e in front || e == last;
      PutAllWhere(store, front, p);
      assert KeysOf(entries) == KeysOf(front) + {last.0};
    }
  }

  lemma {:induction false} KeysOfOneMore<D>(entries: seq<(string, D)>, last: (string, D))
    ensures KeysOf(entries + [last]) == KeysOf(entries) + {last.0}
    ensures forall e :: e in entries + [last] <==> e in entries || e == last
  {
  }

  lemma {:induction false} ImportedFoldersAre(p: Payload, n: nat)
    requires n <= |p.folders|
    ensures forall e :: e in ImportedFolders(p, n) ==> e.1.collectionId == p.collection.meta.id && e.1.meta.id == e.0
    ensures forall k :: k in KeysOf(ImportedFolders(p, n)) <==> exists f :: f in p.folders[..n] && f.meta.id == k
  {
    if n > 0 {
      ImportedFoldersAre(p, n - 1);
      var f := p.folders[n - 1];
      KeysOfOneMore(ImportedFolders(p, n - 1), (f.meta.id, FolderInto(f, p.collection.meta.id)));
      assert p.folders[..n] == p.folders[..n - 1] + [f];
      assert f in p.folders[..n] && forall g :: g in p.folders[..n - 1] ==> g in p.folders[..n];
    }
  }

  lemma {:induction false} ImportedRequestsAre(p: Payload, n: nat)
    requires n <= |p.requests|
    ensures forall e :: e in ImportedRequests(p, n) ==> e.1.collectionId == p.collection.meta.id && e.1.meta.id == e.0
    ensures forall k :: k in KeysOf(ImportedRequests(p, n)) <==> exists r :: r in p.requests[..n] && r.meta.id == k
  {
    hide HasFolder;
    if n > 0 {
      ImportedRequestsAre(p, n - 1);
      var r := p.requests[n - 1];
      KeysOfOneMore(ImportedRequests(p, n - 1), (r.meta.id, RequestInto(r, p.collection.meta.id, p.folders)));
      assert p.requests[..n] == p.requests[..n - 1] + [r];
      assert r in p.requests[..n] && forall q :: q in p.requests[..n - 1] ==> q in p.requests[..n];
    }
  }

  /** Where each folder of the stores comes from after an import. */
  lemma {:induction false} FoldersAfter(s: Snapshot, p: Payload, asNew: bool)
    ensures var id := p.collection.meta.id;
            var (was, now) := (Cleared(s, id, asNew).folders, Imported(s, p, asNew).folders);
            && (forall k :: k in now <==> k in was || k in FolderKeys(p))
            && (forall k :: k in FolderKeys(p) ==> now[k].collectionId == id && now[k].meta.id == k)
            && (forall k :: k in was && k !in FolderKeys(p) ==> now[k] == was[k])
  {
    var id := p.collection.meta.id;
    var entries := ImportedFolders(p, |p.folders|);
    ImportedFoldersAre(p, |p.folders|);
    assert p.folders[..|p.folders|] == p.folders;
    assert KeysOf(entries) == FolderKeys(p);
    PutAllWhere(Cleared(s, id, asNew).folders, entries, (f: Folder) => f.collectionId == id);
    PutAllKeyed(Cleared(s, id, asNew).folders, entries);
  }

  lemma {:induction false} RequestsAfter(s: Snapshot, p: Payload, asNew: bool)
    ensures var id := p.collection.meta.id;
            var (was, now) := (Cleared(s, id, asNew).requests, Imported(s, p, asNew).requests);
            && (forall k :: k in now <==> k in was || k in RequestKeys(p))
            && (forall k :: k in RequestKeys(p) ==> now[k].collectionId == id && now[k].meta.id == k)
            && (forall k :: k in was && k !in RequestKeys(p) ==> now[k] == was[k])
  {
    var id := p.collection.meta.id;
    var entries := ImportedRequests(p, |p.requests|);
    ImportedRequestsAre(p, |p.requests|);
    assert p.requests[..|p.requests|] == p.requests;
    assert KeysOf(entries) == RequestKeys(p);
    PutAllWhere(Cleared(s, id, asNew).requests, entries, (r: Request) => r.collectionId == id);
    PutAllKeyedRequests(Cleared(s, id, asNew).requests, entries);
  }

  lemma {:induction false} PutAllKeyed(store: map<string, Folder>, entries: seq<(string, Folder)>)
    requires forall e :: e in entries ==> e.1.meta.id == e.0
    ensures forall k :: k in KeysOf(entries) ==> k in PutAll(store, entries) && PutAll(store, entries)[k].meta.id == k
  {
    if entries != [] {
      var (front, last) := (entries[..|entries| - 1], entries[|entries| - 1]);
      assert forall e :: e in entries <==> e in front || e == last;
      PutAllKeyed(store, front);
      assert KeysOf(entries) == KeysOf(front) + {last.0};
    }
  }

  lemma {:induction false} PutAllKeyedRequests(store: map<string, Request>, entries: seq<(string, Request)>)
    requires forall e :: e in entries ==> e.1.meta.id == e.0
    ensures forall k :: k in KeysOf(entries) ==> k in PutAll(store, entries) && PutAll(store, entries)[k].meta.id == k
  {
    if entries != [] {
      var (front, last) := (entries[..|entries| - 1], entries[|entries| - 1]);
      assert forall e :: e in entries <==> e in front || e == last;
      PutAllKeyedRequests(store, front);
      assert KeysOf(entries) == KeysOf(front) + {last.0};
    }
  }

  // ---- The delete an Undo begins with ----

  /** The folders the import and the delete after it take out of the stores. */
  function GoneFolders(s: Snapshot, p: Payload): set<string> {
    FoldersOf(s, p.collection.meta.id) + FolderKeys(p)
  }

  function GoneRequests(s: Snapshot, p: Payload): set<string> {
    RequestsOf(s, p.collection.meta.id) + RequestKeys(p)
  }

  /** Deleting what was imported leaves what the stores held, but for what the import replaced and took. */
  lemma {:induction false} ImportedThenDeleted(s: Snapshot, p: Payload, asNew: bool)
    ensures DeletedCollection(Imported(s, p, asNew), p.collection.meta.id)
         == TakeOut(s, {p.collection.meta.id}, GoneFolders(s, p), GoneRequests(s, p))
  {
    var id := p.collection.meta.id;
    var now := Imported(s, p, asNew);
    var (fs, rs) := (FoldersOf(now, id), RequestsOf(now, id));
    FoldersLeft(s, p, asNew);
    RequestsLeft(s, p, asNew);
    assert now.files == map f | f in s.files && f in Used(now) :: s.files[f];
    assert now.collections - {id} == s.collections - {id};
    hide Imported, Used, GoneFolders, GoneRequests;
    SweptTwice(s, now, id, fs, rs, GoneFolders(s, p), GoneRequests(s, p));
  }

  lemma {:induction false} FoldersLeft(s: Snapshot, p: Payload, asNew: bool)
    ensures var now := Imported(s, p, asNew);
            now.folders - FoldersOf(now, p.collection.meta.id) == s.folders - GoneFolders(s, p)
  {
    var (id, now) := (p.collection.meta.id, Imported(s, p, asNew));
    FoldersAfter(s, p, asNew);
    hide Imported, FolderKeys;
    var (left, other) := (now.folders - FoldersOf(now, id), s.folders - GoneFolders(s, p));
    var was := Cleared(s, id, asNew).folders;
    forall k ensures k in left <==> k in other {
      assert k in left <==> k in now.folders && now.folders[k].collectionId != id;
      assert k in now.folders <==> k in was || k in FolderKeys(p);
      assert k in was && k in FolderKeys(p) ==> k in s.folders;
    }
    assert left.Keys == other.Keys;
  }

  lemma {:induction false} RequestsLeft(s: Snapshot, p: Payload, asNew: bool)
    ensures var now := Imported(s, p, asNew);
            now.requests - RequestsOf(now, p.collection.meta.id) == s.requests - GoneRequests(s, p)
  {
    var (id, now) := (p.collection.meta.id, Imported(s, p, asNew));
    RequestsAfter(s, p, asNew);
    hide Imported, RequestKeys;
    var (left, other) := (now.requests - RequestsOf(now, id), s.requests - GoneRequests(s, p));
    var was := Cleared(s, id, asNew).requests;
    forall k ensures k in left <==> k in other {
      assert k in left <==> k in now.requests && now.requests[k].collectionId != id;
      assert k in now.requests <==> k in was || k in RequestKeys(p);
      assert k in was && k in RequestKeys(p) ==> k in s.requests;
    }
    assert left.Keys == other.Keys;
  }

  lemma {:induction false} SweptTwice(s: Snapshot, now: Snapshot, id: string,
    fs: set<string>, rs: set<string>, goneFolders: set<string>, goneRequests: set<string>)
    requires now.files == map f | f in s.files && f in Used(now) :: s.files[f]
    requires now.collections - {id} == s.collections - {id}
    requires now.folders - fs == s.folders - goneFolders
    requires now.requests - rs == s.requests - goneRequests
    ensures TakeOut(now, {id}, fs, rs) == TakeOut(s, {id}, goneFolders, goneRequests)
  {
    var left := Snapshot(now.collections - {id}, now.folders - fs, now.requests - rs, now.files);
    assert Used(left) <= Used(now) by {
      assert forall k :: k in left.requests ==> k in now.requests && left.requests[k] == now.requests[k];
    }
  }

  // ---- The restores after it ----

  predicate Unused(s: Snapshot, id: string) {
    id !in s.collections && FoldersOf(s, id) == {} && RequestsOf(s, id) == {}
  }

  /** What was taken is taken from the stores as they were. */
  lemma {:induction false} TakenAsItWas(s: Snapshot, p: Payload, asNew: bool, removed: Removed)
    requires var cleared := Cleared(s, p.collection.meta.id, asNew);
             Captures(removed, cleared, {}, TakenFolders(s, p, asNew), TakenRequests(s, p, asNew))
    ensures Captures(removed, s, {}, TakenFolders(s, p, asNew), TakenRequests(s, p, asNew))
  {
    var cleared := Cleared(s, p.collection.meta.id, asNew);
    var rs := TakenRequests(s, p, asNew);
    assert Named(cleared.requests, rs) == Named(s.requests, rs);
  }

  /** What the restore of what was replaced leaves out, and then the restore of what was taken. */
  datatype Lack = Lack(cs: set<string>, fs: set<string>, rs: set<string>, files: set<string>)

  function Apply(s: Snapshot, lack: Lack): Snapshot {
    Lacking(s, lack.cs, lack.fs, lack.rs, lack.files)
  }

  function AfterReplaced(s: Snapshot, p: Payload, asNew: bool): Lack {
    var id := p.collection.meta.id;
    var (fs, rs) := (GoneFolders(s, p), GoneRequests(s, p));
    var files := SweptBy(s, rs);
    if Replaces(s, p, asNew) then
      Lack({}, fs - FoldersOf(s, id), rs - RequestsOf(s, id), files - NamedFiles(s, RequestsOf(s, id)))
    else Lack({id}, fs, rs, files)
  }

  function AfterTaken(s: Snapshot, p: Payload, asNew: bool): Lack {
    var (before, homes) := (AfterReplaced(s, p, asNew), s.collections.Keys);
    var (fs, rs) := (TakenFolders(s, p, asNew), TakenRequests(s, p, asNew));
    Lack(before.cs, before.fs - HomedFolders(s, homes, fs), before.rs - HomedRequests(s, homes, rs),
      if HomedRequests(s, homes, rs) != {} then before.files - NamedFiles(s, rs) else before.files)
  }

  lemma {:induction false} ReplacedComesBack(s: Snapshot, p: Payload, asNew: bool, removed: Removed)
    requires Keyed(s) && Replaces(s, p, asNew)
    requires var id := p.collection.meta.id; Captures(removed, s, {id}, FoldersOf(s, id), RequestsOf(s, id))
    ensures PutBack(TakeOut(s, {p.collection.meta.id}, GoneFolders(s, p), GoneRequests(s, p)), removed)
         == Apply(s, AfterReplaced(s, p, asNew))
  {
    var id := p.collection.meta.id;
    var (fs, rs) := (FoldersOf(s, id), RequestsOf(s, id));
    var homes := s.collections.Keys;
    TakeOutLacks(s, {id}, GoneFolders(s, p), GoneRequests(s, p));
    PutBackLacking(s, {id}, GoneFolders(s, p), GoneRequests(s, p), SweptBy(s, GoneRequests(s, p)), removed, {id}, fs,
      rs);
    hide PutBack, TakeOut, Captures, SweptBy, Keyed, GoneFolders, GoneRequests;
    assert homes - ({id} - {id}) == homes && {id} - {id} == {};
    assert HomedFolders(s, homes, fs) == fs && HomedRequests(s, homes, rs) == rs;
    if rs == {} {
      NothingNamed(s, rs);
      hide Named;
      assert forall files :: files - NamedFiles(s, rs) == files;
    }
  }

  lemma {:induction false} TakenComesBack(s: Snapshot, p: Payload, asNew: bool, removed: Removed)
    requires Keyed(s)
    requires Captures(removed, s, {}, TakenFolders(s, p, asNew), TakenRequests(s, p, asNew))
    ensures PutBack(Apply(s, AfterReplaced(s, p, asNew)), removed) == Apply(s, AfterTaken(s, p, asNew))
  {
    var before := AfterReplaced(s, p, asNew);
    assert before.cs <= {p.collection.meta.id};
    hide AfterReplaced;
    var (fs, rs) := (TakenFolders(s, p, asNew), TakenRequests(s, p, asNew));
    PutBackLacking(s, before.cs, before.fs, before.rs, before.files, removed, {}, fs, rs);
    hide PutBack, Captures, Keyed, Lacking, NamedFiles;
    var homes := s.collections.Keys - (before.cs - {});
    assert before.cs - {} == before.cs;
    assert HomedFolders(s, homes, fs) == HomedFolders(s, s.collections.Keys, fs);
    assert HomedRequests(s, homes, rs) == HomedRequests(s, s.collections.Keys, rs);
  }

  lemma {:induction false} NothingTaken(s: Snapshot, p: Payload, asNew: bool)
    requires !Takes(s, p, asNew)
    ensures AfterTaken(s, p, asNew) == AfterReplaced(s, p, asNew)
  {
    hide AfterReplaced, TakenFolders, TakenRequests, NamedFiles;
    assert HomedFolders(s, s.collections.Keys, {}) == {} && HomedRequests(s, s.collections.Keys, {}) == {};
    var before := AfterReplaced(s, p, asNew);
    assert before.fs - {} == before.fs && before.rs - {} == before.rs;
  }

  lemma {:induction false} UndoneIs(s: Snapshot, p: Payload, asNew: bool, all: seq<Removed>)
    requires Keyed(s) && Handed(all, s, p, asNew)
    ensures PutBackAll(DeletedCollection(Imported(s, p, asNew), p.collection.meta.id), all)
         == Apply(s, AfterTaken(s, p, asNew))
  {
    var start := TakeOut(s, {p.collection.meta.id}, GoneFolders(s, p), GoneRequests(s, p));
    ImportedThenDeleted(s, p, asNew);
    TakeOutLacks(s, {p.collection.meta.id}, GoneFolders(s, p), GoneRequests(s, p));
    var first := if Replaces(s, p, asNew) then 1 else 0;
    hide Imported, DeletedCollection, TakeOut, Captures, PutBack, Keyed;
    assert PutBackAll(start, []) == start;
    assert Takes(s, p, asNew) ==> all[..|all| - 1] == all[..first];
    assert first == 1 ==> all[..1] == [all[0]] && [all[0]][..0] == [];
    assert first == 0 ==> all[..first] == [];
    if Replaces(s, p, asNew) {
      ReplacedComesBack(s, p, asNew, all[0]);
    }
    assert PutBackAll(start, all[..first]) == Apply(s, AfterReplaced(s, p, asNew));
    hide AfterReplaced, AfterTaken, Apply;
    if Takes(s, p, asNew) {
      TakenAsItWas(s, p, asNew, all[first]);
      TakenComesBack(s, p, asNew, all[first]);
    } else {
      assert all[..first] == all;
      NothingTaken(s, p, asNew);
    }
  }

  // ---- Exactly when ----

  lemma {:induction false} FoldersWhole(s: Snapshot, p: Payload, asNew: bool)
    ensures AfterTaken(s, p, asNew).fs !! s.folders.Keys
       <==> && (Replaces(s, p, asNew) || FoldersOf(s, p.collection.meta.id) == {})
            && Homed(s, TakenFolders(s, p, asNew), {})
  {
    var id := p.collection.meta.id;
    var (taken, fs) := (TakenFolders(s, p, asNew), AfterTaken(s, p, asNew).fs);
    hide RequestsOf, TakenRequests, NamedFiles, SweptBy, HomedRequests;
    assert taken == set k | k in FolderKeys(p) && k in s.folders && s.folders[k].collectionId != id;
    hide FolderKeys, TakenFolders;
    if Replaces(s, p, asNew) {
      assert forall k :: k in s.folders ==> (k in fs <==> k in taken && s.folders[k].collectionId !in s.collections);
    } else {
      assert forall k :: k in s.folders ==> (k in fs <==>
        k in FoldersOf(s, id) || (k in taken && s.folders[k].collectionId !in s.collections));
    }
  }

  lemma {:induction false} RequestsWhole(s: Snapshot, p: Payload, asNew: bool)
    ensures AfterTaken(s, p, asNew).rs !! s.requests.Keys
       <==> && (Replaces(s, p, asNew) || RequestsOf(s, p.collection.meta.id) == {})
            && Homed(s, {}, TakenRequests(s, p, asNew))
  {
    var id := p.collection.meta.id;
    var (taken, rs) := (TakenRequests(s, p, asNew), AfterTaken(s, p, asNew).rs);
    hide FoldersOf, TakenFolders, NamedFiles, SweptBy, HomedFolders;
    assert taken == set k | k in RequestKeys(p) && k in s.requests && s.requests[k].collectionId != id;
    hide RequestKeys, TakenRequests;
    if Replaces(s, p, asNew) {
      assert forall k :: k in s.requests ==> (k in rs <==> k in taken && s.requests[k].collectionId !in s.collections);
    } else {
      assert forall k :: k in s.requests ==> (k in rs <==>
        k in RequestsOf(s, id) || (k in taken && s.requests[k].collectionId !in s.collections));
    }
  }

  lemma {:induction false} NamedParts(s: Snapshot, whole: set<string>, a: set<string>, b: set<string>)
    requires forall k :: k in s.requests ==> (k in whole <==> k in a || k in b)
    ensures NamedFiles(s, whole) == NamedFiles(s, a) + NamedFiles(s, b)
  {
  }

  lemma {:induction false} FilesWhole(s: Snapshot, p: Payload, asNew: bool)
    requires Replaces(s, p, asNew) || RequestsOf(s, p.collection.meta.id) == {}
    requires Homed(s, {}, TakenRequests(s, p, asNew))
    ensures AfterTaken(s, p, asNew).files !! s.files.Keys <==> NoOrphan(s)
  {
    var id := p.collection.meta.id;
    var (own, taken, gone) := (RequestsOf(s, id), TakenRequests(s, p, asNew), GoneRequests(s, p));
    FilesComeBack(s, gone);
    NamedParts(s, gone, own, taken);
    assert HomedRequests(s, s.collections.Keys, taken) == taken;
    if taken == {} {
      NothingNamed(s, taken);
    }
    if own == {} {
      NothingNamed(s, own);
    }
    hide GoneRequests, TakenRequests, RequestsOf, SweptBy, NoOrphan, Named, Homed, HomedRequests;
    assert AfterTaken(s, p, asNew).files == SweptBy(s, gone) - NamedFiles(s, gone);
  }

  /**
   * Deleting the imported collection and restoring, in order, what the import handed over gives the stores as they
   * were, exactly when every file was named by a request, the import replaced a collection or its id was in no use,
   * and what it took from other collections has them to come back to.
   */
  lemma {:induction false} UndoOfImport(s: Snapshot, p: Payload, asNew: bool, all: seq<Removed>)
    requires Keyed(s) && Handed(all, s, p, asNew)
    ensures PutBackAll(DeletedCollection(Imported(s, p, asNew), p.collection.meta.id), all) == s
       <==> && NoOrphan(s)
            && (Replaces(s, p, asNew) || Unused(s, p.collection.meta.id))
            && Homed(s, TakenFolders(s, p, asNew), TakenRequests(s, p, asNew))
  {
    UndoneIs(s, p, asNew, all);
    var lack := AfterTaken(s, p, asNew);
    assert lack.cs == if Replaces(s, p, asNew) then {} else {p.collection.meta.id};
    hide AfterTaken, Keyed, Handed, PutBackAll, Imported, DeletedCollection;
    LackingNothing(s, lack.cs, lack.fs, lack.rs, lack.files);
    hide Lacking;
    FoldersWhole(s, p, asNew);
    RequestsWhole(s, p, asNew);
    HomedBoth(s, TakenFolders(s, p, asNew), TakenRequests(s, p, asNew));
    hide TakenFolders, TakenRequests, Homed, FoldersOf, RequestsOf, NoOrphan;
    var whole := Replaces(s, p, asNew) || RequestsOf(s, p.collection.meta.id) == {};
    if whole && Homed(s, {}, TakenRequests(s, p, asNew)) {
      FilesWhole(s, p, asNew);
    }
  }

  lemma {:induction false} HomedBoth(s: Snapshot, fs: set<string>, rs: set<string>)
    ensures Homed(s, fs, rs) <==> Homed(s, fs, {}) && Homed(s, {}, rs)
  {
  }

  /** In stores whose documents all have their collections, the Undo of an import under the file's ids needs no more. */
  lemma {:induction false} UndoUnderIntegrity(s: Snapshot, p: Payload, all: seq<Removed>)
    requires Keyed(s) && Integrity(s) && Handed(all, s, p, false)
    ensures PutBackAll(DeletedCollection(Imported(s, p, false), p.collection.meta.id), all) == s <==> NoOrphan(s)
  {
    UndoOfImport(s, p, false, all);
    hide PutBackAll, Imported, DeletedCollection, Handed;
  }

  // ---- Files that no request names ----

  /** The requests that stay as they were through an import and its Undo: those of neither, and those it replaced. */
  function Staying(s: Snapshot, p: Payload, asNew: bool): set<string> {
    s.requests.Keys - GoneRequests(s, p) + (if Replaces(s, p, asNew) then RequestsOf(s, p.collection.meta.id) else {})
  }

  /** What the Undo of an import lacks of the requests, said the other way round. */
  lemma {:induction false} RequestsBack(s: Snapshot, p: Payload, asNew: bool)
    ensures s.requests.Keys - AfterTaken(s, p, asNew).rs
         == Staying(s, p, asNew) + HomedRequests(s, s.collections.Keys, TakenRequests(s, p, asNew))
  {
    var (own, taken) := (RequestsOf(s, p.collection.meta.id), TakenRequests(s, p, asNew));
    var (gone, back) := (GoneRequests(s, p), HomedRequests(s, s.collections.Keys, taken));
    assert back <= s.requests.Keys && own <= s.requests.Keys;
    hide GoneRequests, HomedRequests, TakenRequests, RequestsOf, FoldersOf, NamedFiles, SweptBy;
  }

  lemma {:induction false} FilesBack(s: Snapshot, p: Payload, asNew: bool)
    ensures var (own, taken) := (RequestsOf(s, p.collection.meta.id), TakenRequests(s, p, asNew));
            s.files.Keys - AfterTaken(s, p, asNew).files
            == (s.files.Keys - SweptBy(s, GoneRequests(s, p)))
               + (if Replaces(s, p, asNew) then NamedFiles(s, own) else {})
               + (if HomedRequests(s, s.collections.Keys, taken) != {} then NamedFiles(s, taken) else {})
  {
    var (own, taken) := (RequestsOf(s, p.collection.meta.id), TakenRequests(s, p, asNew));
    assert NamedFiles(s, own) <= s.files.Keys && NamedFiles(s, taken) <= s.files.Keys;
    hide GoneRequests, HomedRequests, TakenRequests, RequestsOf, FoldersOf, NamedFiles, SweptBy;
  }

  /** The Undo of an import leaves no orphan file, exactly when the files of what it took fit. */
  lemma {:induction false} UndoHasNoOrphan(s: Snapshot, p: Payload, asNew: bool, all: seq<Removed>)
    requires Keyed(s) && Handed(all, s, p, asNew)
    ensures NoOrphan(PutBackAll(DeletedCollection(Imported(s, p, asNew), p.collection.meta.id), all))
       <==> FilesReturn(s, Staying(s, p, asNew), TakenRequests(s, p, asNew))
  {
    var lack := AfterTaken(s, p, asNew);
    var (own, taken) := (RequestsOf(s, p.collection.meta.id), TakenRequests(s, p, asNew));
    var (gone, left) := (GoneRequests(s, p), s.requests.Keys - lack.rs);
    UndoneIs(s, p, asNew, all);
    RequestsBack(s, p, asNew);
    FilesBack(s, p, asNew);
    assert s.requests.Keys - gone <= left && (Replaces(s, p, asNew) ==> own <= left);
    LackingHasNoOrphan(s, lack.cs, lack.fs, lack.rs, lack.files);
    NamedMore(s.requests, s.requests.Keys - gone, left);
    if Replaces(s, p, asNew) {
      NamedMore(s.requests, own, left);
    }
    assert s.files.Keys - SweptBy(s, gone) <= Named(s.requests, s.requests.Keys - gone);
    assert NamedFiles(s, own) <= Named(s.requests, own);
    hide AfterTaken, PutBackAll, DeletedCollection, Imported, Handed, Keyed, Lacking, NoOrphan, Named, NamedFiles,
      SweptBy, GoneRequests, RequestsOf, TakenRequests, HomedRequests, Staying;
  }
}
