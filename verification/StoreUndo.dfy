/** Undo gives back the stores as they were: after a delete, and after an import, and exactly when. */
module StoreUndo {
  import opened Stores

  // ---- Stores that lack some of what they held ----

  /** The stores without these documents and files. */
  function Lacking(s: Snapshot, cs: set<string>, fs: set<string>, rs: set<string>, files: set<string>): Snapshot {
    Snapshot(s.collections - cs, s.folders - fs, s.requests - rs, s.files - files)
  }

  lemma {:induction false} PutAllPuts<D>(store: map<string, D>, entries: seq<(string, D)>, source: map<string, D>)
    requires forall e :: e in entries ==> e.0 in source && source[e.0] == e.1
    ensures forall k :: k in PutAll(store, entries) <==> k in store || k in KeysOf(entries)
    ensures forall k :: k in KeysOf(entries) ==> k in source && PutAll(store, entries)[k] == source[k]
    ensures forall k :: k in store && k !in KeysOf(entries) ==> PutAll(store, entries)[k] == store[k]
  {
    if entries != [] {
      var (front, last) := (entries[..|entries| - 1], entries[|entries| - 1]);
      assert forall e :: e in entries <==> e in front || e == last;
      PutAllPuts(store, front, source);
      assert KeysOf(entries) == KeysOf(front) + {last.0};
    }
  }

  /** Putting back what a store lacks leaves it lacking the rest. */
  lemma {:induction false} PutAllLacking<D>(s: map<string, D>, gone: set<string>, entries: seq<(string, D)>)
    requires forall e :: e in entries ==> e.0 in s && s[e.0] == e.1
    ensures PutAll(s - gone, entries) == s - (gone - KeysOf(entries))
  {
    PutAllPuts(s - gone, entries, s);
  }

  lemma {:induction false} CollectionEntriesAre(docs: seq<Collection>)
    ensures forall e :: e in CollectionEntries(docs) <==> e.1 in docs && e.0 == e.1.meta.id
  {
    if docs != [] {
      CollectionEntriesAre(docs[..|docs| - 1]);
      assert forall d :: d in docs <==> d in docs[..|docs| - 1] || d == docs[|docs| - 1];
    }
  }

  predicate IsHomedFolder(e: (string, Folder), homes: set<string>, docs: seq<Folder>) {
    e.1 in docs && e.0 == e.1.meta.id && e.1.collectionId in homes
  }

  predicate IsHomedRequest(e: (string, Request), homes: set<string>, docs: seq<Request>) {
    e.1 in docs && e.0 == e.1.meta.id && e.1.collectionId in homes
  }

  lemma {:induction false} FolderEntriesAre(homes: set<string>, docs: seq<Folder>)
    ensures forall e :: e in FolderEntries(homes, docs) <==> IsHomedFolder(e, homes, docs)
  {
    if docs != [] {
      FolderEntriesAre(homes, docs[..|docs| - 1]);
      assert forall d :: d in docs <==> d in docs[..|docs| - 1] || d == docs[|docs| - 1];
    }
  }

  lemma {:induction false} RequestEntriesAre(homes: set<string>, docs: seq<Request>)
    ensures forall e :: e in RequestEntries(homes, docs) <==> IsHomedRequest(e, homes, docs)
  {
    if docs != [] {
      RequestEntriesAre(homes, docs[..|docs| - 1]);
      assert forall d :: d in docs <==> d in docs[..|docs| - 1] || d == docs[|docs| - 1];
    }
  }

  /** Those of these folders that have a collection to come back to. */
  function HomedFolders(s: Snapshot, homes: set<string>, fs: set<string>): set<string> {
    set k | k in fs && k in s.folders && s.folders[k].collectionId in homes
  }

  function HomedRequests(s: Snapshot, homes: set<string>, rs: set<string>): set<string> {
    set k | k in rs && k in s.requests && s.requests[k].collectionId in homes
  }

  function NamedFiles(s: Snapshot, rs: set<string>): set<string> {
    set f | f in Named(s.requests, rs) && f in s.files
  }

  lemma {:induction false} CapturedKeys(removed: Removed, s: Snapshot, cs: set<string>, fs: set<string>,
    rs: set<string>, homes: set<string>)
    requires Keyed(s) && Captures(removed, s, cs, fs, rs)
    ensures KeysOf(CollectionEntries(removed.collections)) == set k | k in cs && k in s.collections
    ensures KeysOf(FolderEntries(homes, removed.folders)) == HomedFolders(s, homes, fs)
    ensures KeysOf(RequestEntries(homes, removed.requests)) == HomedRequests(s, homes, rs)
    ensures KeysOf(removed.files) == NamedFiles(s, rs)
  {
    CollectionEntriesAre(removed.collections);
    FolderEntriesAre(homes, removed.folders);
    RequestEntriesAre(homes, removed.requests);
    hide CollectionEntries, FolderEntries, RequestEntries, Named;
    forall k | k in cs && k in s.collections ensures k in KeysOf(CollectionEntries(removed.collections)) {
      assert (k, s.collections[k]) in CollectionEntries(removed.collections);
    }
    forall k | k in HomedFolders(s, homes, fs) ensures k in KeysOf(FolderEntries(homes, removed.folders)) {
      assert (k, s.folders[k]) in FolderEntries(homes, removed.folders);
    }
    forall k | k in HomedRequests(s, homes, rs) ensures k in KeysOf(RequestEntries(homes, removed.requests)) {
      assert (k, s.requests[k]) in RequestEntries(homes, removed.requests);
    }
    forall k | k in NamedFiles(s, rs) ensures k in KeysOf(removed.files) {
      assert (k, s.files[k]) in removed.files;
    }
  }

  lemma {:induction false} CollectionsPutBack(s: Snapshot, cs: set<string>, removed: Removed, cs1: set<string>,
    fs1: set<string>, rs1: set<string>)
    requires Keyed(s) && Captures(removed, s, cs1, fs1, rs1)
    ensures PutAll(s.collections - cs, CollectionEntries(removed.collections)) == s.collections - (cs - cs1)
  {
    CapturedKeys(removed, s, cs1, fs1, rs1, {});
    CollectionEntriesAre(removed.collections);
    var entries := CollectionEntries(removed.collections);
    assert forall e :: e in entries ==> e.0 in s.collections && s.collections[e.0] == e.1;
    hide CollectionEntries, FolderEntries, RequestEntries, PutAll, Captures, Keyed, KeysOf;
    PutAllLacking(s.collections, cs, entries);
    assert s.collections - (cs - KeysOf(entries)) == s.collections - (cs - cs1);
  }

  lemma {:induction false} FoldersPutBack(s: Snapshot, fs: set<string>, homes: set<string>, removed: Removed,
    cs1: set<string>, fs1: set<string>, rs1: set<string>)
    requires Keyed(s) && Captures(removed, s, cs1, fs1, rs1)
    ensures PutAll(s.folders - fs, FolderEntries(homes, removed.folders))
         == s.folders - (fs - HomedFolders(s, homes, fs1))
  {
    CapturedKeys(removed, s, cs1, fs1, rs1, homes);
    FolderEntriesAre(homes, removed.folders);
    var entries := FolderEntries(homes, removed.folders);
    assert forall e :: e in entries ==> e.0 in s.folders && s.folders[e.0] == e.1;
    hide CollectionEntries, FolderEntries, RequestEntries, PutAll, Captures, Keyed, KeysOf, HomedFolders;
    PutAllLacking(s.folders, fs, entries);
  }

  lemma {:induction false} RequestsPutBack(s: Snapshot, rs: set<string>, homes: set<string>, removed: Removed,
    cs1: set<string>, fs1: set<string>, rs1: set<string>)
    requires Keyed(s) && Captures(removed, s, cs1, fs1, rs1)
    ensures PutAll(s.requests - rs, RequestEntries(homes, removed.requests))
         == s.requests - (rs - HomedRequests(s, homes, rs1))
    ensures RequestEntries(homes, removed.requests) == [] <==> HomedRequests(s, homes, rs1) == {}
  {
    CapturedKeys(removed, s, cs1, fs1, rs1, homes);
    RequestEntriesAre(homes, removed.requests);
    var entries := RequestEntries(homes, removed.requests);
    assert forall e :: e in entries ==> e.0 in s.requests && s.requests[e.0] == e.1;
    assert entries != [] ==> entries[0].0 in KeysOf(entries);
    assert entries == [] ==> KeysOf(entries) == {};
    hide CollectionEntries, FolderEntries, RequestEntries, PutAll, Captures, Keyed, KeysOf, HomedRequests;
    PutAllLacking(s.requests, rs, entries);
  }

  lemma {:induction false} FilesPutBack(s: Snapshot, files: set<string>, removed: Removed, cs1: set<string>,
    fs1: set<string>, rs1: set<string>)
    requires Keyed(s) && Captures(removed, s, cs1, fs1, rs1)
    ensures PutAll(s.files - files, removed.files) == s.files - (files - NamedFiles(s, rs1))
  {
    CapturedKeys(removed, s, cs1, fs1, rs1, {});
    assert forall e :: e in removed.files ==> e.0 in s.files && s.files[e.0] == e.1;
    hide CollectionEntries, FolderEntries, RequestEntries, PutAll, Captures, Keyed, KeysOf, NamedFiles;
    PutAllLacking(s.files, files, removed.files);
  }

  /** What `PutBack` makes of stores that lack some of what they held, given what it was: they lack the rest. */
  lemma {:induction false} PutBackLacking(s: Snapshot, cs: set<string>, fs: set<string>, rs: set<string>,
    files: set<string>,
    removed: Removed, cs1: set<string>, fs1: set<string>, rs1: set<string>)
    requires Keyed(s) && Captures(removed, s, cs1, fs1, rs1)
    ensures var homes := s.collections.Keys - (cs - cs1);
            PutBack(Lacking(s, cs, fs, rs, files), removed) == Lacking(s, cs - cs1,
              fs - HomedFolders(s, homes, fs1),
              rs - HomedRequests(s, homes, rs1),
              if HomedRequests(s, homes, rs1) != {} then files - NamedFiles(s, rs1) else files)
  {
    var homes := s.collections.Keys - (cs - cs1);
    assert (s.collections - (cs - cs1)).Keys == homes;
    hide CollectionEntries, FolderEntries, RequestEntries, PutAll, Captures, Keyed, HomedFolders, HomedRequests,
      NamedFiles;
    CollectionsPutBack(s, cs, removed, cs1, fs1, rs1);
    FoldersPutBack(s, fs, homes, removed, cs1, fs1, rs1);
    RequestsPutBack(s, rs, homes, removed, cs1, fs1, rs1);
    FilesPutBack(s, files, removed, cs1, fs1, rs1);
  }

  /** What no request names any more once these are gone. */
  function SweptBy(s: Snapshot, rs: set<string>): set<string> {
    s.files.Keys - Named(s.requests, s.requests.Keys - rs)
  }

  lemma {:induction false} TakeOutLacks(s: Snapshot, cs: set<string>, fs: set<string>, rs: set<string>)
    ensures TakeOut(s, cs, fs, rs) == Lacking(s, cs, fs, rs, SweptBy(s, rs))
  {
    var t := Snapshot(s.collections - cs, s.folders - fs, s.requests - rs, s.files);
    assert Used(t) == Named(s.requests, s.requests.Keys - rs);
  }

  /** These documents each have a collection in the stores. */
  ghost predicate Homed(s: Snapshot, fs: set<string>, rs: set<string>) {
    && (forall k :: k in fs && k in s.folders ==> s.folders[k].collectionId in s.collections)
    && (forall k :: k in rs && k in s.requests ==> s.requests[k].collectionId in s.collections)
  }

  lemma {:induction false} LackingNothing(s: Snapshot, cs: set<string>, fs: set<string>, rs: set<string>,
    files: set<string>)
    ensures Lacking(s, cs, fs, rs, files) == s
       <==> cs !! s.collections.Keys && fs !! s.folders.Keys && rs !! s.requests.Keys && files !! s.files.Keys
  {
    MinusNothing(s.collections, cs);
    MinusNothing(s.folders, fs);
    MinusNothing(s.requests, rs);
    MinusNothing(s.files, files);
  }

  lemma {:induction false} MinusNothing<D>(m: map<string, D>, gone: set<string>)
    ensures m - gone == m <==> gone !! m.Keys
  {
    if m - gone == m {
      forall k | k in gone ensures k !in m.Keys {
        assert k !in m - gone;
      }
    }
    if gone !! m.Keys {
      assert (m - gone).Keys == m.Keys;
    }
  }

  /** A file is named by what stays, by what went, or by nothing. */
  lemma {:induction false} NamedByEither(s: Snapshot, rs: set<string>)
    ensures Used(s) == Named(s.requests, s.requests.Keys - rs) + Named(s.requests, rs)
  {
  }

  lemma {:induction false} AllHomed(s: Snapshot, fs: set<string>, rs: set<string>)
    ensures var homes := s.collections.Keys;
            (fs - HomedFolders(s, homes, fs) !! s.folders.Keys && rs - HomedRequests(s, homes, rs) !! s.requests.Keys)
            <==> Homed(s, fs, rs)
  {
  }

  lemma {:induction false} NothingNamed(s: Snapshot, rs: set<string>)
    requires rs !! s.requests.Keys
    ensures Named(s.requests, rs) == {}
  {
  }

  /** The files that went with the requests are all that was swept, exactly when there was no orphan. */
  lemma {:induction false} FilesComeBack(s: Snapshot, rs: set<string>)
    ensures SweptBy(s, rs) - NamedFiles(s, rs) !! s.files.Keys <==> NoOrphan(s)
  {
    NamedByEither(s, rs);
    hide Named;
  }

  /** What the files lack once the requests with a collection are back, and their files. */
  function StillSwept(s: Snapshot, rs: set<string>): set<string> {
    if HomedRequests(s, s.collections.Keys, rs) != {} then SweptBy(s, rs) - NamedFiles(s, rs) else SweptBy(s, rs)
  }

  lemma {:induction false} StillSweptNothing(s: Snapshot, fs: set<string>, rs: set<string>)
    requires Homed(s, fs, rs)
    ensures StillSwept(s, rs) !! s.files.Keys <==> NoOrphan(s)
  {
    FilesComeBack(s, rs);
    if HomedRequests(s, s.collections.Keys, rs) == {} {
      forall k | k in rs ensures k !in s.requests.Keys {
        assert k !in HomedRequests(s, s.collections.Keys, rs);
      }
      NothingNamed(s, rs);
    }
  }

  /**
   * Putting back what was taken out gives the stores as they were, exactly when every file was named by a request
   * and everything that went has a collection to come back to.
   */
  lemma {:induction false} RestoreIsInverse(s: Snapshot, cs: set<string>, fs: set<string>, rs: set<string>,
    removed: Removed)
    requires Keyed(s) && Captures(removed, s, cs, fs, rs)
    ensures PutBack(TakeOut(s, cs, fs, rs), removed) == s <==> NoOrphan(s) && Homed(s, fs, rs)
  {
    TakeOutLacks(s, cs, fs, rs);
    PutBackLacking(s, cs, fs, rs, SweptBy(s, rs), removed, cs, fs, rs);
    hide SweptBy, Captures, PutBack, TakeOut, Keyed, HomedFolders, HomedRequests, Homed, Lacking, NoOrphan;
    var homes := s.collections.Keys;
    assert homes - (cs - cs) == homes;
    var (fs2, rs2) := (fs - HomedFolders(s, homes, fs), rs - HomedRequests(s, homes, rs));
    LackingNothing(s, cs - cs, fs2, rs2, StillSwept(s, rs));
    hide StillSwept, NamedFiles;
    AllHomed(s, fs, rs);
    if Homed(s, fs, rs) {
      StillSweptNothing(s, fs, rs);
    }
  }

  // ---- Files that no request names ----

  lemma {:induction false} LackingHasNoOrphan(s: Snapshot, cs: set<string>, fs: set<string>, rs: set<string>,
    files: set<string>)
    ensures NoOrphan(Lacking(s, cs, fs, rs, files)) <==> s.files.Keys - files <= Named(s.requests, s.requests.Keys - rs)
  {
    var t := Lacking(s, cs, fs, rs, files);
    assert Used(t) == Named(s.requests, s.requests.Keys - rs);
    assert t.files.Keys == s.files.Keys - files;
    hide Used, Named;
  }

  /** Of these requests none comes back, or each file they name is named by one that does or by one that stays. */
  predicate FilesReturn(s: Snapshot, stays: set<string>, rs: set<string>) {
    var back := HomedRequests(s, s.collections.Keys, rs);
    back == {} || NamedFiles(s, rs) <= Named(s.requests, stays + back)
  }

  /** More requests name more files. */
  lemma {:induction false} NamedMore(requests: map<string, Request>, fewer: set<string>, more: set<string>)
    requires forall k :: k in fewer && k in requests ==> k in more
    ensures Named(requests, fewer) <= Named(requests, more)
  {
  }

  /** Putting back what was taken out leaves no orphan file, exactly when the files that come back with it fit. */
  lemma {:induction false} RestoreHasNoOrphan(s: Snapshot, cs: set<string>, fs: set<string>, rs: set<string>,
    removed: Removed)
    requires Keyed(s) && Captures(removed, s, cs, fs, rs)
    ensures NoOrphan(PutBack(TakeOut(s, cs, fs, rs), removed)) <==> FilesReturn(s, s.requests.Keys - rs, rs)
  {
    var (homes, back) := (s.collections.Keys, HomedRequests(s, s.collections.Keys, rs));
    var (stays, left) := (s.requests.Keys - rs, s.requests.Keys - (rs - back));
    assert back <= s.requests.Keys && left == stays + back;
    assert homes - (cs - cs) == homes;
    TakeOutLacks(s, cs, fs, rs);
    PutBackLacking(s, cs, fs, rs, SweptBy(s, rs), removed, cs, fs, rs);
    var gone := if back != {} then SweptBy(s, rs) - NamedFiles(s, rs) else SweptBy(s, rs);
    LackingHasNoOrphan(s, cs - cs, fs - HomedFolders(s, homes, fs), rs - back, gone);
    NamedMore(s.requests, stays, left);
    hide PutBack, TakeOut, Captures, Keyed, HomedFolders, HomedRequests, Lacking, NoOrphan, Named;
    assert NamedFiles(s, rs) <= s.files.Keys;
  }
}
