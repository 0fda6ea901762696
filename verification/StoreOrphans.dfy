/** Files that no request names, over every run: the steps that can leave one are the Undos that are not whole. */
module StoreOrphans {
  import opened Basics
  import opened Database
  import opened ImportUndo
  import opened StoreRuns
  import opened StoreUndo
  import opened Stores

  /** The Undo of this step leaves no orphan file. */
  ghost predicate Tidies(s: Snapshot, e: Event) {
    match e
    case DeleteRequest(id, _) => FilesReturn(s, s.requests.Keys - {id}, {id})
    case DeleteFolder(id, _) =>
      var rs := RequestsIn(s, WithInside(s.folders, id));
      FilesReturn(s, s.requests.Keys - rs, rs)
    case DeleteCollection(id, _) => FilesReturn(s, s.requests.Keys - RequestsOf(s, id), RequestsOf(s, id))
    case Import(p, asNew, _) => FilesReturn(s, Staying(s, p, asNew), TakenRequests(s, p, asNew))
    case _ => true
  }

  /**
   * The Undo of any delete or import, in any stores, leaves no orphan file, exactly when none of the requests that went
   * comes back, or each file they name is named by one that does or by one that stayed.
   */
  lemma {:induction false} UndoLeavesNoOrphan(s: Snapshot, e: Event, t: Snapshot)
    requires Keyed(s) && Changes(s, e, t) && Offered(e).Some?
    ensures NoOrphan(Undone(t, Offered(e).value)) <==> Tidies(s, e)
  {
    hide TakeOut, PutBack, PutBackAll, Captures, NoOrphan, RequestsIn, WithInside, FilesReturn, Keyed;
    match e
    case DeleteRequest(id, removed) => RestoreHasNoOrphan(s, {}, {}, {id}, removed);
    case DeleteFolder(id, removed) =>
      var fs := WithInside(s.folders, id);
      RestoreHasNoOrphan(s, {}, fs, RequestsIn(s, fs), removed);
    case DeleteCollection(id, removed) => RestoreHasNoOrphan(s, {id}, FoldersOf(s, id), RequestsOf(s, id), removed);
    case Import(p, asNew, handed) =>
      hide Imported, Handed, Staying, TakenRequests, DeletedCollection;
      UndoHasNoOrphan(s, p, asNew, handed);
  }

  /** One request alone comes back with all its files, or not at all. */
  lemma {:induction false} OneRequestTidies(s: Snapshot, id: string, removed: Removed)
    ensures Tidies(s, DeleteRequest(id, removed))
  {
    var back := HomedRequests(s, s.collections.Keys, {id});
    if back != {} {
      assert back == {id};
      NamedMore(s.requests, {id}, s.requests.Keys - {id} + back);
      hide Named;
    }
  }

  /**
   * The requests of one collection come back together, or not at all: only a folder's or an import's Undo can leave an
   * orphan.
   */
  lemma {:induction false} CollectionTidies(s: Snapshot, id: string, removed: Removed)
    ensures Tidies(s, DeleteCollection(id, removed))
  {
    var rs := RequestsOf(s, id);
    var back := HomedRequests(s, s.collections.Keys, rs);
    if back != {} {
      assert back == rs;
      NamedMore(s.requests, rs, s.requests.Keys - rs + back);
      hide Named;
    }
  }

  /** Where what went has its collection to come back to, all the files fit. */
  lemma {:induction false} WholeTidies(s: Snapshot, e: Event)
    requires Returns(s, e)
    ensures Tidies(s, e)
  {
    hide WithInside, RequestsIn, TakenFolders, TakenRequests, FoldersOf, RequestsOf, NoOrphan, Staying, FilesReturn;
    match e
    case DeleteRequest(id, _) => HomedFilesReturn(s, {}, {id}, s.requests.Keys - {id});
    case DeleteFolder(id, _) =>
      var fs := WithInside(s.folders, id);
      HomedFilesReturn(s, fs, RequestsIn(s, fs), s.requests.Keys - RequestsIn(s, fs));
    case DeleteCollection(id, _) =>
      HomedFilesReturn(s, FoldersOf(s, id), RequestsOf(s, id), s.requests.Keys - RequestsOf(s, id));
    case Import(p, asNew, _) =>
      HomedFilesReturn(s, TakenFolders(s, p, asNew), TakenRequests(s, p, asNew), Staying(s, p, asNew));
  }

  lemma {:induction false} HomedFilesReturn(s: Snapshot, fs: set<string>, rs: set<string>, stays: set<string>)
    requires Homed(s, fs, rs)
    ensures FilesReturn(s, stays, rs)
  {
    var back := HomedRequests(s, s.collections.Keys, rs);
    assert forall k :: k in rs && k in s.requests ==> k in back;
    hide HomedRequests;
    NamedMore(s.requests, rs, stays + back);
    hide Named;
  }

  // ---- Every run ----

  /** A change leaves no orphan file where there was none; its Undo does exactly when it is tidy. */
  lemma {:induction false} StepLeavesNoOrphan(a: State, e: Event, b: State)
    requires Keyed(a.s) && NoOrphan(a.s) && Next(a, e, b) && !e.TakeUndo?
    ensures NoOrphan(b.s)
    ensures b.undo.Some? ==> (NoOrphan(Undone(b.s, b.undo.value)) <==> Tidies(a.s, e))
  {
    hide Undone, Changes, Keyed, NoOrphan, Integrity, Tidies;
    ChangeKeeps(a.s, e, b.s);
    if Offered(e).Some? {
      UndoLeavesNoOrphan(a.s, e, b.s);
    }
  }

  /** The steps that an Undo was taken of right after them. */
  predicate Taken(events: seq<Event>, i: nat) {
    i + 1 < |events| && events[i + 1].TakeUndo?
  }

  ghost predicate AllTidy(states: seq<State>, events: seq<Event>, n: nat)
    requires |states| == |events| + 1 && n <= |events|
  {
    forall i: nat :: i + 1 < n && Taken(events, i) ==> Tidies(states[i].s, events[i])
  }

  lemma {:induction false} RunIsTidy(states: seq<State>, events: seq<Event>, n: nat)
    requires Run(states, events) && n <= |events| && AllTidy(states, events, n)
    ensures NoOrphan(states[n].s)
    decreases n
  {
    if n > 0 {
      RunIsTidy(states, events, n - 1);
      RunIsKeyed(states, events, n - 1);
      assert Next(states[n - 1], events[n - 1], states[n]);
      if !events[n - 1].TakeUndo? {
        hide Run, AllTidy, NoOrphan, Next, Tidies, Keyed;
        StepLeavesNoOrphan(states[n - 1], events[n - 1], states[n]);
      } else {
        assert n >= 2 && Next(states[n - 2], events[n - 2], states[n - 1]);
        assert Taken(events, n - 2);
        UndoInRun(states, events, n - 2);
      }
    }
  }

  /** An Undo right after its step leaves no orphan file exactly when the step's Undo is tidy. */
  lemma {:induction false} UndoInRun(states: seq<State>, events: seq<Event>, i: nat)
    requires Run(states, events) && Taken(events, i)
    ensures NoOrphan(states[i + 2].s) <==> Tidies(states[i].s, events[i])
  {
    RunIsKeyed(states, events, i);
    assert Next(states[i], events[i], states[i + 1]) && Next(states[i + 1], events[i + 1], states[i + 2]);
    hide Run, Undone, Changes, Keyed, Tidies, NoOrphan;
    UndoLeavesNoOrphan(states[i].s, events[i], states[i + 1].s);
  }

  /**
   * In every state of a run each stored file is named by a stored request, exactly when every Undo that was taken was
   * tidy: none of the requests that went came back, or each file they name is named by one that did or that stayed.
   */
  lemma {:induction false} RunHasNoOrphan(states: seq<State>, events: seq<Event>)
    requires Run(states, events)
    ensures (forall i :: 0 <= i < |states| ==> NoOrphan(states[i].s))
       <==> forall i: nat :: Taken(events, i) ==> Tidies(states[i].s, events[i])
  {
    if forall i: nat :: Taken(events, i) ==> Tidies(states[i].s, events[i]) {
      forall i | 0 <= i < |states| ensures NoOrphan(states[i].s) {
        assert AllTidy(states, events, i) by {
          hide Run, Tidies, NoOrphan;
        }
        RunIsTidy(states, events, i);
      }
    }
    if forall i :: 0 <= i < |states| ==> NoOrphan(states[i].s) {
      forall i: nat | Taken(events, i) ensures Tidies(states[i].s, events[i]) {
        UndoInRun(states, events, i);
      }
    }
  }

  // ---- An Undo that leaves a file behind ----

  const HOME: Collection := Collection("k", Meta("k", 0, 0), "k", 2.0, "", true)
  const BLOB: StoredFile := StoredFile("", "")

  function Naming(id: string, collectionId: string, file: string): Request {
    Request(id, Meta(id, 0, 0), collectionId, None, id, 1.0, "", Body("binary", "", [], Some(file)))
  }

  /** One request in a collection that is there, one in the collection that is gone, each with a file of its own. */
  const KEPT: Request := Naming("r1", "k", "x")
  const LOST: Request := Naming("r2", "c", "y")

  /** A file whose requests have the ids of both. */
  const OVER: Payload := Payload(
    Collection("n", Meta("n", 0, 0), "n", 3.0, "", false), [], [Naming("r1", "n", "z"), Naming("r2", "n", "z")])
  const HANDED: seq<Removed> := [Removed([], [], [KEPT, LOST], [("x", BLOB), ("y", BLOB)])]

  const WITH_HOME: Snapshot := EMPTY.(collections := map["k" := HOME])
  const WITH_ONE: Snapshot := WITH_HOME.(requests := map["r1" := KEPT], files := map["x" := BLOB])
  const WITH_BOTH: Snapshot := WITH_HOME.(requests := map["r1" := KEPT, "r2" := LOST],
    files := map["x" := BLOB, "y" := BLOB])

  const ORPHANING: seq<Event> := [
    EVENTS[0], EVENTS[1], NewCollection(HOME), NewRequest(KEPT, [("x", BLOB)]), NewRequest(LOST, [("y", BLOB)]),
    Import(OVER, false, HANDED), TakeUndo]

  function Passed(): seq<State> {
    var imported := Imported(WITH_BOTH, OVER, false);
    [STATES[0], STATES[1], STATES[2], State(WITH_HOME, None), State(WITH_ONE, None), State(WITH_BOTH, None),
     State(imported, Offered(ORPHANING[5])), State(Undone(imported, UndoImport("n", HANDED)), None)]
  }

  lemma {:induction false} PutOne(files: map<string, StoredFile>, id: string)
    ensures PutAll(files, [(id, BLOB)]) == files[id := BLOB]
  {
    assert [(id, BLOB)][..0] == [];
  }

  lemma {:induction false} RequestsAreMade()
    ensures Changes(WITH_HOME, ORPHANING[3], WITH_ONE) && Changes(WITH_ONE, ORPHANING[4], WITH_BOTH)
  {
    PutOne(WITH_HOME.files, "x");
    PutOne(WITH_ONE.files, "y");
    assert FileIdsOf(KEPT.body) == ["x"] && FileIdsOf(LOST.body) == ["y"];
  }

  lemma {:induction false} BothAreTaken()
    ensures TakenRequests(WITH_BOTH, OVER, false) == {"r1", "r2"} && TakenFolders(WITH_BOTH, OVER, false) == {}
    ensures Cleared(WITH_BOTH, "n", false) == WITH_BOTH
  {
    assert FoldersOf(WITH_BOTH, "n") == {} && RequestsOf(WITH_BOTH, "n") == {};
    assert Cleared(WITH_BOTH, "n", false) == WITH_BOTH;
    assert OVER.requests[0].meta.id == "r1" && OVER.requests[1].meta.id == "r2";
    assert RequestKeys(OVER) == {"r1", "r2"};
  }

  lemma {:induction false} NamesOfBoth()
    ensures Named(WITH_BOTH.requests, {"r1", "r2"}) == {"x", "y"} && Named(WITH_BOTH.requests, {"r1"}) == {"x"}
  {
    assert FileIdsOf(KEPT.body) == ["x"] && FileIdsOf(LOST.body) == ["y"];
    assert WITH_BOTH.requests["r1"] == KEPT && WITH_BOTH.requests["r2"] == LOST;
    hide FileIdsOf;
    assert "x" in FileIdsOf(KEPT.body) && "y" in FileIdsOf(LOST.body);
  }

  lemma {:induction false} BothAreHanded()
    ensures Handed(HANDED, WITH_BOTH, OVER, false)
  {
    BothAreTaken();
    NamesOfBoth();
    hide Named, TakenRequests, TakenFolders, Cleared;
  }

  lemma {:induction false} NothingStays()
    ensures Staying(WITH_BOTH, OVER, false) == {}
  {
    assert OVER.requests[0].meta.id == "r1" && OVER.requests[1].meta.id == "r2";
    assert {"r1", "r2"} <= RequestKeys(OVER);
    assert WITH_BOTH.requests.Keys == {"r1", "r2"};
  }

  lemma {:induction false} OneComesBack()
    ensures HomedRequests(WITH_BOTH, WITH_BOTH.collections.Keys, {"r1", "r2"}) == {"r1"}
  {
    assert WITH_BOTH.collections.Keys == {"k"} && "k" != "c";
  }

  lemma {:induction false} ImportIsNotTidy()
    ensures !Tidies(WITH_BOTH, ORPHANING[5])
  {
    BothAreTaken();
    NamesOfBoth();
    NothingStays();
    OneComesBack();
    assert "y" in NamedFiles(WITH_BOTH, {"r1", "r2"}) by {
      hide Named;
    }
    assert {} + {"r1"} == {"r1"};
    hide Named, TakenRequests, Staying, HomedRequests, NamedFiles;
    assert !FilesReturn(WITH_BOTH, {}, {"r1", "r2"});
  }

  lemma {:induction false} FirstSteps()
    ensures var states := Passed();
            && Next(states[0], ORPHANING[0], states[1]) && Next(states[1], ORPHANING[1], states[2])
            && Next(states[2], ORPHANING[2], states[3])
  {
    CollectionGoes();
    hide Imported, Undone, DeletedCollection, Captures;
  }

  lemma {:induction false} RequestSteps()
    ensures Next(Passed()[3], ORPHANING[3], Passed()[4]) && Next(Passed()[4], ORPHANING[4], Passed()[5])
  {
    RequestsAreMade();
    hide Imported, Undone, Changes;
  }

  lemma {:induction false} ImportSteps()
    ensures Next(Passed()[5], ORPHANING[5], Passed()[6]) && Next(Passed()[6], ORPHANING[6], Passed()[7])
  {
    BothAreHanded();
    hide Imported, Undone, Handed;
  }

  lemma {:induction false} SevenSteps(states: seq<State>, events: seq<Event>)
    requires |states| == 8 && |events| == 7 && states[0] == State(EMPTY, None)
    requires Next(states[0], events[0], states[1]) && Next(states[1], events[1], states[2])
    requires Next(states[2], events[2], states[3]) && Next(states[3], events[3], states[4])
    requires Next(states[4], events[4], states[5]) && Next(states[5], events[5], states[6])
    requires Next(states[6], events[6], states[7])
    ensures Run(states, events)
  {
    hide Next;
  }

  lemma {:induction false} OrphaningIsRun()
    ensures Run(Passed(), ORPHANING)
  {
    assert Passed()[0] == State(EMPTY, None) && |Passed()| == 8 && |ORPHANING| == 7;
    FirstSteps();
    RequestSteps();
    ImportSteps();
    hide Next, Passed, Run;
    SevenSteps(Passed(), ORPHANING);
  }

  lemma {:induction false} OnlyTheImport(states: seq<State>, n: nat)
    requires |states| == 8 && n <= 6
    ensures AllTidy(states, ORPHANING, n)
  {
    assert forall i :: 0 <= i < 6 ==> !ORPHANING[i].TakeUndo?;
    hide Tidies;
  }

  lemma {:induction false} NoneBefore(states: seq<State>, n: nat)
    requires |states| == 8 && n <= 6 && Run(states, ORPHANING)
    ensures NoOrphan(states[n].s)
  {
    hide Run, Tidies, NoOrphan, AllTidy;
    OnlyTheImport(states, n);
    RunIsTidy(states, ORPHANING, n);
  }

  /**
   * A run whose every step but the last leaves no orphan: the Undo of the import puts back one request and the files of
   * both, so the file of the other stays unnamed.
   */
  lemma {:induction false} UndoLeavesAFile()
    ensures var states := Passed();
            && |states| == 8 && Run(states, ORPHANING)
            && NoOrphan(states[5].s) && NoOrphan(states[6].s) && !NoOrphan(states[7].s)
  {
    var states := Passed();
    OrphaningIsRun();
    ImportIsNotTidy();
    assert states[5].s == WITH_BOTH && |states| == 8;
    assert Taken(ORPHANING, 5);
    hide Run, Passed, Tidies, NoOrphan, AllTidy, Taken;
    NoneBefore(states, 5);
    NoneBefore(states, 6);
    UndoInRun(states, ORPHANING, 5);
  }
}
