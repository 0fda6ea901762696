/** The folders inside a folder, at every depth, over parent links that may form rings. */
module FolderTree {
  import opened Basics
  import opened Stores

  function Inside(folders: map<string, Folder>, parent: string): set<string> {
    set k | k in folders && folders[k].parentFolderId == Some(parent)
  }

  /** The folders at most `n` links below a folder. */
  function Within(folders: map<string, Folder>, id: string, n: nat): set<string> {
    if n == 0 then {}
    else
      var before := Within(folders, id, n - 1);
      before + set k | k in folders && IsBelow(folders, k, {id} + before)
  }

  predicate IsBelow(folders: map<string, Folder>, k: string, these: set<string>) {
    k in folders && folders[k].parentFolderId.Some? && folders[k].parentFolderId.value in these
  }

  /** One or more child links lead from the first to the second. */
  ghost predicate Reachable(folders: map<string, Folder>, id: string, k: string) {
    exists n: nat :: k in Within(folders, id, n)
  }

  ghost function Below(folders: map<string, Folder>, id: string): set<string> {
    set k | k in folders && k != id && Reachable(folders, id, k)
  }

  function Ids(found: seq<Folder>): set<string> {
    set f | f in found :: f.meta.id
  }

  /** Each folder stands after its parent, which is the start or stands before it. */
  predicate ParentsFirst(id: string, found: seq<Folder>) {
    forall k :: 0 <= k < |found| ==> IsBelowFound(found[k], id, found[..k])
  }

  predicate IsBelowFound(f: Folder, id: string, found: seq<Folder>) {
    f.parentFolderId.Some? && (f.parentFolderId.value == id || f.parentFolderId.value in Ids(found))
  }

  ghost predicate Keys(folders: map<string, Folder>) {
    forall k :: k in folders ==> folders[k].meta.id == k
  }

  /** These documents of the store, each once. */
  ghost predicate Lists(found: seq<Folder>, folders: map<string, Folder>, these: set<string>) {
    && (forall f :: f in found ==> f.meta.id in folders && folders[f.meta.id] == f)
    && (forall i, j :: 0 <= i < j < |found| ==> found[i].meta.id != found[j].meta.id)
    && Ids(found) == these
  }

  lemma {:induction false} WithinIsIn(folders: map<string, Folder>, id: string, n: nat)
    ensures Within(folders, id, n) <= folders.Keys
  {
    if n > 0 {
      WithinIsIn(folders, id, n - 1);
    }
  }

  /** What is closed under child links holds everything that is reachable. */
  lemma {:induction false} ClosedHolds(folders: map<string, Folder>, id: string, seen: set<string>, n: nat)
    requires id in seen && forall k :: IsBelow(folders, k, seen) ==> k in seen
    ensures Within(folders, id, n) <= seen
  {
    if n > 0 {
      ClosedHolds(folders, id, seen, n - 1);
      forall k | k in Within(folders, id, n) ensures k in seen {
        if k !in Within(folders, id, n - 1) {
          assert IsBelow(folders, k, seen);
        }
      }
    }
  }

  lemma {:induction false} NextIsReachable(folders: map<string, Folder>, id: string, parent: string, k: string)
    requires parent == id || Reachable(folders, id, parent)
    requires k in Inside(folders, parent)
    ensures Reachable(folders, id, k)
  {
    var n: nat :| parent == id || parent in Within(folders, id, n);
    assert IsBelow(folders, k, {id} + Within(folders, id, n));
    assert k in Within(folders, id, n + 1);
  }

  lemma {:induction false} FoundIsBelow(folders: map<string, Folder>, id: string, seen: set<string>)
    requires id in seen && forall k :: IsBelow(folders, k, seen) ==> k in seen
    requires forall k :: k in seen && k != id ==> k in folders && Reachable(folders, id, k)
    ensures seen - {id} == Below(folders, id)
  {
    forall k | k in Below(folders, id) ensures k in seen - {id} {
      var n: nat :| k in Within(folders, id, n);
      ClosedHolds(folders, id, seen, n);
    }
  }

  method List(folders: map<string, Folder>, these: set<string>) returns (found: seq<Folder>)
    requires Keys(folders) && these <= folders.Keys
    ensures Lists(found, folders, these)
  {
    found := [];
    var left := these;
    while left != {}
      invariant left <= these && Lists(found, folders, these - left)
      decreases left
    {
      var k :| k in left;
      AddOne(folders, found, these - left, k);
      found, left := found + [folders[k]], left - {k};
      assert these - left == (these - (left + {k})) + {k};
    }
  }

  lemma {:induction false} AddOne(folders: map<string, Folder>, found: seq<Folder>, these: set<string>, k: string)
    requires Keys(folders) && Lists(found, folders, these) && k in folders && k !in these
    ensures Lists(found + [folders[k]], folders, these + {k})
  {
    var more := found + [folders[k]];
    assert forall f :: f in more <==> f in found || f == folders[k];
    forall i | 0 <= i < |found| ensures found[i].meta.id != k {
      assert found[i].meta.id in Ids(found);
    }
  }

  /** What the search has seen is the start and the folders found, all reachable and each after its parent. */
  ghost predicate Searched(folders: map<string, Folder>, id: string, seen: set<string>, found: seq<Folder>) {
    && id in seen && seen - {id} <= folders.Keys
    && Lists(found, folders, seen - {id}) && ParentsFirst(id, found)
    && forall k :: k in seen && k != id ==> Reachable(folders, id, k)
  }

  /** What is inside a folder that was seen and is not waiting was seen too. */
  ghost predicate Followed(folders: map<string, Folder>, seen: set<string>, queue: seq<string>) {
    forall k :: IsBelow(folders, k, seen) && folders[k].parentFolderId.value !in queue ==> k in seen
  }

  /** A breadth-first search that lists `Below`, parents first; marking what it has seen is what ends it on a ring. */
  method Subtree(folders: map<string, Folder>, id: string) returns (found: seq<Folder>)
    requires Keys(folders)
    ensures Lists(found, folders, Below(folders, id))
    ensures ParentsFirst(id, found)
  {
    hide Lists, ParentsFirst, Below, Searched, Followed, Inside;
    found := [];
    var seen := {id};
    var queue := [id];
    NothingFound(folders, id);
    while queue != []
      invariant Searched(folders, id, seen, found)
      invariant forall q :: q in queue ==> q in seen
      invariant Followed(folders, seen, queue)
      decreases folders.Keys - seen, |queue|
    {
      var next := queue[0];
      ghost var (seen0, before) := (seen, queue);
      queue := queue[1..];
      InsideIsIn(folders, next);
      var inside := List(folders, Inside(folders, next));
      ListedInside(folders, next, inside);
      for n := 0 to |inside|
        invariant Searched(folders, id, seen, found)
        invariant seen0 <= seen && forall q :: q in queue ==> q in seen
        invariant seen == seen0 ==> queue == before[1..]
        invariant forall m :: 0 <= m < n ==> inside[m].meta.id in seen
        invariant forall k :: k in seen && k !in seen0 ==> k in queue && k in folders
        invariant forall q :: q in before[1..] ==> q in queue
      {
        var folder := inside[n];
        assert folder in inside;
        if folder.meta.id !in seen {
          AddFound(folders, id, seen, found, next, folder);
          seen := seen + {folder.meta.id};
          found := found + [folder];
          queue := queue + [folder.meta.id];
        }
      }
      AllFollowed(folders, seen0, before, seen, queue, inside);
    }
    SearchEnds(folders, id, seen, found);
  }

  lemma {:induction false} InsideIsIn(folders: map<string, Folder>, parent: string)
    ensures Inside(folders, parent) <= folders.Keys
  {
  }

  lemma {:induction false} AllFollowed(folders: map<string, Folder>, seen0: set<string>, before: seq<string>,
    seen: set<string>, queue: seq<string>, inside: seq<Folder>)
    requires before != [] && Followed(folders, seen0, before)
    requires forall f: Folder :: f in inside <==> f.meta.id in Inside(folders, before[0]) && folders[f.meta.id] == f
    requires Keys(folders)
    requires seen0 <= seen && forall m :: 0 <= m < |inside| ==> inside[m].meta.id in seen
    requires forall k :: k in seen && k !in seen0 ==> k in queue
    requires forall q :: q in before[1..] ==> q in queue
    ensures Followed(folders, seen, queue)
  {
    forall k | IsBelow(folders, k, seen) && folders[k].parentFolderId.value !in queue ensures k in seen {
      var parent := folders[k].parentFolderId.value;
      if parent == before[0] {
        assert folders[k] in inside;
      } else {
        assert parent in seen0 && parent !in before;
        assert IsBelow(folders, k, seen0);
      }
    }
  }

  lemma {:induction false} SearchEnds(folders: map<string, Folder>, id: string, seen: set<string>, found: seq<Folder>)
    requires Searched(folders, id, seen, found) && Followed(folders, seen, [])
    ensures Lists(found, folders, Below(folders, id)) && ParentsFirst(id, found)
  {
    FoundIsBelow(folders, id, seen);
  }

  lemma {:induction false} NothingFound(folders: map<string, Folder>, id: string)
    ensures Searched(folders, id, {id}, []) && Followed(folders, {id}, [id])
  {
  }

  lemma {:induction false} ListedInside(folders: map<string, Folder>, parent: string, inside: seq<Folder>)
    requires Keys(folders) && Lists(inside, folders, Inside(folders, parent))
    ensures forall f: Folder :: f in inside <==> f.meta.id in Inside(folders, parent) && folders[f.meta.id] == f
  {
    forall f: Folder | f.meta.id in Inside(folders, parent) && folders[f.meta.id] == f ensures f in inside {
      assert f.meta.id in Ids(inside);
    }
  }

  lemma {:induction false} AddFound(folders: map<string, Folder>, id: string, seen: set<string>, found: seq<Folder>,
    next: string, folder: Folder)
    requires Keys(folders) && Searched(folders, id, seen, found)
    requires next in seen && folder.meta.id !in seen
    requires folder.meta.id in Inside(folders, next) && folders[folder.meta.id] == folder
    ensures Searched(folders, id, seen + {folder.meta.id}, found + [folder])
  {
    var k := folder.meta.id;
    NextIsReachable(folders, id, next, k);
    AddOne(folders, found, seen - {id}, k);
    hide Reachable;
    assert seen + {k} - {id} == (seen - {id}) + {k};
    var more := found + [folder];
    forall i | 0 <= i < |more| ensures IsBelowFound(more[i], id, more[..i]) {
      assert more[..i] == found[..i];
    }
  }
}
