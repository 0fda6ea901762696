/**
 * The folders and requests of a collection written as Postman's nested items, from parent links that may form rings.
 */
module PostmanTree {
  import opened Basics
  import opened StableSort

  /** `rank` is where the language's collation puts the id among the ids; two folders may share an id. */
  datatype Folder = Folder(id: string, parent: Option<string>, order: real, rank: int)

  datatype Request = Request(id: string, folderId: Option<string>, order: real, rank: int)

  datatype Source = Source(folders: seq<Folder>, requests: seq<Request>)

  /** A folder or a request is the object it is, which its place in the source says. */
  datatype Ref = FolderRef(index: nat) | RequestRef(index: nat)

  datatype Child = Child(order: real, kind: int, rank: int, ref: Ref)

  datatype Item = RequestItem(index: nat) | FolderItem(index: nat, items: seq<Item>)

  // ---- The order of children ----

  predicate NotAfter(a: Child, b: Child) {
    || a.order < b.order
    || (a.order == b.order && (a.kind < b.kind || (a.kind == b.kind && a.rank <= b.rank)))
  }

  function FoldersWhere(folders: seq<Folder>, p: Folder -> bool): seq<Child> {
    if folders == [] then []
    else
      var n := |folders| - 1;
      var before := FoldersWhere(folders[..n], p);
      if p(folders[n]) then before + [Child(folders[n].order, 0, folders[n].rank, FolderRef(n))] else before
  }

  function RequestsWhere(requests: seq<Request>, p: Request -> bool): seq<Child> {
    if requests == [] then []
    else
      var n := |requests| - 1;
      var before := RequestsWhere(requests[..n], p);
      if p(requests[n]) then before + [Child(requests[n].order, 1, requests[n].rank, RequestRef(n))] else before
  }

  function ChildrenInOrder(s: Source, parent: Option<string>): seq<Child> {
    Sort(NotAfter,
      FoldersWhere(s.folders, (f: Folder) => f.parent == parent)
      + RequestsWhere(s.requests, (r: Request) => r.folderId == parent))
  }

  function FoldersInOrder(s: Source): seq<Child> {
    Sort(NotAfter, FoldersWhere(s.folders, (f: Folder) => true))
  }

  predicate Held(s: Source, id: string) {
    exists k :: 0 <= k < |s.folders| && s.folders[k].id == id
  }

  /** The requests whose folder the source does not hold. */
  function OrphansInOrder(s: Source): seq<Child> {
    Sort(NotAfter, RequestsWhere(s.requests, (r: Request) => r.folderId.Some? && !Held(s, r.folderId.value)))
  }

  // ---- What stands in a list of items ----

  function RefOf(item: Item): Ref {
    if item.RequestItem? then RequestRef(item.index) else FolderRef(item.index)
  }

  /** Every folder of a list, however deep. */
  function FolderList(items: seq<Item>): seq<nat> {
    if items == [] then []
    else FolderList(items[..|items| - 1]) + FoldersOf(items[|items| - 1])
  }

  function FoldersOf(item: Item): seq<nat> {
    if item.RequestItem? then [] else [item.index] + FolderList(item.items)
  }

  /** How often a request stands in a list, however deep. */
  function Times(items: seq<Item>, request: nat): nat {
    if items == [] then 0
    else Times(items[..|items| - 1], request) + TimesIn(items[|items| - 1], request)
  }

  function TimesIn(item: Item, request: nat): nat {
    match item
    case RequestItem(index) => if index == request then 1 else 0
    case FolderItem(_, items) => Times(items, request)
  }

  /** The items are the children in order, every request among them and some of the folders. */
  predicate Kept(children: seq<Child>, items: seq<Item>) {
    if children == [] then items == []
    else
      var (front, last) := (children[..|children| - 1], children[|children| - 1]);
      || (items != [] && RefOf(items[|items| - 1]) == last.ref && Kept(front, items[..|items| - 1]))
      || (last.ref.FolderRef? && Kept(front, items))
  }

  /** Every folder of the list holds its own children, and so does every folder in it. */
  predicate Deep(s: Source, items: seq<Item>)
    decreases items, 0
  {
    forall k :: 0 <= k < |items| && items[k].FolderItem? ==>
      items[k].index < |s.folders| && Nested(s, Some(s.folders[items[k].index].id), items[k].items)
  }

  predicate Nested(s: Source, parent: Option<string>, items: seq<Item>)
    decreases items, 1
  {
    Kept(ChildrenInOrder(s, parent), items) && Deep(s, items)
  }

  predicate IsFolder(s: Source, i: nat) {
    i < |s.folders|
  }

  function Indices(s: Source): set<nat> {
    set i: nat | i < |s.folders| && IsFolder(s, i)
  }

  predicate IsUnder(s: Source, i: nat, parent: Option<string>) {
    i < |s.folders| && s.folders[i].parent == parent
  }

  /** The folders at most `n` links below the top. */
  function Reached(s: Source, n: nat): set<nat> {
    if n == 0 then set i | i in Indices(s) && IsUnder(s, i, None)
    else
      var before := Reached(s, n - 1);
      before + set i | i in Indices(s) && exists k :: k in before && IsUnderFolder(s, i, k)
  }

  predicate IsUnderFolder(s: Source, i: nat, k: nat) {
    k < |s.folders| && IsUnder(s, i, Some(s.folders[k].id))
  }

  /** Following its parents from the folder comes to the top. */
  ghost predicate OnTree(s: Source, i: nat) {
    exists n: nat :: i in Reached(s, n)
  }

  /** The folders among these that have the id. */
  function WithId(s: Source, these: set<nat>, id: Option<string>): set<nat> {
    set i | i in these && i < |s.folders| && Some(s.folders[i].id) == id
  }

  /** How often a request is written: once, or once for each folder of the id it names. */
  function Copies(s: Source, request: nat): nat
    requires request < |s.requests|
  {
    var holders := WithId(s, Indices(s), s.requests[request].folderId);
    if holders == {} then 1 else |holders|
  }

  /** The top: what stands there, then the folders no parent reaches, then the requests no folder holds. */
  ghost predicate Written(s: Source, top: seq<Item>, a: nat, b: nat) {
    && a <= b <= |top|
    && Nested(s, None, top[..a])
    && Kept(FoldersInOrder(s), top[a..b]) && Deep(s, top[a..b])
    && Kept(OrphansInOrder(s), top[b..])
  }

  /** Every folder under one of these is written. */
  ghost predicate Opened(s: Source, these: set<nat>, written: set<nat>) {
    forall i, k :: i in these && i < |s.folders| && IsUnder(s, k, Some(s.folders[i].id)) ==> k in written
  }

  // ---- The walk, from the folders that are written already ----

  datatype Pass = Pass(items: seq<Item>, written: set<nat>)

  predicate Refer(s: Source, children: seq<Child>) {
    forall k :: 0 <= k < |children| && children[k].ref.FolderRef? ==> children[k].ref.index < |s.folders|
  }

  /**
   * The children one after the other; a folder that is written by then is left out, another is written with all in it.
   */
  function Walked(s: Source, children: seq<Child>, written: set<nat>): (r: Pass)
    requires written <= Indices(s) && Refer(s, children)
    ensures written <= r.written <= Indices(s)
    decreases Indices(s) - written, |children|
  {
    if children == [] then Pass([], written)
    else
      var (front, last) := (Walked(s, children[..|children| - 1], written), children[|children| - 1].ref);
      if last.RequestRef? then Pass(front.items + [RequestItem(last.index)], front.written)
      else if last.index in front.written then front
      else
        assert Indices(s) - front.written <= Indices(s) - written;
        var inner := Grouped(s, last.index, front.written);
        Pass(front.items + [FolderItem(last.index, inner.items)], inner.written)
  }

  /** The folder's own children, the folder itself being written before them. */
  function Grouped(s: Source, i: nat, written: set<nat>): (r: Pass)
    requires written <= Indices(s) && i < |s.folders| && i !in written
    ensures written + {i} <= r.written <= Indices(s)
    decreases Indices(s) - written, 0
  {
    ChildrenHold(s, Some(s.folders[i].id));
    IndexOfFolder(s, i);
    assert i in (Indices(s) - written) && i !in (Indices(s) - (written + {i}));
    Walked(s, ChildrenInOrder(s, Some(s.folders[i].id)), written + {i})
  }

  class Writer {
    const source: Source
    var written: set<nat>

    constructor (source: Source)
      ensures this.source == source && written == {}
    {
      this.source := source;
      written := {};
    }

    method Items(parent: Option<string>) returns (items: seq<Item>)
      requires written <= Indices(source)
      modifies this
      ensures Refer(source, ChildrenInOrder(source, parent))
      ensures Pass(items, written) == Walked(source, ChildrenInOrder(source, parent), old(written))
      decreases Indices(source) - written, 1
    {
      hide ChildrenInOrder;
      ChildrenHold(source, parent);
      items := Walk(ChildrenInOrder(source, parent));
    }

    /** The children one after the other, those folders left out that are already written. */
    method Walk(children: seq<Child>) returns (items: seq<Item>)
      requires written <= Indices(source) && Refer(source, children)
      modifies this
      ensures Pass(items, written) == Walked(source, children, old(written))
      decreases Indices(source) - written, 0, 1
    {
      hide Indices, Grouped;
      items := [];
      for n := 0 to |children|
        invariant old(written) <= written <= Indices(source)
        invariant Pass(items, written) == Walked(source, children[..n], old(written))
      {
        var ref := children[n].ref;
        assert children[..n + 1][..n] == children[..n];
        if ref.RequestRef? {
          items := items + [RequestItem(ref.index)];
        } else if ref.index !in written {
          assert Indices(source) - written <= Indices(source) - old(written);
          var folder := Group(ref.index);
          items := items + [folder];
        }
      }
      assert children[..|children|] == children;
    }

    method Group(i: nat) returns (folder: Item)
      requires written <= Indices(source) && i < |source.folders| && i !in written
      modifies this
      ensures folder.FolderItem? && folder.index == i
      ensures Pass(folder.items, written) == Grouped(source, i, old(written))
      decreases Indices(source) - written, 0, 0
    {
      IndexOfFolder(source, i);
      assert i in (Indices(source) - written) && i !in (Indices(source) - (written + {i}));
      hide Walked;
      written := written + {i};
      var items := Items(Some(source.folders[i].id));
      folder := FolderItem(i, items);
    }

    /** The collection's items; the first `a` stand at the top, and after the first `b` come the orphan requests. */
    method Collection() returns (top: seq<Item>, ghost a: nat, ghost b: nat)
      requires written == {}
      modifies this
      ensures Written(source, top, a, b)
      ensures multiset(FolderList(top)) == multiset(Indices(source))
      ensures forall j :: 0 <= j < |source.requests| ==> Times(top, j) == Copies(source, j)
      ensures forall i :: i in FolderList(top[..a]) <==> OnTree(source, i)
      ensures TopFolders(top[a..b]) == Heads(source, FoldersInOrder(source))
    {
      hide Kept, Deep, FolderList, Opened, Nested, Times, Copies, OnTree, Indices, FoldersInOrder, OrphansInOrder,
        ChildrenInOrder, Walked, TopFolders, Heads;
      var first := Items(None);
      ghost var onTree := written;
      FirstWalk(source);
      FoldersHold(source);
      var lifted := Walk(FoldersInOrder(source));
      ghost var both := written;
      SecondWalk(source, onTree);
      OrphansHold(source);
      var orphans := Walk(OrphansInOrder(source));
      WalkedIs(source, OrphansInOrder(source), both);
      OrphansAreRequests(source, orphans);
      top := first + lifted + orphans;
      a, b := |first|, |first| + |lifted|;
      assert top[..a] == first && top[a..b] == lifted && top[b..] == orphans;
      FolderListConcat(first + lifted, orphans);
      FolderListConcat(first, lifted);
      assert multiset(onTree) + multiset(both - onTree) == multiset(both);
      EachRequest(source, top, a, b);
    }
  }

  // ---- What a walk writes ----

  /** The children are in order but for folders that were written, and what is new is written once and whole. */
  ghost predicate WalkKeeps(s: Source, children: seq<Child>, before: set<nat>, r: Pass) {
    && multiset(FolderList(r.items)) == multiset(r.written - before)
    && Kept(children, r.items) && Deep(s, r.items)
    && (forall k :: 0 <= k < |children| && children[k].ref.FolderRef? ==> children[k].ref.index in r.written)
    && Opened(s, r.written - before, r.written)
  }

  /** The same of one folder's own items, the folder counted with them. */
  ghost predicate GroupKeeps(s: Source, i: nat, before: set<nat>, r: Pass)
    requires i < |s.folders|
  {
    && multiset(FoldersOf(FolderItem(i, r.items))) == multiset(r.written - before)
    && Nested(s, Some(s.folders[i].id), r.items)
    && Opened(s, r.written - before, r.written)
  }

  lemma {:induction false} WalkNone(s: Source, written: set<nat>)
    ensures WalkKeeps(s, [], written, Pass([], written))
  {
    NothingListed(s, written);
  }

  lemma {:induction false} WalkRequest(s: Source, children: seq<Child>, n: nat, before: set<nat>, front: Pass)
    requires n < |children| && children[n].ref.RequestRef? && WalkKeeps(s, children[..n], before, front)
    ensures WalkKeeps(s, children[..n + 1], before,
      Pass(front.items + [RequestItem(children[n].ref.index)], front.written))
  {
    hide Kept, Deep, FolderList, FoldersOf, Opened;
    KeptOne(children, n, front.items);
    AppendItem(s, front.items, RequestItem(children[n].ref.index));
  }

  lemma {:induction false} WalkSkip(s: Source, children: seq<Child>, n: nat, before: set<nat>, front: Pass)
    requires n < |children| && children[n].ref.FolderRef? && children[n].ref.index in front.written
    requires WalkKeeps(s, children[..n], before, front)
    ensures WalkKeeps(s, children[..n + 1], before, front)
  {
    hide Kept, Deep, FolderList, Opened;
    KeptOne(children, n, front.items);
  }

  lemma {:induction false} WalkGroup(s: Source, children: seq<Child>, n: nat, before: set<nat>, front: Pass,
    inner: Pass)
    requires n < |children| && children[n].ref.FolderRef? && children[n].ref.index < |s.folders|
    requires before <= front.written && front.written + {children[n].ref.index} <= inner.written
    requires WalkKeeps(s, children[..n], before, front) && GroupKeeps(s, children[n].ref.index, front.written, inner)
    ensures var item := FolderItem(children[n].ref.index, inner.items);
            WalkKeeps(s, children[..n + 1], before, Pass(front.items + [item], inner.written))
  {
    var item := FolderItem(children[n].ref.index, inner.items);
    hide Kept, Deep, Nested, FolderList, FoldersOf, Opened;
    KeptOne(children, n, front.items);
    AppendItem(s, front.items, item);
    GroupListed(front.items, item, before, front.written, inner.written);
    GroupOpened(s, before, front.written, inner.written);
  }

  lemma {:induction false} GroupListed(items: seq<Item>, item: Item, before: set<nat>, mid: set<nat>, after: set<nat>)
    requires before <= mid <= after && multiset(FolderList(items)) == multiset(mid - before)
    requires multiset(FoldersOf(item)) == multiset(after - mid)
    requires FolderList(items + [item]) == FolderList(items) + FoldersOf(item)
    ensures multiset(FolderList(items + [item])) == multiset(after - before)
  {
    hide FolderList, FoldersOf;
    SetsParted(before, mid, after);
  }

  lemma {:induction false} GroupOpened(s: Source, before: set<nat>, mid: set<nat>, after: set<nat>)
    requires before <= mid <= after && Opened(s, mid - before, mid) && Opened(s, after - mid, after)
    ensures Opened(s, after - before, after)
  {
    OpenedBoth(s, mid - before, mid, after - mid, after);
    hide Opened;
    SetsParted(before, mid, after);
  }

  lemma {:induction false} SetsParted(a: set<nat>, b: set<nat>, c: set<nat>)
    requires a <= b <= c
    ensures c - a == (b - a) + (c - b) && multiset(c - a) == multiset(b - a) + multiset(c - b)
  {
    assert c - a == (b - a) + (c - b);
  }

  lemma {:induction false} OneParted(a: set<nat>, i: nat, c: set<nat>)
    requires i !in a && a + {i} <= c
    ensures c - a == {i} + (c - (a + {i})) && multiset(c - a) == multiset{i} + multiset(c - (a + {i}))
  {
    assert c - a == {i} + (c - (a + {i}));
  }

  /**
   * A walk lists its children in order and leaves out written folders alone; it writes each folder once, with its own
   * children; all folders among its children are written in the end, and so is all that is under what it wrote.
   */
  lemma {:induction false} WalkedIs(s: Source, children: seq<Child>, written: set<nat>)
    requires written <= Indices(s) && Refer(s, children)
    ensures WalkKeeps(s, children, written, Walked(s, children, written))
    decreases Indices(s) - written, |children|
  {
    hide WalkKeeps, GroupKeeps, Indices, Grouped;
    if children == [] {
      WalkNone(s, written);
    } else {
      var n := |children| - 1;
      var (front, last) := (Walked(s, children[..n], written), children[n].ref);
      WalkedIs(s, children[..n], written);
      assert children[..n + 1] == children;
      if last.RequestRef? {
        WalkRequest(s, children, n, written, front);
      } else if last.index in front.written {
        WalkSkip(s, children, n, written, front);
      } else {
        assert Indices(s) - front.written <= Indices(s) - written;
        GroupedIs(s, last.index, front.written);
        WalkGroup(s, children, n, written, front, Grouped(s, last.index, front.written));
      }
    }
  }

  lemma {:induction false} GroupedIs(s: Source, i: nat, written: set<nat>)
    requires written <= Indices(s) && i < |s.folders| && i !in written
    ensures GroupKeeps(s, i, written, Grouped(s, i, written))
    decreases Indices(s) - written, 0
  {
    var (r, children) := (Grouped(s, i, written), ChildrenInOrder(s, Some(s.folders[i].id)));
    ChildrenHold(s, Some(s.folders[i].id));
    IndexOfFolder(s, i);
    assert i in (Indices(s) - written) && i !in (Indices(s) - (written + {i}));
    WalkedIs(s, children, written + {i});
    assert r == Walked(s, children, written + {i});
    hide Walked, Grouped, WalkKeeps, GroupKeeps, Indices, ChildrenInOrder;
    WholeGroup(s, i, written, r);
  }

  lemma {:induction false} UnderIsChild(s: Source, k: nat, parent: Option<string>)
    requires IsUnder(s, k, parent)
    ensures k < |s.folders| && FolderChild(s.folders, k) in ChildrenInOrder(s, parent)
  {
    ChildrenHold(s, parent);
    hide ChildrenInOrder;
  }

  lemma {:induction false} WholeGroup(s: Source, i: nat, before: set<nat>, r: Pass)
    requires i < |s.folders| && i !in before && before + {i} <= r.written
    requires WalkKeeps(s, ChildrenInOrder(s, Some(s.folders[i].id)), before + {i}, r)
    ensures GroupKeeps(s, i, before, r)
  {
    var (parent, children) := (Some(s.folders[i].id), ChildrenInOrder(s, Some(s.folders[i].id)));
    ChildrenHold(s, parent);
    OneParted(before, i, r.written);
    assert multiset(FoldersOf(FolderItem(i, r.items))) == multiset{i} + multiset(FolderList(r.items));
    hide Kept, Deep, ChildrenInOrder, FolderList, FoldersOf, IsUnder;
    forall k | IsUnder(s, k, parent) ensures k in r.written {
      UnderIsChild(s, k, parent);
      assert FolderChild(s.folders, k) in children;
    }
  }

  /** The walk from the top writes exactly the folders whose parents lead there. */
  lemma {:induction false} FirstWalk(s: Source)
    ensures Refer(s, ChildrenInOrder(s, None))
    ensures var r := Walked(s, ChildrenInOrder(s, None), {});
            && Nested(s, None, r.items) && multiset(FolderList(r.items)) == multiset(r.written)
            && Opened(s, r.written, r.written)
            && (forall i :: i in FolderList(r.items) <==> OnTree(s, i))
            && (forall i :: i in r.written <==> OnTree(s, i))
  {
    var children := ChildrenInOrder(s, None);
    ChildrenHold(s, None);
    WalkedIs(s, children, {});
    var r := Walked(s, children, {});
    hide Walked, Kept, Deep, FolderList, Opened, OnTree, ChildrenInOrder;
    assert r.written - {} == r.written;
    forall i | IsUnder(s, i, None) ensures i in r.written {
      assert FolderChild(s.folders, i) in children;
    }
    FirstPassIsTree(s, r.items, r.written);
    assert forall i :: i in FolderList(r.items) <==> i in multiset(FolderList(r.items));
  }

  // ---- The folders no parent reaches ----

  function TopFolders(items: seq<Item>): seq<nat> {
    if items == [] then [] else TopFolders(items[..|items| - 1]) + [items[|items| - 1].index]
  }

  /** The folders at most `n` links below this one. */
  function From(s: Source, k: nat, n: nat): set<nat> {
    if n == 0 then {k}
    else
      var before := From(s, k, n - 1);
      before + set i | i in Indices(s) && exists j :: j in before && IsUnderFolder(s, i, j)
  }

  /** Following its parents from folder `i` comes to folder `k`. */
  ghost predicate Reaches(s: Source, k: nat, i: nat) {
    exists n: nat :: i in From(s, k, n)
  }

  /** No parent leads from the folder to the top, nor to one of these. */
  ghost predicate IsHead(s: Source, before: seq<Child>, i: nat) {
    !OnTree(s, i) && forall c :: c in before ==> !Reaches(s, c.ref.index, i)
  }

  /** Of these folders, those no parent leads from to the top or to a folder before them. */
  ghost function Heads(s: Source, folders: seq<Child>): seq<nat> {
    if folders == [] then []
    else
      var (front, last) := (folders[..|folders| - 1], folders[|folders| - 1].ref.index);
      if IsHead(s, front, last) then Heads(s, front) + [last] else Heads(s, front)
  }

  lemma {:induction false} FromIsWritten(s: Source, written: set<nat>, k: nat, n: nat)
    requires Opened(s, written, written) && k in written
    ensures From(s, k, n) <= written
  {
    if n > 0 {
      FromIsWritten(s, written, k, n - 1);
      forall i | i in From(s, k, n) ensures i in written {
        if i !in From(s, k, n - 1) {
          var j :| j in From(s, k, n - 1) && IsUnderFolder(s, i, j);
        }
      }
    }
  }

  /** What a list of items holds is reached from one of the folders in the list itself. */
  lemma {:induction false} ListedIsReached(s: Source, items: seq<Item>, n: nat, k: nat, i: nat)
    requires Deep(s, items) && i in FolderList(items)
    requires forall j :: 0 <= j < |items| && items[j].FolderItem? ==> items[j].index in From(s, k, n)
    ensures Reaches(s, k, i)
    decreases items
  {
    var (front, last) := (items[..|items| - 1], items[|items| - 1]);
    if i in FolderList(front) {
      ListedIsReached(s, front, n, k, i);
    } else if i != last.index {
      assert Nested(s, Some(s.folders[last.index].id), last.items);
      forall j | 0 <= j < |last.items| && last.items[j].FolderItem? ensures last.items[j].index in From(s, k, n + 1) {
        InnerIsUnder(s, last, j);
        assert IsUnderFolder(s, last.items[j].index, last.index);
      }
      ListedIsReached(s, last.items, n + 1, k, i);
    }
  }

  lemma {:induction false} ItemReaches(s: Source, items: seq<Item>, i: nat) returns (k: nat)
    requires Deep(s, items) && i in FolderList(items)
    ensures k < |items| && items[k].FolderItem? && Reaches(s, items[k].index, i)
    decreases |items|
  {
    var (front, last) := (items[..|items| - 1], items[|items| - 1]);
    if i in FolderList(front) {
      k := ItemReaches(s, front, i);
    } else {
      k := |items| - 1;
      assert DeepItem(s, last);
      assert [last][..0] == [] && FolderList([last]) == FoldersOf(last);
      assert Deep(s, [last]);
      ListedIsReached(s, [last], 0, last.index, i);
    }
  }

  /** A folder is written before its turn exactly when it is on the tree or one before it reaches it. */
  lemma {:induction false} WrittenBeforeTurn(s: Source, front: seq<Child>, tree: set<nat>, i: nat)
    requires tree <= Indices(s) && Refer(s, front) && forall c :: c in front ==> c.ref.FolderRef?
    requires Opened(s, tree, tree) && forall k :: k in tree <==> OnTree(s, k)
    ensures i !in Walked(s, front, tree).written <==> IsHead(s, front, i)
  {
    var r := Walked(s, front, tree);
    WalkedIs(s, front, tree);
    OpenedBoth(s, tree, tree, r.written - tree, r.written);
    assert tree + (r.written - tree) == r.written;
    hide Walked, OnTree, Opened, Kept, Deep, FolderList, Indices, Refer, From;
    if i in r.written && i !in tree {
      assert i in multiset(r.written - tree);
      assert i in multiset(FolderList(r.items));
      var k := ItemReaches(s, r.items, i);
      KeptIsUnder(front, r.items, k);
    }
    if c :| c in front && Reaches(s, c.ref.index, i) {
      var q :| 0 <= q < |front| && front[q] == c;
      var n: nat :| i in From(s, c.ref.index, n);
      FromIsWritten(s, r.written, c.ref.index, n);
    }
  }

  lemma {:induction false} WalkedHeads(s: Source, folders: seq<Child>, tree: set<nat>)
    requires tree <= Indices(s) && Refer(s, folders) && forall c :: c in folders ==> c.ref.FolderRef?
    requires Opened(s, tree, tree) && forall k :: k in tree <==> OnTree(s, k)
    ensures TopFolders(Walked(s, folders, tree).items) == Heads(s, folders)
    decreases |folders|
  {
    hide Opened, OnTree, Indices, IsHead, Grouped;
    if folders != [] {
      var (front, last) := (folders[..|folders| - 1], folders[|folders| - 1].ref.index);
      WalkedHeads(s, front, tree);
      WrittenBeforeTurn(s, front, tree, last);
      var before := Walked(s, front, tree).items;
      assert forall item :: (before + [item])[..|before|] == before;
    }
  }

  lemma {:induction false} SecondWalk(s: Source, tree: set<nat>)
    requires tree <= Indices(s) && Opened(s, tree, tree) && forall k :: k in tree <==> OnTree(s, k)
    ensures Refer(s, FoldersInOrder(s))
    ensures var r := Walked(s, FoldersInOrder(s), tree);
            && multiset(FolderList(r.items)) == multiset(r.written - tree) && r.written == Indices(s)
            && Kept(FoldersInOrder(s), r.items) && Deep(s, r.items)
            && TopFolders(r.items) == Heads(s, FoldersInOrder(s))
  {
    var folders := FoldersInOrder(s);
    FoldersHold(s);
    WalkedIs(s, folders, tree);
    var r := Walked(s, folders, tree);
    hide FoldersInOrder, Walked, Opened, OnTree, Kept, Deep, FolderList, TopFolders, Heads, Indices;
    forall c | c in folders ensures c.ref.FolderRef? {
      var k :| 0 <= k < |folders| && folders[k] == c;
    }
    WalkedHeads(s, folders, tree);
    forall i | i in Indices(s) ensures i in r.written {
      IndexOfFolder(s, i);
      assert FolderChild(s.folders, i) in folders;
    }
  }

  /** The heads are the folders that no parent leads from to the top, nor to a folder before them in this order. */
  lemma {:induction false} HeadsAre(s: Source, folders: seq<Child>, i: nat)
    ensures i in Heads(s, folders) <==>
      exists k :: 0 <= k < |folders| && folders[k].ref.index == i && IsHead(s, folders[..k], i)
  {
    hide IsHead;
    if folders != [] {
      var n := |folders| - 1;
      HeadsAre(s, folders[..n], i);
      assert forall k :: 0 <= k <= n ==> folders[..n][..k] == folders[..k];
    }
  }

  // ---- One item more ----

  lemma {:induction false} NothingListed(s: Source, written: set<nat>)
    ensures Kept([], []) && Deep(s, []) && FolderList([]) == [] && Opened(s, {}, written)
    ensures written - written == {}
  {
  }

  lemma {:induction false} IndexOfFolder(s: Source, i: nat)
    ensures i < |s.folders| <==> i in Indices(s)
  {
  }

  lemma {:induction false} KeptOne(children: seq<Child>, n: nat, items: seq<Item>)
    requires n < |children| && Kept(children[..n], items)
    ensures forall item :: RefOf(item) == children[n].ref ==> Kept(children[..n + 1], items + [item])
    ensures children[n].ref.FolderRef? ==> Kept(children[..n + 1], items)
  {
    assert children[..n + 1][..n] == children[..n];
    forall item | RefOf(item) == children[n].ref ensures Kept(children[..n + 1], items + [item]) {
      assert (items + [item])[..|items|] == items;
    }
  }

  predicate DeepItem(s: Source, item: Item) {
    item.FolderItem? ==> item.index < |s.folders| && Nested(s, Some(s.folders[item.index].id), item.items)
  }

  lemma {:induction false} AppendItem(s: Source, items: seq<Item>, item: Item)
    ensures FolderList(items + [item]) == FolderList(items) + FoldersOf(item)
    ensures item.RequestItem? ==> FoldersOf(item) == []
    ensures Deep(s, items) && DeepItem(s, item) ==> Deep(s, items + [item])
  {
    assert (items + [item])[..|items|] == items;
  }

  lemma {:induction false} OpenedBoth(s: Source, a: set<nat>, writtenA: set<nat>, b: set<nat>, writtenB: set<nat>)
    requires Opened(s, a, writtenA) && writtenA <= writtenB && Opened(s, b, writtenB)
    ensures Opened(s, a + b, writtenB)
  {
  }

  // ---- What the lists of children hold ----

  function FolderChild(folders: seq<Folder>, i: nat): Child
    requires i < |folders|
  {
    Child(folders[i].order, 0, folders[i].rank, FolderRef(i))
  }

  lemma {:induction false} FoldersWhereHolds(folders: seq<Folder>, p: Folder -> bool)
    ensures forall c :: c in FoldersWhere(folders, p) ==> c.ref.FolderRef? && c.ref.index < |folders|
    ensures forall i :: 0 <= i < |folders| && p(folders[i]) ==> FolderChild(folders, i) in FoldersWhere(folders, p)
  {
    if folders != [] {
      FoldersWhereHolds(folders[..|folders| - 1], p);
      forall i | 0 <= i < |folders| && p(folders[i]) ensures FolderChild(folders, i) in FoldersWhere(folders, p) {
        if i < |folders| - 1 {
          assert FolderChild(folders[..|folders| - 1], i) == FolderChild(folders, i);
        }
      }
    }
  }

  lemma {:induction false} RequestsWhereHolds(requests: seq<Request>, p: Request -> bool)
    ensures forall c :: c in RequestsWhere(requests, p) ==> c.ref.RequestRef?
  {
    if requests != [] {
      RequestsWhereHolds(requests[..|requests| - 1], p);
    }
  }

  lemma {:induction false} OrderIsTotal()
    ensures TotalOrder(NotAfter)
  {
  }

  lemma {:induction false} ChildrenHold(s: Source, parent: Option<string>)
    ensures var children := ChildrenInOrder(s, parent);
            && (forall k :: 0 <= k < |children| && children[k].ref.FolderRef? ==> children[k].ref.index < |s.folders|)
            && (forall i :: IsUnder(s, i, parent) ==> FolderChild(s.folders, i) in children)
  {
    var folders := FoldersWhere(s.folders, (f: Folder) => f.parent == parent);
    var requests := RequestsWhere(s.requests, (r: Request) => r.folderId == parent);
    FoldersWhereHolds(s.folders, (f: Folder) => f.parent == parent);
    RequestsWhereHolds(s.requests, (r: Request) => r.folderId == parent);
    OrderIsTotal();
    SortWorks(NotAfter, folders + requests);
    hide FoldersWhere, RequestsWhere, Sort;
    var children := ChildrenInOrder(s, parent);
    forall k | 0 <= k < |children| && children[k].ref.FolderRef? ensures children[k].ref.index < |s.folders| {
      assert children[k] in children;
    }
  }

  lemma {:induction false} FoldersHold(s: Source)
    ensures var children := FoldersInOrder(s);
            && (forall k :: 0 <= k < |children| ==> children[k].ref.FolderRef? && children[k].ref.index < |s.folders|)
            && (forall i :: 0 <= i < |s.folders| ==> FolderChild(s.folders, i) in children)
  {
    var folders := FoldersWhere(s.folders, (f: Folder) => true);
    FoldersWhereHolds(s.folders, (f: Folder) => true);
    OrderIsTotal();
    SortWorks(NotAfter, folders);
    hide FoldersWhere, Sort;
    var children := FoldersInOrder(s);
    forall k | 0 <= k < |children| ensures children[k].ref.FolderRef? && children[k].ref.index < |s.folders| {
      assert children[k] in children;
    }
  }

  lemma {:induction false} OrphansHold(s: Source)
    ensures var children := OrphansInOrder(s);
            forall k :: 0 <= k < |children| ==> children[k].ref.RequestRef?
  {
    var p := (r: Request) => r.folderId.Some? && !Held(s, r.folderId.value);
    RequestsWhereHolds(s.requests, p);
    OrderIsTotal();
    SortWorks(NotAfter, RequestsWhere(s.requests, p));
    var children := OrphansInOrder(s);
    forall k | 0 <= k < |children| ensures children[k].ref.RequestRef? {
      assert children[k] in children;
    }
  }

  lemma {:induction false} KeptRequests(children: seq<Child>, items: seq<Item>)
    requires Kept(children, items) && forall k :: 0 <= k < |children| ==> children[k].ref.RequestRef?
    ensures forall k :: 0 <= k < |items| ==> items[k].RequestItem?
    ensures FolderList(items) == []
    decreases |children|
  {
    if children != [] {
      KeptRequests(children[..|children| - 1], items[..|items| - 1]);
    }
  }

  lemma {:induction false} OrphansAreRequests(s: Source, items: seq<Item>)
    requires Kept(OrphansInOrder(s), items)
    ensures FolderList(items) == []
  {
    OrphansHold(s);
    KeptRequests(OrphansInOrder(s), items);
  }

  lemma {:induction false} FolderListConcat(a: seq<Item>, b: seq<Item>)
    ensures FolderList(a + b) == FolderList(a) + FolderList(b)
  {
    if b == [] {
      assert a + b == a && FolderList(b) == [];
    } else {
      var (front, last) := (b[..|b| - 1], b[|b| - 1]);
      FolderListLast(b);
      FolderListLast(a + b);
      hide FolderList, FoldersOf;
      FolderListConcat(a, front);
      assert (a + b)[..|a + b| - 1] == a + front && (a + b)[|a + b| - 1] == last;
    }
  }

  lemma {:induction false} FolderListLast(items: seq<Item>)
    requires items != []
    ensures FolderList(items) == FolderList(items[..|items| - 1]) + FoldersOf(items[|items| - 1])
  {
  }

  // ---- The first pass writes the folders on the tree ----

  lemma {:induction false} ReachedIsWritten(s: Source, written: set<nat>, n: nat)
    requires Opened(s, written, written) && forall i :: IsUnder(s, i, None) ==> i in written
    ensures Reached(s, n) <= written
  {
    if n > 0 {
      ReachedIsWritten(s, written, n - 1);
      forall i | i in Reached(s, n) ensures i in written {
        if i !in Reached(s, n - 1) {
          var k :| k in Reached(s, n - 1) && IsUnderFolder(s, i, k);
        }
      }
    }
  }

  lemma {:induction false} KeptIsUnder(children: seq<Child>, items: seq<Item>, k: nat)
    requires Kept(children, items) && k < |items|
    ensures exists c :: c in children && c.ref == RefOf(items[k])
    decreases |children|
  {
    var front := children[..|children| - 1];
    if Kept(front, items) && children[|children| - 1].ref.FolderRef? {
      KeptIsUnder(front, items, k);
    } else if k < |items| - 1 {
      KeptIsUnder(front, items[..|items| - 1], k);
    }
  }

  lemma {:induction false} ChildIsUnder(s: Source, parent: Option<string>, c: Child)
    requires c in ChildrenInOrder(s, parent) && c.ref.FolderRef?
    ensures IsUnder(s, c.ref.index, parent)
  {
    var folders := FoldersWhere(s.folders, (f: Folder) => f.parent == parent);
    var requests := RequestsWhere(s.requests, (r: Request) => r.folderId == parent);
    FoldersWhereSatisfy(s.folders, (f: Folder) => f.parent == parent);
    RequestsWhereHolds(s.requests, (r: Request) => r.folderId == parent);
    OrderIsTotal();
    SortWorks(NotAfter, folders + requests);
  }

  lemma {:induction false} FoldersWhereSatisfy(folders: seq<Folder>, p: Folder -> bool)
    ensures forall c :: c in FoldersWhere(folders, p) ==>
      c.ref.FolderRef? && c.ref.index < |folders| && p(folders[c.ref.index])
  {
    if folders != [] {
      FoldersWhereSatisfy(folders[..|folders| - 1], p);
    }
  }

  lemma {:induction false} NestedIsReached(s: Source, items: seq<Item>, n: nat, i: nat)
    requires Deep(s, items) && i in FolderList(items)
    requires forall k :: 0 <= k < |items| && items[k].FolderItem? ==> items[k].index in Reached(s, n)
    ensures OnTree(s, i)
    decreases items
  {
    var (front, last) := (items[..|items| - 1], items[|items| - 1]);
    if i in FolderList(front) {
      NestedIsReached(s, front, n, i);
    } else if i != last.index {
      assert Nested(s, Some(s.folders[last.index].id), last.items);
      forall k | 0 <= k < |last.items| && last.items[k].FolderItem? ensures last.items[k].index in Reached(s, n + 1) {
        InnerIsReached(s, last, n, k);
      }
      NestedIsReached(s, last.items, n + 1, i);
    }
  }

  lemma {:induction false} InnerIsUnder(s: Source, folder: Item, k: nat)
    requires folder.FolderItem? && folder.index < |s.folders|
    requires Kept(ChildrenInOrder(s, Some(s.folders[folder.index].id)), folder.items)
    requires k < |folder.items| && folder.items[k].FolderItem?
    ensures IsUnderFolder(s, folder.items[k].index, folder.index) && folder.items[k].index in Indices(s)
  {
    var parent := Some(s.folders[folder.index].id);
    KeptIsUnder(ChildrenInOrder(s, parent), folder.items, k);
    var c :| c in ChildrenInOrder(s, parent) && c.ref == RefOf(folder.items[k]);
    ChildIsUnder(s, parent, c);
    hide ChildrenInOrder, Kept;
  }

  lemma {:induction false} InnerIsReached(s: Source, folder: Item, n: nat, k: nat)
    requires folder.FolderItem? && folder.index < |s.folders| && folder.index in Reached(s, n)
    requires Kept(ChildrenInOrder(s, Some(s.folders[folder.index].id)), folder.items)
    requires k < |folder.items| && folder.items[k].FolderItem?
    ensures folder.items[k].index in Reached(s, n + 1)
  {
    InnerIsUnder(s, folder, k);
    hide ChildrenInOrder, Kept;
  }

  lemma {:induction false} FirstPassIsTree(s: Source, items: seq<Item>, written: set<nat>)
    requires Nested(s, None, items) && multiset(FolderList(items)) == multiset(written)
    requires Opened(s, written, written) && forall i :: IsUnder(s, i, None) ==> i in written
    ensures forall i :: i in FolderList(items) <==> OnTree(s, i)
  {
    hide FolderList, Reached;
    forall k | 0 <= k < |items| && items[k].FolderItem? ensures items[k].index in Reached(s, 0) {
      TopIsReached(s, items, k);
    }
    forall i ensures i in FolderList(items) <==> OnTree(s, i) {
      assert i in FolderList(items) <==> i in multiset(FolderList(items));
      if i in FolderList(items) {
        NestedIsReached(s, items, 0, i);
      }
      if OnTree(s, i) {
        var n: nat :| i in Reached(s, n);
        ReachedIsWritten(s, written, n);
        assert i in multiset(written);
      }
    }
  }

  lemma {:induction false} TopIsReached(s: Source, items: seq<Item>, k: nat)
    requires Kept(ChildrenInOrder(s, None), items) && k < |items| && items[k].FolderItem?
    ensures items[k].index in Reached(s, 0)
  {
    KeptIsUnder(ChildrenInOrder(s, None), items, k);
    var c :| c in ChildrenInOrder(s, None) && c.ref == RefOf(items[k]);
    ChildIsUnder(s, None, c);
    hide ChildrenInOrder, Kept;
    assert c.ref.index in Indices(s);
  }

  // ---- How often a request is written ----

  function Occurs(children: seq<Child>, ref: Ref): nat {
    if children == [] then 0
    else Occurs(children[..|children| - 1], ref) + (if children[|children| - 1].ref == ref then 1 else 0)
  }

  /** How often the request stands in the list itself. */
  function Direct(items: seq<Item>, request: nat): nat {
    if items == [] then 0
    else Direct(items[..|items| - 1], request) + (if items[|items| - 1] == RequestItem(request) then 1 else 0)
  }

  /** How many of these folders, each as often as it is listed, have the id. */
  function Matches(s: Source, list: seq<nat>, id: Option<string>): nat {
    if list == [] then 0
    else
      var i := list[|list| - 1];
      Matches(s, list[..|list| - 1], id) + (if i < |s.folders| && Some(s.folders[i].id) == id then 1 else 0)
  }

  lemma {:induction false} MatchesConcat(s: Source, a: seq<nat>, b: seq<nat>, id: Option<string>)
    ensures Matches(s, a + b, id) == Matches(s, a, id) + Matches(s, b, id)
  {
    if b == [] {
      assert a + b == a;
    } else {
      MatchesConcat(s, a, b[..|b| - 1], id);
      assert (a + b)[..|a + b| - 1] == a + b[..|b| - 1];
    }
  }

  lemma {:induction false} OneOut(these: set<nat>, last: nat)
    requires last in these
    ensures multiset(these) - multiset{last} == multiset(these - {last})
  {
    forall x: nat ensures (multiset(these) - multiset{last})[x] == multiset(these - {last})[x] {
    }
  }

  lemma {:induction false} MatchesSet(s: Source, list: seq<nat>, these: set<nat>, id: Option<string>)
    requires multiset(list) == multiset(these)
    ensures Matches(s, list, id) == |WithId(s, these, id)|
    decreases |list|
  {
    if list == [] {
      assert forall i :: i in these ==> i in multiset(these);
      assert WithId(s, these, id) == {};
    } else {
      var (front, last) := (list[..|list| - 1], list[|list| - 1]);
      assert list == front + [last];
      assert last in multiset(list) && last in multiset(these);
      var rest := these - {last};
      assert multiset(list) == multiset(front) + multiset{last};
      OneOut(these, last);
      assert multiset(front) == multiset(list) - multiset{last};
      MatchesSet(s, front, rest, id);
      if last < |s.folders| && Some(s.folders[last].id) == id {
        assert WithId(s, these, id) == WithId(s, rest, id) + {last};
      } else {
        assert WithId(s, these, id) == WithId(s, rest, id);
      }
    }
  }

  lemma {:induction false} KeptOccurs(children: seq<Child>, items: seq<Item>, request: nat)
    requires Kept(children, items)
    ensures Direct(items, request) == Occurs(children, RequestRef(request))
    decreases |children|
  {
    if children != [] {
      var (front, last) := (children[..|children| - 1], children[|children| - 1]);
      if last.ref.FolderRef? && Kept(front, items) {
        KeptOccurs(front, items, request);
      } else {
        KeptOccurs(front, items[..|items| - 1], request);
      }
    }
  }

  lemma {:induction false} OccursInsert(s: seq<Child>, x: Child, ref: Ref)
    ensures Occurs(Insert(NotAfter, s, x), ref) == Occurs(s, ref) + (if x.ref == ref then 1 else 0)
  {
    if s == [] || NotAfter(s[|s| - 1], x) {
      assert (s + [x])[..|s|] == s;
    } else {
      var (front, last) := (s[..|s| - 1], s[|s| - 1]);
      OccursInsert(front, x, ref);
      assert (Insert(NotAfter, front, x) + [last])[..|s|] == Insert(NotAfter, front, x);
    }
  }

  lemma {:induction false} OccursSort(s: seq<Child>, ref: Ref)
    ensures Occurs(Sort(NotAfter, s), ref) == Occurs(s, ref)
  {
    if s != [] {
      OccursSort(s[..|s| - 1], ref);
      OccursInsert(Sort(NotAfter, s[..|s| - 1]), s[|s| - 1], ref);
    }
  }

  lemma {:induction false} OccursConcat(a: seq<Child>, b: seq<Child>, ref: Ref)
    ensures Occurs(a + b, ref) == Occurs(a, ref) + Occurs(b, ref)
  {
    if b == [] {
      assert a + b == a;
    } else {
      OccursConcat(a, b[..|b| - 1], ref);
      assert (a + b)[..|a + b| - 1] == a + b[..|b| - 1];
    }
  }

  lemma {:induction false} OccursFolders(folders: seq<Folder>, p: Folder -> bool, request: nat)
    ensures Occurs(FoldersWhere(folders, p), RequestRef(request)) == 0
  {
    if folders != [] {
      var before := FoldersWhere(folders[..|folders| - 1], p);
      OccursFolders(folders[..|folders| - 1], p, request);
      assert forall c :: (before + [c])[..|before|] == before;
    }
  }

  lemma {:induction false} OccursRequests(requests: seq<Request>, p: Request -> bool, request: nat)
    ensures Occurs(RequestsWhere(requests, p), RequestRef(request))
         == if request < |requests| && p(requests[request]) then 1 else 0
  {
    if requests != [] {
      var before := RequestsWhere(requests[..|requests| - 1], p);
      OccursRequests(requests[..|requests| - 1], p, request);
      assert forall c :: (before + [c])[..|before|] == before;
    }
  }

  lemma {:induction false} OccursUnder(s: Source, parent: Option<string>, request: nat)
    requires request < |s.requests|
    ensures Occurs(ChildrenInOrder(s, parent), RequestRef(request))
         == if s.requests[request].folderId == parent then 1 else 0
  {
    var folders := FoldersWhere(s.folders, (f: Folder) => f.parent == parent);
    var requests := RequestsWhere(s.requests, (r: Request) => r.folderId == parent);
    OccursFolders(s.folders, (f: Folder) => f.parent == parent, request);
    OccursRequests(s.requests, (r: Request) => r.folderId == parent, request);
    OccursConcat(folders, requests, RequestRef(request));
    OccursSort(folders + requests, RequestRef(request));
  }

  /** A request stands where it is listed itself, and once in each folder, however deep, of the id it names. */
  lemma {:induction false} DeepTimes(s: Source, items: seq<Item>, request: nat)
    requires Deep(s, items) && request < |s.requests|
    ensures Times(items, request)
         == Direct(items, request) + Matches(s, FolderList(items), s.requests[request].folderId)
    decreases items
  {
    if items != [] {
      var id := s.requests[request].folderId;
      var (front, last) := (items[..|items| - 1], items[|items| - 1]);
      DeepTimes(s, front, request);
      MatchesConcat(s, FolderList(front), FoldersOf(last), id);
      if last.FolderItem? {
        var parent := Some(s.folders[last.index].id);
        assert Nested(s, parent, last.items);
        DeepTimes(s, last.items, request);
        KeptOccurs(ChildrenInOrder(s, parent), last.items, request);
        OccursUnder(s, parent, request);
        MatchesConcat(s, [last.index], FolderList(last.items), id);
        MatchesOne(s, last.index, id);
      }
    }
  }

  lemma {:induction false} MatchesOne(s: Source, i: nat, id: Option<string>)
    ensures Matches(s, [i], id) == if i < |s.folders| && Some(s.folders[i].id) == id then 1 else 0
  {
    assert [i][..0] == [];
  }

  lemma {:induction false} DirectConcat(a: seq<Item>, b: seq<Item>, request: nat)
    ensures Direct(a + b, request) == Direct(a, request) + Direct(b, request)
  {
    if b == [] {
      assert a + b == a;
    } else {
      DirectConcat(a, b[..|b| - 1], request);
      assert (a + b)[..|a + b| - 1] == a + b[..|b| - 1];
    }
  }

  lemma {:induction false} DeepWritten(s: Source, top: seq<Item>, a: nat, b: nat)
    requires Written(s, top, a, b)
    ensures Deep(s, top)
  {
    OrphansHold(s);
    KeptRequests(OrphansInOrder(s), top[b..]);
    assert Deep(s, top[..a]);
    hide Kept, Nested, FolderList;
    assert forall k :: b <= k < |top| ==> top[k] == top[b..][k - b] && top[k].RequestItem?;
    forall k | 0 <= k < b && top[k].FolderItem? ensures DeepItem(s, top[k]) {
      if k < a {
        assert top[k] == top[..a][k];
      } else {
        assert top[k] == top[a..b][k - a];
      }
    }
  }

  lemma {:induction false} DirectWritten(s: Source, top: seq<Item>, a: nat, b: nat, request: nat)
    requires Written(s, top, a, b) && request < |s.requests|
    ensures var id := s.requests[request].folderId;
            Direct(top, request) == if id.None? || !Held(s, id.value) then 1 else 0
  {
    hide Deep, Held;
    var ref := RequestRef(request);
    assert top == top[..a] + top[a..b] + top[b..];
    DirectConcat(top[..a] + top[a..b], top[b..], request);
    DirectConcat(top[..a], top[a..b], request);
    KeptOccurs(ChildrenInOrder(s, None), top[..a], request);
    KeptOccurs(FoldersInOrder(s), top[a..b], request);
    KeptOccurs(OrphansInOrder(s), top[b..], request);
    OccursUnder(s, None, request);
    OccursFolders(s.folders, (f: Folder) => true, request);
    OccursSort(FoldersWhere(s.folders, (f: Folder) => true), ref);
    var p := (r: Request) => r.folderId.Some? && !Held(s, r.folderId.value);
    OccursRequests(s.requests, p, request);
    OccursSort(RequestsWhere(s.requests, p), ref);
  }

  lemma {:induction false} HeldWithId(s: Source, id: Option<string>)
    ensures WithId(s, Indices(s), id) == {} <==> id.None? || !Held(s, id.value)
  {
    if id.Some? && Held(s, id.value) {
      var k :| 0 <= k < |s.folders| && s.folders[k].id == id.value;
      assert k in WithId(s, Indices(s), id);
    }
    if WithId(s, Indices(s), id) != {} {
      var k :| k in WithId(s, Indices(s), id);
    }
  }

  lemma {:induction false} EachRequest(s: Source, top: seq<Item>, a: nat, b: nat)
    requires Written(s, top, a, b) && multiset(FolderList(top)) == multiset(Indices(s))
    ensures forall j :: 0 <= j < |s.requests| ==> Times(top, j) == Copies(s, j)
  {
    DeepWritten(s, top, a, b);
    hide Written, Deep;
    forall j | 0 <= j < |s.requests| ensures Times(top, j) == Copies(s, j) {
      var id := s.requests[j].folderId;
      DeepTimes(s, top, j);
      DirectWritten(s, top, a, b, j);
      MatchesSet(s, FolderList(top), Indices(s), id);
      HeldWithId(s, id);
    }
  }

  /** No two folders share an id. */
  predicate DistinctIds(s: Source) {
    forall i, k :: 0 <= i < k < |s.folders| ==> s.folders[i].id != s.folders[k].id
  }

  lemma {:induction false} OnceUnderDistinctIds(s: Source, request: nat)
    requires DistinctIds(s) && request < |s.requests|
    ensures Copies(s, request) == 1
  {
    var holders := WithId(s, Indices(s), s.requests[request].folderId);
    if holders != {} {
      var i :| i in holders;
      assert holders == {i};
    }
  }

  const SHARED: Source := Source(
    [Folder("x", None, 1.0, 1), Folder("x", None, 2.0, 1)],
    [Request("r", Some("x"), 1.0, 2)])

  lemma {:induction false} SharedCopies()
    ensures Copies(SHARED, 0) == 2
  {
    assert WithId(SHARED, Indices(SHARED), Some("x")) == {0, 1};
  }

  /** Two folders of one id: in every file written of them, the request that names it stands twice. */
  lemma {:induction false} SharedIdIsWrittenTwice(top: seq<Item>, a: nat, b: nat)
    requires Written(SHARED, top, a, b) && multiset(FolderList(top)) == multiset(Indices(SHARED))
    ensures Times(top, 0) == 2
  {
    SharedCopies();
    hide Written, FolderList, Indices, Times, Copies;
    EachRequest(SHARED, top, a, b);
  }

  /** When every folder comes to the top and every request's folder is held, each stands under its own parent. */
  lemma {:induction false} WellFormedIsNested(s: Source, top: seq<Item>, a: nat, b: nat)
    requires Written(s, top, a, b) && multiset(FolderList(top)) == multiset(Indices(s))
    requires forall i :: i in FolderList(top[..a]) <==> OnTree(s, i)
    requires forall i :: 0 <= i < |s.folders| ==> OnTree(s, i)
    requires forall j :: 0 <= j < |s.requests| && s.requests[j].folderId.Some? ==> Held(s, s.requests[j].folderId.value)
    ensures Nested(s, None, top)
  {
    NothingLifted(s, top, a, b);
    NoOrphans(s, top[b..]);
    assert top == top[..a];
  }

  lemma {:induction false} NoOrphans(s: Source, items: seq<Item>)
    requires Kept(OrphansInOrder(s), items)
    requires forall j :: 0 <= j < |s.requests| && s.requests[j].folderId.Some? ==> Held(s, s.requests[j].folderId.value)
    ensures items == []
  {
    hide Held;
    if items != [] {
      OrphansHold(s);
      KeptRequests(OrphansInOrder(s), items);
      var j := items[|items| - 1].index;
      KeptOccurs(OrphansInOrder(s), items, j);
      var p := (r: Request) => r.folderId.Some? && !Held(s, r.folderId.value);
      OccursRequests(s.requests, p, j);
      OccursSort(RequestsWhere(s.requests, p), RequestRef(j));
    }
  }

  lemma {:induction false} LiftedFolder(s: Source, lifted: seq<Item>) returns (i: nat)
    requires Kept(FoldersInOrder(s), lifted) && Deep(s, lifted) && lifted != []
    ensures i < |s.folders| && i in FolderList(lifted)
  {
    FoldersOnly(s, lifted);
    i := lifted[|lifted| - 1].index;
    assert FoldersOf(lifted[|lifted| - 1])[0] == i;
  }

  lemma {:induction false} ListedTwice(top: seq<Item>, a: nat, b: nat, i: nat)
    requires a <= b <= |top| && i in FolderList(top[..a]) && i in FolderList(top[a..b])
    ensures multiset(FolderList(top))[i] >= 2
  {
    FolderListConcat(top[..a] + top[a..b], top[b..]);
    FolderListConcat(top[..a], top[a..b]);
    assert top == top[..a] + top[a..b] + top[b..];
  }

  lemma {:induction false} NothingLifted(s: Source, top: seq<Item>, a: nat, b: nat)
    requires Written(s, top, a, b) && multiset(FolderList(top)) == multiset(Indices(s))
    requires forall i :: 0 <= i < |s.folders| ==> i in FolderList(top[..a])
    ensures a == b
  {
    hide Kept, Deep, FolderList;
    if a < b {
      var i := LiftedFolder(s, top[a..b]);
      ListedTwice(top, a, b, i);
      assert false;
    }
  }

  lemma {:induction false} FoldersOnly(s: Source, items: seq<Item>)
    requires Kept(FoldersInOrder(s), items)
    ensures forall k :: 0 <= k < |items| ==> items[k].FolderItem?
  {
    FoldersHold(s);
    forall k | 0 <= k < |items| ensures items[k].FolderItem? {
      KeptIsUnder(FoldersInOrder(s), items, k);
    }
  }

  // ---- The order of a parent's children ----

  function OrderOf(s: Source, ref: Ref): real
    requires if ref.FolderRef? then ref.index < |s.folders| else ref.index < |s.requests|
  {
    if ref.FolderRef? then s.folders[ref.index].order else s.requests[ref.index].order
  }

  function RankOf(s: Source, ref: Ref): int
    requires if ref.FolderRef? then ref.index < |s.folders| else ref.index < |s.requests|
  {
    if ref.FolderRef? then s.folders[ref.index].rank else s.requests[ref.index].rank
  }

  /** The child says what the source says of what it refers to. */
  predicate IsChild(s: Source, c: Child) {
    && (if c.ref.FolderRef? then c.ref.index < |s.folders| && c.kind == 0
        else c.ref.index < |s.requests| && c.kind == 1)
    && c.order == OrderOf(s, c.ref) && c.rank == RankOf(s, c.ref)
  }

  lemma {:induction false} FolderChildren(s: Source, n: nat, p: Folder -> bool)
    requires n <= |s.folders|
    ensures forall c :: c in FoldersWhere(s.folders[..n], p) ==> IsChild(s, c)
  {
    if n > 0 {
      assert s.folders[..n][..n - 1] == s.folders[..n - 1];
      FolderChildren(s, n - 1, p);
    }
  }

  lemma {:induction false} RequestChildren(s: Source, n: nat, p: Request -> bool)
    requires n <= |s.requests|
    ensures forall c :: c in RequestsWhere(s.requests[..n], p) ==> IsChild(s, c)
  {
    if n > 0 {
      assert s.requests[..n][..n - 1] == s.requests[..n - 1];
      RequestChildren(s, n - 1, p);
    }
  }

  /**
   * Of two children the earlier has the smaller order, or an equal one and is the folder, or is alike and ranks no
   * later.
   */
  lemma {:induction false} ChildrenAreOrdered(s: Source, parent: Option<string>, i: nat, k: nat)
    requires i < k < |ChildrenInOrder(s, parent)|
    ensures var (a, b) := (ChildrenInOrder(s, parent)[i], ChildrenInOrder(s, parent)[k]);
            && IsChild(s, a) && IsChild(s, b)
            && OrderOf(s, a.ref) <= OrderOf(s, b.ref)
            && (OrderOf(s, a.ref) == OrderOf(s, b.ref) ==>
                 || (a.ref.FolderRef? && b.ref.RequestRef?)
                 || (a.ref.FolderRef? == b.ref.FolderRef? && RankOf(s, a.ref) <= RankOf(s, b.ref)))
  {
    var folders := FoldersWhere(s.folders, (f: Folder) => f.parent == parent);
    var requests := RequestsWhere(s.requests, (r: Request) => r.folderId == parent);
    assert s.folders[..|s.folders|] == s.folders && s.requests[..|s.requests|] == s.requests;
    FolderChildren(s, |s.folders|, (f: Folder) => f.parent == parent);
    RequestChildren(s, |s.requests|, (r: Request) => r.folderId == parent);
    OrderIsTotal();
    SortWorks(NotAfter, folders + requests);
    hide FoldersWhere, RequestsWhere, Sort;
    var children := ChildrenInOrder(s, parent);
    assert children[i] in children && children[k] in children;
  }
}
