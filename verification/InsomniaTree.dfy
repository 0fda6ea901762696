/** The flat resources of an Insomnia export placed into trees by the parents they name. */
module InsomniaTree {
  import opened Basics
  import opened StableSort

  datatype Kind = Workspace | RequestGroup | Request | Other

  /** What the tree is made of; "" stands for an id or a parent that is missing. */
  datatype Resource = Resource(kind: Kind, id: string, parent: string, sortKey: real)

  /** A resource is the object it is, which its place in the file says. */
  datatype Item = RequestItem(index: nat) | FolderItem(index: nat, items: seq<Item>)

  datatype Error = TooDeep

  const MAX_DEPTH := 64

  /** The outcome of a read: a list of items for each workspace, one more for loose items, and a count of the others. */
  datatype Format4 = Format4(collections: seq<seq<Item>>, loose: seq<Item>, unplaced: nat)

  predicate IsFolder(rs: seq<Resource>, i: nat) {
    i < |rs| && rs[i].kind == RequestGroup
  }

  predicate IsItem(rs: seq<Resource>, i: nat) {
    i < |rs| && (rs[i].kind == RequestGroup || rs[i].kind == Request)
  }

  // ---- The children a parent has, by their sort keys ----

  function Under(rs: seq<Resource>, parent: string): seq<nat> {
    if rs == [] then []
    else
      var n := |rs| - 1;
      if rs[n].parent == parent then Under(rs[..n], parent) + [n] else Under(rs[..n], parent)
  }

  function KeyOrder(rs: seq<Resource>): (nat, nat) -> bool {
    (i: nat, k: nat) => k >= |rs| || (i < |rs| && rs[i].sortKey <= rs[k].sortKey)
  }

  function ChildrenOf(rs: seq<Resource>, parent: string): seq<nat> {
    if parent == "" then [] else Sort(KeyOrder(rs), Under(rs, parent))
  }

  lemma {:induction false} KeyOrderIsTotal(rs: seq<Resource>)
    ensures TotalOrder(KeyOrder(rs))
  {
  }

  lemma {:induction false} UnderAre(rs: seq<Resource>, parent: string)
    ensures forall i :: i in Under(rs, parent) <==> 0 <= i < |rs| && rs[i].parent == parent
  {
    if rs != [] {
      UnderAre(rs[..|rs| - 1], parent);
    }
  }

  lemma {:induction false} ChildrenAre(rs: seq<Resource>, parent: string)
    ensures forall i :: i in ChildrenOf(rs, parent) <==> parent != "" && 0 <= i < |rs| && rs[i].parent == parent
  {
    KeyOrderIsTotal(rs);
    UnderAre(rs, parent);
    SortWorks(KeyOrder(rs), Under(rs, parent));
  }

  /** A parent's children stand by their sort keys. */
  lemma {:induction false} ChildrenAreSorted(rs: seq<Resource>, parent: string, i: nat, k: nat)
    requires i < k < |ChildrenOf(rs, parent)|
    ensures var (a, b) := (ChildrenOf(rs, parent)[i], ChildrenOf(rs, parent)[k]);
            && a < |rs| && b < |rs| && rs[a].parent == rs[b].parent == parent
            && rs[a].sortKey <= rs[b].sortKey
  {
    KeyOrderIsTotal(rs);
    UnderAre(rs, parent);
    SortWorks(KeyOrder(rs), Under(rs, parent));
    hide Under, Sort;
    var children := ChildrenOf(rs, parent);
    assert children[i] in children && children[k] in children;
  }

  // ---- What stands in a list of items ----

  function Listed(items: seq<Item>): seq<nat> {
    if items == [] then [] else Listed(items[..|items| - 1]) + ListedIn(items[|items| - 1])
  }

  function ListedIn(item: Item): seq<nat> {
    match item
    case RequestItem(index) => [index]
    case FolderItem(index, items) => [index] + Listed(items)
  }

  function Max(a: nat, b: nat): nat {
    if a < b then b else a
  }

  /** How many folders stand one in the other. */
  function Height(items: seq<Item>): nat {
    if items == [] then 0 else Max(Height(items[..|items| - 1]), HeightOf(items[|items| - 1]))
  }

  function HeightOf(item: Item): nat {
    if item.RequestItem? then 0 else 1 + Height(item.items)
  }

  /** The items are some of the children, in order. */
  predicate Chosen(children: seq<nat>, items: seq<Item>) {
    if children == [] then items == []
    else
      var (front, last) := (children[..|children| - 1], children[|children| - 1]);
      || (items != [] && items[|items| - 1].index == last && Chosen(front, items[..|items| - 1]))
      || Chosen(front, items)
  }

  predicate Deep(rs: seq<Resource>, items: seq<Item>)
    decreases items, 0
  {
    forall k :: 0 <= k < |items| ==>
      && IsItem(rs, items[k].index)
      && (items[k].FolderItem? <==> IsFolder(rs, items[k].index))
      && (items[k].FolderItem? ==> Nested(rs, rs[items[k].index].id, items[k].items))
  }

  predicate Nested(rs: seq<Resource>, parent: string, items: seq<Item>)
    decreases items, 1
  {
    Chosen(ChildrenOf(rs, parent), items) && Deep(rs, items)
  }

  function Items(rs: seq<Resource>): set<nat> {
    set i: nat | i < |rs| && IsItem(rs, i)
  }

  predicate IsUnder(rs: seq<Resource>, i: nat, parent: string) {
    IsItem(rs, i) && parent != "" && rs[i].parent == parent
  }

  predicate IsUnderFolder(rs: seq<Resource>, i: nat, k: nat) {
    IsFolder(rs, k) && IsUnder(rs, i, rs[k].id)
  }

  /** Everything under the folders among these is placed. */
  ghost predicate Opened(rs: seq<Resource>, these: set<nat>, placed: set<nat>) {
    forall i, k :: k in these && IsUnderFolder(rs, i, k) ==> i in placed
  }

  predicate IsWorkspace(rs: seq<Resource>, id: string) {
    exists w :: 0 <= w < |rs| && rs[w].kind == Workspace && rs[w].id == id
  }

  /** The file holds the workspace or the folder. */
  predicate Known(rs: seq<Resource>, id: string) {
    exists k :: 0 <= k < |rs| && (rs[k].kind == Workspace || rs[k].kind == RequestGroup) && rs[k].id == id
  }

  /** An id that something is read under: a workspace's, or one that is nobody's. */
  predicate IsRoot(rs: seq<Resource>, parent: string) {
    parent != "" && (IsWorkspace(rs, parent) || !Known(rs, parent))
  }

  predicate IsUnderRoot(rs: seq<Resource>, i: nat) {
    IsItem(rs, i) && IsRoot(rs, rs[i].parent)
  }

  /** The requests and folders at most `n` links below a root. */
  function Reached(rs: seq<Resource>, n: nat): set<nat> {
    if n == 0 then set i | i in Items(rs) && IsUnderRoot(rs, i)
    else
      var before := Reached(rs, n - 1);
      before + set i | i in Items(rs) && exists k :: k in before && IsUnderFolder(rs, i, k)
  }

  /** Following its parents from the request or folder comes to a root. */
  ghost predicate OnTree(rs: seq<Resource>, i: nat) {
    exists n: nat :: i in Reached(rs, n)
  }

  /** The ids of the workspaces, in order. */
  function WorkspaceIds(rs: seq<Resource>): seq<string> {
    if rs == [] then []
    else if rs[|rs| - 1].kind == Workspace then WorkspaceIds(rs[..|rs| - 1]) + [rs[|rs| - 1].id]
    else WorkspaceIds(rs[..|rs| - 1])
  }

  function AllListed(collections: seq<seq<Item>>): seq<nat> {
    if collections == [] then []
    else AllListed(collections[..|collections| - 1]) + Listed(collections[|collections| - 1])
  }

  /** Each workspace has its own children, by their sort keys, and each folder its own. */
  predicate Placed(rs: seq<Resource>, ids: seq<string>, collections: seq<seq<Item>>) {
    && |collections| == |ids|
    && forall k :: 0 <= k < |ids| ==> Nested(rs, ids[k], collections[k]) && Height(collections[k]) < MAX_DEPTH
  }

  /** The parents, in the order the resources first name them. */
  function Parents(rs: seq<Resource>): seq<string> {
    if rs == [] then []
    else
      var (before, parent) := (Parents(rs[..|rs| - 1]), rs[|rs| - 1].parent);
      if parent in before then before else before + [parent]
  }

  /** The children of those parents the file does not hold, parent by parent. */
  function LooseUnder(rs: seq<Resource>, parents: seq<string>): seq<nat> {
    if parents == [] then []
    else
      var (before, parent) := (LooseUnder(rs, parents[..|parents| - 1]), parents[|parents| - 1]);
      if parent == "" || Known(rs, parent) then before else before + ChildrenOf(rs, parent)
  }

  /** A list chosen from the loose children in their order, well nested, and not too high. */
  predicate Loose(rs: seq<Resource>, parents: seq<string>, items: seq<Item>) {
    Chosen(LooseUnder(rs, parents), items) && Deep(rs, items) && Unheld(rs, items) && Height(items) < MAX_DEPTH
  }

  predicate Unheld(rs: seq<Resource>, items: seq<Item>) {
    forall k :: 0 <= k < |items| && items[k].index < |rs| ==>
      rs[items[k].index].parent != "" && !Known(rs, rs[items[k].index].parent)
  }

  /** Folders one in the other, none twice, the first under the parent and none placed before. */
  ghost predicate Chain(rs: seq<Resource>, parent: string, chain: seq<nat>, placed: set<nat>) {
    && (forall k :: 0 <= k < |chain| ==> IsFolder(rs, chain[k]) && chain[k] !in placed)
    && (forall j, k :: 0 <= j < k < |chain| ==> chain[j] != chain[k])
    && (chain != [] ==> IsUnder(rs, chain[0], parent))
    && (forall k :: 0 < k < |chain| ==> IsUnderFolder(rs, chain[k], chain[k - 1]))
  }

  lemma {:induction false} ChainGrows(rs: seq<Resource>, parent: string, i: nat, rest: seq<nat>, placed: set<nat>)
    requires IsFolder(rs, i) && IsUnder(rs, i, parent) && i !in placed
    requires Chain(rs, rs[i].id, rest, placed + {i})
    ensures Chain(rs, parent, [i] + rest, placed)
  {
    var chain := [i] + rest;
    forall k | 0 < k < |chain| ensures IsUnderFolder(rs, chain[k], chain[k - 1]) {
      assert chain[k] == rest[k - 1];
      if k > 1 {
        assert chain[k - 1] == rest[k - 2];
        assert IsUnderFolder(rs, rest[k - 1], rest[k - 2]);
      }
    }
  }

  // ---- One item more ----

  /** The first of the children are read: those that were not placed before, each with what goes under it. */
  ghost predicate ReadSoFar(rs: seq<Resource>, list: seq<nat>, n: nat, items: seq<Item>, before: set<nat>,
    placed: set<nat>)
    requires n <= |list|
  {
    && multiset(Listed(items)) == multiset(placed - before)
    && Chosen(list[..n], items) && Deep(rs, items)
    && (forall k :: 0 <= k < n && IsItem(rs, list[k]) ==> list[k] in placed)
    && Opened(rs, placed - before, placed)
  }

  lemma {:induction false} NothingListed(rs: seq<Resource>, list: seq<nat>, placed: set<nat>)
    ensures ReadSoFar(rs, list, 0, [], placed, placed) && Height([]) == 0
  {
    assert list[..0] == [] && placed - placed == {};
  }

  lemma {:induction false} ReadSkip(rs: seq<Resource>, list: seq<nat>, n: nat, items: seq<Item>, before: set<nat>,
    placed: set<nat>)
    requires n < |list| && ReadSoFar(rs, list, n, items, before, placed)
    requires list[n] in placed || !IsItem(rs, list[n])
    ensures ReadSoFar(rs, list, n + 1, items, before, placed)
  {
    hide Chosen, Deep, Opened, Listed;
    ChosenOne(list, n, items);
  }

  lemma {:induction false} ReadMore(rs: seq<Resource>, list: seq<nat>, n: nat, items: seq<Item>, item: Item,
    before: set<nat>, mid: set<nat>, placed: set<nat>)
    requires n < |list| && before <= mid && mid + {list[n]} <= placed && ReadSoFar(rs, list, n, items, before, mid)
    requires item.index == list[n] && DeepItem(rs, item) && Opened(rs, placed - mid, placed)
    requires multiset(ListedIn(item)) == multiset(placed - mid)
    ensures ReadSoFar(rs, list, n + 1, items + [item], before, placed)
    ensures Height(items + [item]) == Max(Height(items), HeightOf(item))
  {
    assert placed - before == (mid - before) + (placed - mid);
    hide Chosen, Deep, DeepItem, Opened, Listed, ListedIn, Height, HeightOf;
    ChosenOne(list, n, items);
    AppendItem(rs, items, item);
    OpenedBoth(rs, mid - before, mid, placed - mid, placed);
    assert multiset(placed - before) == multiset(mid - before) + multiset(placed - mid);
  }

  lemma {:induction false} ReadAll(rs: seq<Resource>, parent: string, list: seq<nat>, items: seq<Item>,
    before: set<nat>, placed: set<nat>)
    requires list == ChildrenOf(rs, parent) && ReadSoFar(rs, list, |list|, items, before, placed)
    ensures Leveled(rs, parent, items, before, placed)
  {
    hide Chosen, Deep, Opened, Listed, ChildrenOf, IsUnder, IsItem;
    assert list[..|list|] == list;
    AllPlaced(rs, parent, list, placed);
  }

  lemma {:induction false} ChosenOne(children: seq<nat>, n: nat, items: seq<Item>)
    requires n < |children| && Chosen(children[..n], items)
    ensures Chosen(children[..n + 1], items)
    ensures forall item: Item :: item.index == children[n] ==> Chosen(children[..n + 1], items + [item])
  {
    assert children[..n + 1][..n] == children[..n];
    forall item: Item | item.index == children[n] ensures Chosen(children[..n + 1], items + [item]) {
      assert (items + [item])[..|items|] == items;
    }
  }

  predicate DeepItem(rs: seq<Resource>, item: Item) {
    && IsItem(rs, item.index)
    && (item.FolderItem? <==> IsFolder(rs, item.index))
    && (item.FolderItem? ==> Nested(rs, rs[item.index].id, item.items))
  }

  lemma {:induction false} AppendItem(rs: seq<Resource>, items: seq<Item>, item: Item)
    ensures Listed(items + [item]) == Listed(items) + ListedIn(item)
    ensures Height(items + [item]) == Max(Height(items), HeightOf(item))
    ensures Deep(rs, items) && DeepItem(rs, item) ==> Deep(rs, items + [item])
  {
    assert (items + [item])[..|items|] == items;
  }

  lemma {:induction false} OpenedBoth(rs: seq<Resource>, a: set<nat>, placedA: set<nat>, b: set<nat>, placedB: set<nat>)
    requires Opened(rs, a, placedA) && placedA <= placedB && Opened(rs, b, placedB)
    ensures Opened(rs, a + b, placedB)
  {
  }

  /** The children of each parent named, and the parents in the order they are first named. */
  ghost predicate Grouped(rs: seq<Resource>, list: map<string, seq<nat>>, keys: seq<string>) {
    && keys == Parents(rs)
    && (forall p :: p in list <==> p in keys)
    && (forall p :: p in keys ==> list[p] == Under(rs, p))
    && (forall p :: p !in keys ==> Under(rs, p) == [])
  }

  /** What was read under a parent, and what has been placed by it. */
  ghost predicate Leveled(rs: seq<Resource>, parent: string, items: seq<Item>, before: set<nat>, placed: set<nat>) {
    && multiset(Listed(items)) == multiset(placed - before)
    && Nested(rs, parent, items)
    && (forall i :: IsUnder(rs, i, parent) ==> i in placed)
    && Opened(rs, placed - before, placed)
  }

  /** What is placed is on a tree, and so is what is under it. */
  ghost predicate Settled(rs: seq<Resource>, placed: set<nat>) {
    && placed <= Items(rs) && Opened(rs, placed, placed)
    && forall i :: i in placed ==> OnTree(rs, i)
  }

  /** The children of the workspaces among the first resources are placed. */
  ghost predicate WorkspacesDone(rs: seq<Resource>, n: nat, placed: set<nat>)
    requires n <= |rs|
  {
    forall k, i :: 0 <= k < n && rs[k].kind == Workspace && IsUnder(rs, i, rs[k].id) ==> i in placed
  }

  /** So are those of the parents that the file does not hold. */
  ghost predicate LooseDone(rs: seq<Resource>, parents: seq<string>, placed: set<nat>) {
    forall p, i :: p in parents && !Known(rs, p) && IsUnder(rs, i, p) ==> i in placed
  }

  /** More folders than there may be stand one in the other, from a root on. */
  ghost predicate IsTooDeep(rs: seq<Resource>) {
    exists root, chain :: IsRoot(rs, root) && |chain| == MAX_DEPTH && Chain(rs, root, chain, {})
  }

  class Reader {
    const resources: seq<Resource>
    /** For each parent named, its children sorted stably by sort key. */
    var children: map<string, seq<nat>>
    /** The parents, in the order the file first names them. */
    var parents: seq<string>
    var placed: set<nat>

    ghost predicate Valid()
      reads `children, `parents
    {
      && (forall p :: p in children <==> p in parents)
      && (forall p :: p in parents ==> children[p] == Sort(KeyOrder(resources), Under(resources, p)))
      && (forall p :: p !in parents ==> Under(resources, p) == [])
      && parents == Parents(resources)
    }

    constructor (resources: seq<Resource>)
      ensures this.resources == resources && placed == {} && Valid()
    {
      var list, keys := Group(resources);
      var sorted := SortEach(resources, list, keys);
      this.resources := resources;
      children := sorted;
      parents := keys;
      placed := {};
    }

    /** Each parent's children by their sort keys. */
    static method SortEach(resources: seq<Resource>, list: map<string, seq<nat>>, keys: seq<string>)
      returns (sorted: map<string, seq<nat>>)
      requires forall p :: p in list <==> p in keys
      ensures forall p :: p in sorted <==> p in keys
      ensures forall p :: p in keys ==> sorted[p] == Sort(KeyOrder(resources), list[p])
    {
      hide Sort, KeyOrder;
      sorted := list;
      for k := 0 to |keys|
        invariant forall p :: p in sorted <==> p in keys
        invariant forall p :: p in keys ==>
          sorted[p] == if p in keys[..k] then Sort(KeyOrder(resources), list[p]) else list[p]
      {
        var p := keys[k];
        assert keys[..k + 1] == keys[..k] + [p];
        if p !in keys[..k] {
          sorted := sorted[p := Sort(KeyOrder(resources), sorted[p])];
        }
      }
      assert keys[..|keys|] == keys;
    }

    /** The resources by the parent they name. */
    static method Group(resources: seq<Resource>) returns (list: map<string, seq<nat>>, keys: seq<string>)
      ensures Grouped(resources, list, keys)
    {
      list, keys := map[], [];
      for n := 0 to |resources|
        invariant Grouped(resources[..n], list, keys)
      {
        hide Grouped;
        var parent := resources[n].parent;
        GroupedNext(resources, n, list, keys);
        if parent !in list {
          keys := keys + [parent];
        }
        list := list[parent := (if parent in list then list[parent] else []) + [n]];
      }
      assert resources[..|resources|] == resources;
    }

    /** What is placed under a parent, at a depth; when folders nest too deep, a chain of them that does. */
    method Level(parent: string, depth: nat) returns (read: Result<seq<Item>, Error>, ghost chain: seq<nat>)
      requires Valid() && placed <= Items(resources) && 1 <= depth <= MAX_DEPTH + 1
      modifies `placed
      ensures Valid() && old(placed) <= placed <= Items(resources)
      ensures read.Ok? ==>
        && depth <= MAX_DEPTH && Height(read.value) <= MAX_DEPTH - depth
        && Leveled(resources, parent, read.value, old(placed), placed)
      ensures read.Err? ==> |chain| == MAX_DEPTH + 1 - depth && Chain(resources, parent, chain, old(placed))
      decreases MAX_DEPTH + 1 - depth, 1
    {
      hide ReadSoFar, DeepItem, Leveled, Height, ListedIn, HeightOf, Opened, Chain, ChildrenOf, IsUnder, Items, Valid;
      chain := [];
      if depth > MAX_DEPTH {
        NoChain(resources, parent, placed);
        return Err(TooDeep), chain;
      }
      var list := if parent == "" || parent !in children then [] else children[parent];
      ListIsChildren(parent, list);
      var items := [];
      NothingListed(resources, list, placed);
      for n := 0 to |list|
        invariant Valid() && old(placed) <= placed <= Items(resources)
        invariant ReadSoFar(resources, list, n, items, old(placed), placed) && Height(items) <= MAX_DEPTH - depth
      {
        var source := list[n];
        if source !in placed && IsItem(resources, source) {
          ghost var before := placed;
          ChildIsUnder(resources, parent, source);
          var item, inner := Place(source, depth);
          if item.Err? {
            chain := [source] + inner;
            ChainLoosens(resources, resources[source].id, inner, before + {source}, old(placed) + {source});
            ChainGrows(resources, parent, source, inner, old(placed));
            return Err(item.error), chain;
          }
          ReadMore(resources, list, n, items, item.value, old(placed), before, placed);
          items := items + [item.value];
        } else {
          ReadSkip(resources, list, n, items, old(placed), placed);
        }
      }
      read := Ok(items);
      ReadAll(resources, parent, list, items, old(placed), placed);
    }

    /** One request or folder that is not placed yet, with all that goes under it. */
    method Place(source: nat, depth: nat) returns (read: Result<Item, Error>, ghost chain: seq<nat>)
      requires Valid() && placed <= Items(resources) && 1 <= depth <= MAX_DEPTH
      requires IsItem(resources, source) && source !in placed
      modifies `placed
      ensures Valid() && old(placed) + {source} <= placed <= Items(resources)
      ensures read.Ok? ==>
        && read.value.index == source
        && multiset(ListedIn(read.value)) == multiset(placed - old(placed))
        && DeepItem(resources, read.value)
        && HeightOf(read.value) <= MAX_DEPTH - depth
        && Opened(resources, placed - old(placed), placed)
      ensures read.Err? ==>
        && IsFolder(resources, source)
        && |chain| == MAX_DEPTH - depth
        && Chain(resources, resources[source].id, chain, old(placed) + {source})
      decreases MAX_DEPTH + 1 - depth, 0
    {
      hide Deep, Nested, Chain, Valid;
      placed := placed + {source};
      ghost var before := placed;
      if resources[source].kind == Request {
        assert placed - old(placed) == {source};
        return Ok(RequestItem(source)), [];
      }
      var items;
      items, chain := Level(resources[source].id, depth + 1);
      if items.Err? {
        return Err(items.error), chain;
      }
      assert placed - old(placed) == {source} + (placed - before);
      read := Ok(FolderItem(source, items.value));
    }

    /** The items of each workspace, in the order of the workspaces. */
    method ReadWorkspaces() returns (read: Result<seq<seq<Item>>, Error>)
      requires Valid() && placed == {}
      modifies `placed
      ensures Valid()
      ensures read.Ok? ==>
        && Placed(resources, WorkspaceIds(resources), read.value)
        && multiset(AllListed(read.value)) == multiset(placed)
        && Settled(resources, placed) && WorkspacesDone(resources, |resources|, placed)
      ensures read.Err? ==> IsTooDeep(resources)
    {
      hide Placed, Chain, Valid, Settled, WorkspacesDone, Leveled, AllListed, Height, WorkspaceIds, IsTooDeep;
      var collections: seq<seq<Item>> := [];
      NothingPlaced(resources);
      for w := 0 to |resources|
        invariant Valid()
        invariant Placed(resources, WorkspaceIds(resources[..w]), collections)
        invariant multiset(AllListed(collections)) == multiset(placed)
        invariant Settled(resources, placed) && WorkspacesDone(resources, w, placed)
      {
        OneMoreResource(resources, w, placed);
        if resources[w].kind == Workspace {
          ghost var before := placed;
          SettledAreItems(resources, placed);
          var items, chain := Level(resources[w].id, 1);
          if items.Err? {
            RootOfChain(resources, w, chain, before);
            return Err(items.error);
          }
          WorkspaceRead(resources, w, collections, items.value, before, placed);
          collections := collections + [items.value];
        }
      }
      assert resources[..|resources|] == resources;
      read := Ok(collections);
    }

    /** The second pass: a level for each unheld parent, in the order of `Parents`. */
    method ReadLoose() returns (read: Result<seq<Item>, Error>)
      requires Valid() && Settled(resources, placed)
      modifies `placed
      ensures Valid()
      ensures read.Ok? ==>
        && Loose(resources, Parents(resources), read.value)
        && old(placed) <= placed && multiset(Listed(read.value)) == multiset(placed - old(placed))
        && Settled(resources, placed) && LooseDone(resources, Parents(resources), placed)
      ensures read.Err? ==> IsTooDeep(resources)
    {
      assert parents == Parents(resources);
      hide Loose, Chain, Valid, Settled, LooseDone, Known, Leveled, Listed, Height, IsTooDeep, Parents;
      var loose: seq<Item> := [];
      NothingLoose(resources, placed);
      for p := 0 to |parents|
        invariant Valid() && old(placed) <= placed && Settled(resources, placed)
        invariant Loose(resources, parents[..p], loose)
        invariant multiset(Listed(loose)) == multiset(placed - old(placed))
        invariant LooseDone(resources, parents[..p], placed)
      {
        var parent := parents[p];
        ghost var before := placed;
        if parent != "" && !Known(resources, parent) {
          SettledAreItems(resources, placed);
          var items, chain := Level(parent, 1);
          if items.Err? {
            LooseChain(resources, parent, chain, before);
            return Err(items.error);
          }
          LooseRead(resources, parents, p, loose, items.value, old(placed), before, placed);
          loose := loose + items.value;
        } else {
          NoneRead(resources, parents, p, loose, placed);
        }
      }
      assert parents[..|parents|] == parents;
      read := Ok(loose);
    }

    /** Everything the file holds, placed; or folders nest too deep. */
    method ReadFormat4() returns (read: Result<Format4, Error>)
      requires Valid() && placed == {}
      modifies `placed
      ensures read.Ok? ==>
        && IsRead(resources, read.value.collections, read.value.loose, placed)
        && read.value.unplaced == |Items(resources) - placed|
      ensures read.Err? ==> IsTooDeep(resources)
      ensures OneId(resources) ==> (read.Err? <==> IsTooDeep(resources))
    {
      hide Placed, Loose, Valid, Settled, WorkspacesDone, LooseDone, IsTooDeep, OneId, Listed, AllListed, WorkspaceIds,
        Parents, IsRead;
      var collections := ReadWorkspaces();
      if collections.Err? {
        return Err(collections.error);
      }
      ghost var before := placed;
      var loose := ReadLoose();
      if loose.Err? {
        return Err(loose.error);
      }
      MoreDone(resources, |resources|, before, placed);
      AllRead(resources, collections.value, loose.value, before, placed);
      if OneId(resources) {
        NotTooDeep(resources, collections.value, loose.value, placed);
      }
      var unplaced := CountUnplaced();
      read := Ok(Format4(collections.value, loose.value, unplaced));
    }

    method CountUnplaced() returns (count: nat)
      ensures count == |Items(resources) - placed|
    {
      count := 0;
      ghost var left: set<nat> := {};
      for n := 0 to |resources|
        invariant count == |left| && left == set i: nat | i < n && IsItem(resources, i) && i !in placed
      {
        if IsItem(resources, n) && n !in placed {
          count := count + 1;
          left := left + {n};
        }
      }
      assert left == Items(resources) - placed;
    }

    lemma {:induction false} ListIsChildren(parent: string, list: seq<nat>)
      requires Valid() && list == if parent == "" || parent !in children then [] else children[parent]
      ensures list == ChildrenOf(resources, parent)
    {
      hide Under, KeyOrder;
    }
  }

  lemma {:induction false} UnderNext(rs: seq<Resource>, n: nat, p: string)
    requires n < |rs|
    ensures Under(rs[..n + 1], p) == if rs[n].parent == p then Under(rs[..n], p) + [n] else Under(rs[..n], p)
  {
    assert rs[..n + 1][..n] == rs[..n];
  }

  lemma {:induction false} ParentsNext(rs: seq<Resource>, n: nat)
    requires n < |rs|
    ensures var before := Parents(rs[..n]);
            Parents(rs[..n + 1]) == if rs[n].parent in before then before else before + [rs[n].parent]
  {
    assert rs[..n + 1][..n] == rs[..n];
  }

  lemma {:induction false} GroupedNext(rs: seq<Resource>, n: nat, list: map<string, seq<nat>>, keys: seq<string>)
    requires n < |rs| && Grouped(rs[..n], list, keys)
    ensures var parent := rs[n].parent;
            Grouped(rs[..n + 1], list[parent := (if parent in list then list[parent] else []) + [n]],
              if parent in list then keys else keys + [parent])
  {
    ParentsNext(rs, n);
    hide Under, Parents;
    forall p {
      UnderNext(rs, n, p);
    }
  }

  lemma {:induction false} ChildIsUnder(rs: seq<Resource>, parent: string, i: nat)
    requires i in ChildrenOf(rs, parent) && IsItem(rs, i)
    ensures IsUnder(rs, i, parent)
  {
    ChildrenAre(rs, parent);
  }

  lemma {:induction false} AllPlaced(rs: seq<Resource>, parent: string, list: seq<nat>, placed: set<nat>)
    requires list == ChildrenOf(rs, parent)
    requires forall k :: 0 <= k < |list| && IsItem(rs, list[k]) ==> list[k] in placed
    ensures forall i :: IsUnder(rs, i, parent) ==> i in placed
  {
    ChildrenAre(rs, parent);
    forall i | IsUnder(rs, i, parent) ensures i in placed {
      assert i in list;
    }
  }

  lemma {:induction false} NoChain(rs: seq<Resource>, parent: string, placed: set<nat>)
    ensures Chain(rs, parent, [], placed)
  {
  }

  lemma {:induction false} ChainLoosens(rs: seq<Resource>, parent: string, chain: seq<nat>, placed: set<nat>,
    fewer: set<nat>)
    requires Chain(rs, parent, chain, placed) && fewer <= placed
    ensures Chain(rs, parent, chain, fewer)
  {
  }

  // ---- What is on the tree ----

  lemma {:induction false} ReachedIsPlaced(rs: seq<Resource>, placed: set<nat>, n: nat)
    requires Opened(rs, placed, placed) && forall i :: IsUnderRoot(rs, i) ==> i in placed
    ensures Reached(rs, n) <= placed
  {
    if n > 0 {
      ReachedIsPlaced(rs, placed, n - 1);
      forall i | i in Reached(rs, n) ensures i in placed {
        if i !in Reached(rs, n - 1) {
          var k :| k in Reached(rs, n - 1) && IsUnderFolder(rs, i, k);
        }
      }
    }
  }

  lemma {:induction false} ChosenIsUnder(children: seq<nat>, items: seq<Item>, k: nat)
    requires Chosen(children, items) && k < |items|
    ensures items[k].index in children
    decreases |children|
  {
    var front := children[..|children| - 1];
    if Chosen(front, items) {
      ChosenIsUnder(front, items, k);
    } else if k < |items| - 1 {
      ChosenIsUnder(front, items[..|items| - 1], k);
    }
  }

  lemma {:induction false} NestedIsUnder(rs: seq<Resource>, parent: string, items: seq<Item>, k: nat)
    requires Nested(rs, parent, items) && k < |items|
    ensures IsUnder(rs, items[k].index, parent)
  {
    ChosenIsUnder(ChildrenOf(rs, parent), items, k);
    ChildIsUnder(rs, parent, items[k].index);
  }

  lemma {:induction false} DeepIsReached(rs: seq<Resource>, items: seq<Item>, n: nat, i: nat)
    requires Deep(rs, items) && i in Listed(items)
    requires forall k :: 0 <= k < |items| ==> items[k].index in Reached(rs, n)
    ensures OnTree(rs, i)
    decreases items
  {
    var (front, last) := (items[..|items| - 1], items[|items| - 1]);
    DeepFront(rs, items);
    DeepHolds(rs, items, |items| - 1);
    assert i in Listed(front) || i in ListedIn(last);
    hide Deep, Nested, Reached, IsFolder;
    if i in Listed(front) {
      DeepIsReached(rs, front, n, i);
    } else if i != last.index {
      forall k | 0 <= k < |last.items| ensures last.items[k].index in Reached(rs, n + 1) {
        NestedIsUnder(rs, rs[last.index].id, last.items, k);
        NextReached(rs, last.items[k].index, last.index, n);
      }
      DeepIsReached(rs, last.items, n + 1, i);
    }
  }

  lemma {:induction false} DeepFront(rs: seq<Resource>, items: seq<Item>)
    requires Deep(rs, items) && items != []
    ensures Deep(rs, items[..|items| - 1])
  {
  }

  lemma {:induction false} NextReached(rs: seq<Resource>, i: nat, folder: nat, n: nat)
    requires folder in Reached(rs, n) && IsUnderFolder(rs, i, folder)
    ensures i in Reached(rs, n + 1)
  {
    assert i in Items(rs);
  }

  lemma {:induction false} NestedIsReached(rs: seq<Resource>, parent: string, items: seq<Item>, these: set<nat>)
    requires IsRoot(rs, parent) && Nested(rs, parent, items) && multiset(Listed(items)) == multiset(these)
    ensures forall i :: i in these ==> OnTree(rs, i)
  {
    hide IsRoot, Listed;
    forall k | 0 <= k < |items| ensures items[k].index in Reached(rs, 0) {
      NestedIsUnder(rs, parent, items, k);
      assert items[k].index in Items(rs);
    }
    forall i | i in these ensures OnTree(rs, i) {
      assert i in multiset(Listed(items));
      DeepIsReached(rs, items, 0, i);
    }
  }

  lemma {:induction false} WorkspaceReached(rs: seq<Resource>, w: nat, items: seq<Item>, these: set<nat>)
    requires w < |rs| && rs[w].kind == Workspace
    requires Nested(rs, rs[w].id, items) && multiset(Listed(items)) == multiset(these)
    ensures forall i :: i in these ==> OnTree(rs, i)
  {
    if rs[w].id == "" {
      assert items == [];
      assert forall i :: i in these ==> i in multiset(these);
    } else {
      NestedIsReached(rs, rs[w].id, items, these);
    }
  }

  lemma {:induction false} UnknownReached(rs: seq<Resource>, parent: string, items: seq<Item>, these: set<nat>)
    requires parent != "" && !Known(rs, parent)
    requires Nested(rs, parent, items) && multiset(Listed(items)) == multiset(these)
    ensures forall i :: i in these ==> OnTree(rs, i)
  {
    NestedIsReached(rs, parent, items, these);
  }

  // ---- One tree more ----

  lemma {:induction false} NothingPlaced(rs: seq<Resource>)
    ensures Placed(rs, WorkspaceIds(rs[..0]), []) && AllListed([]) == []
    ensures Settled(rs, {}) && WorkspacesDone(rs, 0, {})
  {
  }

  lemma {:induction false} SettledAreItems(rs: seq<Resource>, placed: set<nat>)
    requires Settled(rs, placed)
    ensures placed <= Items(rs)
  {
  }

  lemma {:induction false} OneMoreResource(rs: seq<Resource>, n: nat, placed: set<nat>)
    requires n < |rs| && WorkspacesDone(rs, n, placed)
    ensures WorkspaceIds(rs[..n + 1])
         == if rs[n].kind == Workspace then WorkspaceIds(rs[..n]) + [rs[n].id] else WorkspaceIds(rs[..n])
    ensures rs[n].kind != Workspace ==> WorkspacesDone(rs, n + 1, placed)
  {
    assert rs[..n + 1][..n] == rs[..n];
  }

  lemma {:induction false} MoreDone(rs: seq<Resource>, n: nat, before: set<nat>, placed: set<nat>)
    requires n <= |rs| && WorkspacesDone(rs, n, before) && before <= placed
    ensures WorkspacesDone(rs, n, placed)
  {
  }

  lemma {:induction false} OneMoreCollection(rs: seq<Resource>, ids: seq<string>, id: string, before: seq<seq<Item>>,
    items: seq<Item>)
    requires Placed(rs, ids, before) && Nested(rs, id, items) && Height(items) < MAX_DEPTH
    ensures Placed(rs, ids + [id], before + [items])
    ensures AllListed(before + [items]) == AllListed(before) + Listed(items)
  {
    hide Nested, Height;
    assert (before + [items])[..|before|] == before;
  }

  lemma {:induction false} SettledMore(rs: seq<Resource>, before: set<nat>, placed: set<nat>)
    requires Settled(rs, before) && before <= placed <= Items(rs) && Opened(rs, placed - before, placed)
    requires forall i :: i in placed - before ==> OnTree(rs, i)
    ensures Settled(rs, placed)
  {
    assert before + (placed - before) == placed;
    OpenedBoth(rs, before, before, placed - before, placed);
    hide Opened, OnTree, Items;
    assert forall i :: i in placed ==> i in before || i in placed - before;
  }

  lemma {:induction false} OneMoreDone(rs: seq<Resource>, w: nat, before: set<nat>, placed: set<nat>)
    requires w < |rs| && WorkspacesDone(rs, w, before) && before <= placed
    requires forall i :: IsUnder(rs, i, rs[w].id) ==> i in placed
    ensures WorkspacesDone(rs, w + 1, placed)
  {
    hide IsUnder;
  }

  lemma {:induction false} WorkspaceRead(rs: seq<Resource>, w: nat, collections: seq<seq<Item>>, items: seq<Item>,
    before: set<nat>, placed: set<nat>)
    requires w < |rs| && rs[w].kind == Workspace && Height(items) < MAX_DEPTH && before <= placed <= Items(rs)
    requires Leveled(rs, rs[w].id, items, before, placed)
    requires Placed(rs, WorkspaceIds(rs[..w]), collections) && multiset(AllListed(collections)) == multiset(before)
    requires Settled(rs, before) && WorkspacesDone(rs, w, before)
    ensures Placed(rs, WorkspaceIds(rs[..w]) + [rs[w].id], collections + [items])
    ensures multiset(AllListed(collections + [items])) == multiset(placed)
    ensures Settled(rs, placed) && WorkspacesDone(rs, w + 1, placed)
  {
    assert before + (placed - before) == placed;
    hide Placed, Settled, Items, Opened, Nested, Height, AllListed, Listed, WorkspaceIds, IsUnder, OnTree,
      WorkspacesDone;
    assert WorkspacesDone(rs, w + 1, placed) by {
      OneMoreDone(rs, w, before, placed);
    }
    OneMoreCollection(rs, WorkspaceIds(rs[..w]), rs[w].id, collections, items);
    WorkspaceReached(rs, w, items, placed - before);
    SettledMore(rs, before, placed);
    assert multiset(before) + multiset(placed - before) == multiset(placed);
  }

  lemma {:induction false} ListedConcat(a: seq<Item>, b: seq<Item>)
    ensures Listed(a + b) == Listed(a) + Listed(b)
    ensures Height(a + b) == Max(Height(a), Height(b))
  {
    hide ListedIn, HeightOf;
    if b == [] {
      assert a + b == a;
    } else {
      var (front, last) := (b[..|b| - 1], b[|b| - 1]);
      ListedConcat(a, front);
      assert (a + b)[..|a + b| - 1] == a + front && (a + b)[|a + b| - 1] == last;
      assert Listed(a + b) == Listed(a + front) + ListedIn(last);
      assert Height(a + b) == Max(Height(a + front), HeightOf(last));
    }
  }

  lemma {:induction false} ChosenConcat(a: seq<nat>, x: seq<Item>, b: seq<nat>, y: seq<Item>)
    requires Chosen(a, x) && Chosen(b, y)
    ensures Chosen(a + b, x + y)
    decreases |b|
  {
    if b == [] {
      assert a + b == a && x + y == x;
    } else {
      var (front, last) := (b[..|b| - 1], b[|b| - 1]);
      assert (a + b)[..|a + b| - 1] == a + front;
      if Chosen(front, y) {
        ChosenConcat(a, x, front, y);
      } else {
        ChosenConcat(a, x, front, y[..|y| - 1]);
        assert (x + y)[..|x + y| - 1] == x + y[..|y| - 1];
      }
    }
  }

  lemma {:induction false} NothingLoose(rs: seq<Resource>, placed: set<nat>)
    ensures forall parents: seq<string> :: Loose(rs, parents[..0], []) && LooseDone(rs, parents[..0], placed)
    ensures Listed([]) == [] && placed - placed == {}
  {
  }

  lemma {:induction false} NextLoose(rs: seq<Resource>, parents: seq<string>, n: nat)
    requires n < |parents|
    ensures LooseUnder(rs, parents[..n + 1])
         == if parents[n] == "" || Known(rs, parents[n]) then LooseUnder(rs, parents[..n])
            else LooseUnder(rs, parents[..n]) + ChildrenOf(rs, parents[n])
    ensures forall p :: p in parents[..n + 1] <==> p in parents[..n] || p == parents[n]
  {
    assert parents[..n + 1] == parents[..n] + [parents[n]];
    hide Known, ChildrenOf;
  }

  lemma {:induction false} DeepConcat(rs: seq<Resource>, a: seq<Item>, b: seq<Item>)
    requires Deep(rs, a) && Deep(rs, b)
    ensures Deep(rs, a + b)
  {
    hide Nested;
  }

  lemma {:induction false} MoreLoose(rs: seq<Resource>, parents: seq<string>, n: nat, loose: seq<Item>,
    items: seq<Item>)
    requires n < |parents| && Loose(rs, parents[..n], loose) && parents[n] != "" && !Known(rs, parents[n])
    requires Nested(rs, parents[n], items) && Height(items) < MAX_DEPTH
    ensures Loose(rs, parents[..n + 1], loose + items)
    ensures Listed(loose + items) == Listed(loose) + Listed(items)
  {
    ListedConcat(loose, items);
    NextLoose(rs, parents, n);
    ChosenConcat(LooseUnder(rs, parents[..n]), loose, ChildrenOf(rs, parents[n]), items);
    hide LooseUnder, Chosen, ChildrenOf, Listed, Height, Known, Unheld;
    NestedIsDeep(rs, parents[n], items);
    DeepConcat(rs, loose, items);
    NestedIsUnheld(rs, parents[n], items);
    UnheldConcat(rs, loose, items);
    hide Deep, Nested;
  }

  lemma {:induction false} NestedIsUnheld(rs: seq<Resource>, parent: string, items: seq<Item>)
    requires Nested(rs, parent, items) && parent != "" && !Known(rs, parent)
    ensures Unheld(rs, items)
  {
    forall k | 0 <= k < |items| ensures IsUnder(rs, items[k].index, parent) {
      NestedIsUnder(rs, parent, items, k);
    }
    hide Nested, Known;
  }

  lemma {:induction false} UnheldConcat(rs: seq<Resource>, a: seq<Item>, b: seq<Item>)
    requires Unheld(rs, a) && Unheld(rs, b)
    ensures Unheld(rs, a + b)
  {
    hide Known;
  }

  lemma {:induction false} LooseRead(rs: seq<Resource>, parents: seq<string>, n: nat, loose: seq<Item>,
    items: seq<Item>, start: set<nat>, before: set<nat>, placed: set<nat>)
    requires n < |parents| && parents[n] != "" && !Known(rs, parents[n]) && Height(items) < MAX_DEPTH
    requires Leveled(rs, parents[n], items, before, placed) && start <= before <= placed <= Items(rs)
    requires Loose(rs, parents[..n], loose) && multiset(Listed(loose)) == multiset(before - start)
    requires Settled(rs, before) && LooseDone(rs, parents[..n], before)
    ensures Loose(rs, parents[..n + 1], loose + items)
    ensures multiset(Listed(loose + items)) == multiset(placed - start)
    ensures Settled(rs, placed) && LooseDone(rs, parents[..n + 1], placed)
  {
    assert (before - start) + (placed - before) == placed - start;
    NextLoose(rs, parents, n);
    hide Loose, Settled, Items, Opened, Nested, Height, Listed, IsUnder, OnTree, Known, LooseUnder;
    MoreLoose(rs, parents, n, loose, items);
    UnknownReached(rs, parents[n], items, placed - before);
    SettledMore(rs, before, placed);
    assert multiset(before - start) + multiset(placed - before) == multiset(placed - start);
  }

  lemma {:induction false} NoneRead(rs: seq<Resource>, parents: seq<string>, n: nat, loose: seq<Item>, placed: set<nat>)
    requires n < |parents| && (parents[n] == "" || Known(rs, parents[n]))
    requires Loose(rs, parents[..n], loose) && LooseDone(rs, parents[..n], placed)
    ensures Loose(rs, parents[..n + 1], loose) && LooseDone(rs, parents[..n + 1], placed)
  {
    NextLoose(rs, parents, n);
    hide LooseUnder, Chosen, Deep, Height, Known;
  }

  lemma {:induction false} RootOfChain(rs: seq<Resource>, w: nat, chain: seq<nat>, placed: set<nat>)
    requires w < |rs| && rs[w].kind == Workspace && Chain(rs, rs[w].id, chain, placed) && |chain| == MAX_DEPTH
    ensures IsTooDeep(rs)
  {
    assert IsRoot(rs, rs[w].id) && Chain(rs, rs[w].id, chain, {});
  }

  lemma {:induction false} LooseChain(rs: seq<Resource>, parent: string, chain: seq<nat>, placed: set<nat>)
    requires parent != "" && !Known(rs, parent) && Chain(rs, parent, chain, placed) && |chain| == MAX_DEPTH
    ensures IsTooDeep(rs)
  {
    assert IsRoot(rs, parent) && Chain(rs, parent, chain, {});
  }

  // ---- All that is read ----

  /** Each workspace has its items, the rest is loose, and what is placed is what is on a tree, each once. */
  ghost predicate IsRead(rs: seq<Resource>, collections: seq<seq<Item>>, loose: seq<Item>, placed: set<nat>) {
    && Placed(rs, WorkspaceIds(rs), collections)
    && Loose(rs, Parents(rs), loose)
    && multiset(AllListed(collections) + Listed(loose)) == multiset(placed)
    && forall i :: i in placed <==> OnTree(rs, i)
  }

  lemma {:induction false} ParentsAre(rs: seq<Resource>)
    ensures forall i :: 0 <= i < |rs| ==> rs[i].parent in Parents(rs)
  {
    if rs != [] {
      ParentsAre(rs[..|rs| - 1]);
      assert forall i :: 0 <= i < |rs| - 1 ==> rs[..|rs| - 1][i] == rs[i];
    }
  }

  lemma {:induction false} RootsArePlaced(rs: seq<Resource>, placed: set<nat>, i: nat)
    requires WorkspacesDone(rs, |rs|, placed) && LooseDone(rs, Parents(rs), placed) && IsUnderRoot(rs, i)
    ensures i in placed
  {
    var parent := rs[i].parent;
    assert IsUnder(rs, i, parent);
    ParentsAre(rs);
    if IsWorkspace(rs, parent) {
      var w :| 0 <= w < |rs| && rs[w].kind == Workspace && rs[w].id == parent;
    }
  }

  lemma {:induction false} AllRead(rs: seq<Resource>, collections: seq<seq<Item>>, loose: seq<Item>, before: set<nat>,
    placed: set<nat>)
    requires Placed(rs, WorkspaceIds(rs), collections) && multiset(AllListed(collections)) == multiset(before)
    requires Loose(rs, Parents(rs), loose) && before <= placed && multiset(Listed(loose)) == multiset(placed - before)
    requires Settled(rs, placed) && WorkspacesDone(rs, |rs|, placed) && LooseDone(rs, Parents(rs), placed)
    ensures IsRead(rs, collections, loose, placed)
  {
    hide Placed, Loose, WorkspacesDone, LooseDone, Items, Parents, WorkspaceIds, AllListed, Listed, IsUnderRoot,
      Reached;
    forall i: nat | IsUnderRoot(rs, i) ensures i in placed {
      RootsArePlaced(rs, placed, i);
    }
    forall i: nat | OnTree(rs, i) ensures i in placed {
      var n: nat :| i in Reached(rs, n);
      ReachedIsPlaced(rs, placed, n);
    }
    assert multiset(before) + multiset(placed - before) == multiset(placed);
  }

  // ---- Too deep ----

  predicate IsParent(rs: seq<Resource>, i: nat) {
    i < |rs| && (rs[i].kind == Workspace || rs[i].kind == RequestGroup)
  }

  /** No two workspaces or folders share an id. */
  ghost predicate OneId(rs: seq<Resource>) {
    forall i: nat, k: nat :: IsParent(rs, i) && IsParent(rs, k) && rs[i].id == rs[k].id ==> i == k || rs[i].id == ""
  }

  /** The item stands this deep in the list: at one when it is in the list itself. */
  predicate StandsAt(items: seq<Item>, i: nat, depth: nat)
    decreases depth
  {
    if depth <= 1 then depth == 1 && exists k :: 0 <= k < |items| && items[k].index == i
    else exists k :: 0 <= k < |items| && items[k].FolderItem? && StandsAt(items[k].items, i, depth - 1)
  }

  lemma {:induction false} ListedStands(items: seq<Item>, i: nat) returns (depth: nat)
    requires i in Listed(items)
    ensures depth > 0 && StandsAt(items, i, depth)
    decreases items
  {
    var (front, last) := (items[..|items| - 1], items[|items| - 1]);
    if i in Listed(front) {
      depth := ListedStands(front, i);
      StandsInMore(front, items, i, depth);
    } else if last.index == i {
      depth := 1;
    } else {
      var inner := ListedStands(last.items, i);
      depth := inner + 1;
      StandsIn(items, |items| - 1, i, inner);
    }
  }

  lemma {:induction false} StandsInMore(front: seq<Item>, items: seq<Item>, i: nat, depth: nat)
    requires StandsAt(front, i, depth) && |front| <= |items| && front == items[..|front|]
    ensures StandsAt(items, i, depth)
  {
    if depth == 1 {
      var k :| 0 <= k < |front| && front[k].index == i;
      assert items[k].index == i;
    } else {
      var k :| 0 <= k < |front| && front[k].FolderItem? && StandsAt(front[k].items, i, depth - 1);
      assert items[k] == front[k];
    }
  }

  lemma {:induction false} ItemHeight(items: seq<Item>, k: nat)
    requires k < |items|
    ensures HeightOf(items[k]) <= Height(items)
  {
    hide HeightOf;
    if k < |items| - 1 {
      ItemHeight(items[..|items| - 1], k);
    }
  }

  lemma {:induction false} TopItem(items: seq<Item>, i: nat) returns (k: nat)
    requires StandsAt(items, i, 1)
    ensures k < |items| && items[k].index == i
  {
    k :| 0 <= k < |items| && items[k].index == i;
  }

  lemma {:induction false} InnerItem(items: seq<Item>, i: nat, depth: nat) returns (k: nat)
    requires depth > 1 && StandsAt(items, i, depth)
    ensures k < |items| && items[k].FolderItem? && StandsAt(items[k].items, i, depth - 1)
  {
    k :| 0 <= k < |items| && items[k].FolderItem? && StandsAt(items[k].items, i, depth - 1);
  }

  lemma {:induction false} DeepHolds(rs: seq<Resource>, items: seq<Item>, k: nat)
    requires Deep(rs, items) && k < |items|
    ensures items[k].FolderItem? <==> IsFolder(rs, items[k].index)
    ensures items[k].FolderItem? ==> Nested(rs, rs[items[k].index].id, items[k].items) && Deep(rs, items[k].items)
  {
    if items[k].FolderItem? {
      NestedIsDeep(rs, rs[items[k].index].id, items[k].items);
    }
  }

  lemma {:induction false} StandsSomewhere(items: seq<Item>, i: nat, depth: nat)
    requires StandsAt(items, i, depth)
    ensures depth > 0
  {
  }

  /** A folder that stands so deep makes the list that high. */
  lemma {:induction false} FolderHeight(rs: seq<Resource>, items: seq<Item>, i: nat, depth: nat)
    requires Deep(rs, items) && IsFolder(rs, i) && StandsAt(items, i, depth)
    ensures depth <= Height(items)
    decreases depth
  {
    hide Deep, Nested, StandsAt, Height, IsFolder;
    StandsSomewhere(items, i, depth);
    if depth == 1 {
      var k := TopItem(items, i);
      DeepHolds(rs, items, k);
      ItemHeight(items, k);
    } else {
      var k := InnerItem(items, i, depth);
      DeepHolds(rs, items, k);
      FolderHeight(rs, items[k].items, i, depth - 1);
      ItemHeight(items, k);
    }
  }

  /** What stands in a folder of the list is under a folder that stands one less deep. */
  lemma {:induction false} StandsUnder(rs: seq<Resource>, items: seq<Item>, i: nat, depth: nat) returns (folder: nat)
    requires Deep(rs, items) && depth > 1 && StandsAt(items, i, depth)
    ensures StandsAt(items, folder, depth - 1) && IsUnderFolder(rs, i, folder)
    decreases depth
  {
    hide Deep, Nested, StandsAt, IsUnder;
    var k := InnerItem(items, i, depth);
    var inner := items[k].items;
    DeepHolds(rs, items, k);
    if depth == 2 {
      var j := TopItem(inner, i);
      NestedIsUnder(rs, rs[items[k].index].id, inner, j);
      folder := items[k].index;
      StandsThere(items, k);
    } else {
      folder := StandsUnder(rs, inner, i, depth - 1);
      StandsIn(items, k, folder, depth - 2);
    }
  }

  lemma {:induction false} StandsThere(items: seq<Item>, k: nat)
    requires k < |items|
    ensures StandsAt(items, items[k].index, 1)
  {
  }

  lemma {:induction false} StandsIn(items: seq<Item>, k: nat, i: nat, depth: nat)
    requires k < |items| && items[k].FolderItem? && StandsAt(items[k].items, i, depth) && depth > 0
    ensures StandsAt(items, i, depth + 1)
  {
  }

  /** A list of items whose own items are under no folder. */
  ghost predicate TopOnly(rs: seq<Resource>, items: seq<Item>) {
    forall k, f :: 0 <= k < |items| ==> !IsUnderFolder(rs, items[k].index, f)
  }

  lemma {:induction false} OneFolder(rs: seq<Resource>, i: nat, f: nat, g: nat)
    requires OneId(rs) && IsUnderFolder(rs, i, f) && IsUnderFolder(rs, i, g)
    ensures f == g
  {
    assert IsParent(rs, f) && IsParent(rs, g);
  }

  lemma {:induction false} ChainLink(rs: seq<Resource>, root: string, chain: seq<nat>, k: nat)
    requires Chain(rs, root, chain, {}) && 0 < k < |chain|
    ensures IsUnderFolder(rs, chain[k], chain[k - 1])
  {
  }

  lemma {:induction false} ChainStands(rs: seq<Resource>, items: seq<Item>, root: string, chain: seq<nat>, k: nat,
    depth: nat)
    requires OneId(rs) && Deep(rs, items) && TopOnly(rs, items) && Chain(rs, root, chain, {})
    requires k < |chain| && StandsAt(items, chain[k], depth)
    ensures depth >= k + 1
    decreases k
  {
    hide Deep, StandsAt, OneId, TopOnly, Chain, IsUnderFolder;
    StandsSomewhere(items, chain[k], depth);
    if k > 0 {
      ChainLink(rs, root, chain, k);
      if depth == 1 {
        TopStands(rs, items, chain[k], chain[k - 1], depth);
      } else {
        var folder := StandsUnder(rs, items, chain[k], depth);
        OneFolder(rs, chain[k], folder, chain[k - 1]);
        ChainStands(rs, items, root, chain, k - 1, depth - 1);
      }
    }
  }

  lemma {:induction false} TopStands(rs: seq<Resource>, items: seq<Item>, i: nat, f: nat, depth: nat)
    requires TopOnly(rs, items) && StandsAt(items, i, depth) && depth <= 1
    ensures !IsUnderFolder(rs, i, f)
  {
    hide IsUnderFolder;
  }

  lemma {:induction false} ChainIsReached(rs: seq<Resource>, root: string, chain: seq<nat>, k: nat)
    requires IsRoot(rs, root) && Chain(rs, root, chain, {}) && k < |chain|
    ensures chain[k] in Reached(rs, k)
    decreases k
  {
    hide IsRoot;
    if k > 0 {
      ChainIsReached(rs, root, chain, k - 1);
      NextReached(rs, chain[k], chain[k - 1], k - 1);
    }
  }

  lemma {:induction false} WorkspaceIdsAre(rs: seq<Resource>, k: nat)
    requires k < |WorkspaceIds(rs)|
    ensures exists w :: 0 <= w < |rs| && rs[w].kind == Workspace && rs[w].id == WorkspaceIds(rs)[k]
  {
    if rs[|rs| - 1].kind != Workspace || k < |WorkspaceIds(rs)| - 1 {
      WorkspaceIdsAre(rs[..|rs| - 1], k);
    }
  }

  lemma {:induction false} CollectionIsTop(rs: seq<Resource>, w: nat, items: seq<Item>)
    requires OneId(rs) && w < |rs| && rs[w].kind == Workspace && Nested(rs, rs[w].id, items)
    ensures TopOnly(rs, items)
  {
    forall k, f | 0 <= k < |items| ensures !IsUnderFolder(rs, items[k].index, f) {
      NestedIsUnder(rs, rs[w].id, items, k);
      hide Nested;
      assert IsParent(rs, w) && (IsUnderFolder(rs, items[k].index, f) ==> IsParent(rs, f));
    }
  }

  lemma {:induction false} LooseIsTop(rs: seq<Resource>, parents: seq<string>, items: seq<Item>)
    requires Loose(rs, parents, items)
    ensures TopOnly(rs, items)
  {
    hide Chosen, LooseUnder;
  }

  lemma {:induction false} InOneCollection(collections: seq<seq<Item>>, i: nat) returns (k: nat)
    requires i in AllListed(collections)
    ensures k < |collections| && i in Listed(collections[k])
  {
    hide Listed;
    var n := |collections| - 1;
    if i in AllListed(collections[..n]) {
      k := InOneCollection(collections[..n], i);
    } else {
      k := n;
    }
  }

  lemma {:induction false} ChainMakesHigh(rs: seq<Resource>, items: seq<Item>, root: string, chain: seq<nat>)
    requires OneId(rs) && Deep(rs, items) && TopOnly(rs, items) && Chain(rs, root, chain, {})
    requires |chain| == MAX_DEPTH && chain[MAX_DEPTH - 1] in Listed(items)
    ensures Height(items) >= MAX_DEPTH
  {
    hide Deep, TopOnly, OneId, Listed, Height;
    var depth := ListedStands(items, chain[MAX_DEPTH - 1]);
    ChainStands(rs, items, root, chain, MAX_DEPTH - 1, depth);
    FolderHeight(rs, items, chain[MAX_DEPTH - 1], depth);
  }

  /** Where no two workspaces or folders share an id, what was read is read because no folders nest too deep. */
  lemma {:induction false} NotTooDeep(rs: seq<Resource>, collections: seq<seq<Item>>, loose: seq<Item>,
    placed: set<nat>)
    requires OneId(rs) && IsRead(rs, collections, loose, placed)
    ensures !IsTooDeep(rs)
  {
    if root, chain :| IsRoot(rs, root) && |chain| == MAX_DEPTH && Chain(rs, root, chain, {}) {
      var i := chain[MAX_DEPTH - 1];
      ChainIsReached(rs, root, chain, MAX_DEPTH - 1);
      hide OneId, IsRoot, Chain, Listed, AllListed, WorkspaceIds, Deep, Nested, Height, TopOnly, Chosen, Reached;
      assert OnTree(rs, i);
      assert i in multiset(placed) && i in multiset(AllListed(collections) + Listed(loose));
      if i in Listed(loose) {
        LooseIsTop(rs, Parents(rs), loose);
        ChainMakesHigh(rs, loose, root, chain);
      } else {
        var k := InOneCollection(collections, i);
        WorkspaceIdsAre(rs, k);
        var w :| 0 <= w < |rs| && rs[w].kind == Workspace && rs[w].id == WorkspaceIds(rs)[k];
        CollectionIsTop(rs, w, collections[k]);
        NestedIsDeep(rs, rs[w].id, collections[k]);
        ChainMakesHigh(rs, collections[k], root, chain);
      }
    }
  }

  lemma {:induction false} NestedIsDeep(rs: seq<Resource>, parent: string, items: seq<Item>)
    requires Nested(rs, parent, items)
    ensures Deep(rs, items)
  {
  }
}
