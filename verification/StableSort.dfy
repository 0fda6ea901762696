/** The language's `sort`: stable, by an order in which any two items compare. */
module StableSort {

  ghost predicate TotalOrder<T(!new)>(le: (T, T) -> bool) {
    && (forall a, b :: le(a, b) || le(b, a))
    && (forall a, b, c :: le(a, b) && le(b, c) ==> le(a, c))
  }

  predicate Sorted<T>(le: (T, T) -> bool, s: seq<T>) {
    forall i, j :: 0 <= i < j < |s| ==> le(s[i], s[j])
  }

  /** `x` after the items that are not after it. */
  function Insert<T>(le: (T, T) -> bool, s: seq<T>, x: T): (r: seq<T>)
    ensures |r| == |s| + 1
  {
    if s == [] || le(s[|s| - 1], x) then s + [x]
    else Insert(le, s[..|s| - 1], x) + [s[|s| - 1]]
  }

  function Sort<T>(le: (T, T) -> bool, s: seq<T>): (r: seq<T>)
    ensures |r| == |s|
  {
    if s == [] then [] else Insert(le, Sort(le, s[..|s| - 1]), s[|s| - 1])
  }

  /** The items of `s` that satisfy `p`, in order. */
  function Filter<T(!new)>(p: T -> bool, s: seq<T>): (r: seq<T>)
    ensures forall x :: x in r <==> x in s && p(x)
    ensures |r| <= |s|
  {
    if s == [] then []
    else
      var last := s[|s| - 1];
      assert s == s[..|s| - 1] + [last];
      if p(last) then Filter(p, s[..|s| - 1]) + [last] else Filter(p, s[..|s| - 1])
  }

  lemma {:induction false} FilterLast<T(!new)>(p: T -> bool, s: seq<T>, x: T)
    ensures Filter(p, s + [x]) == if p(x) then Filter(p, s) + [x] else Filter(p, s)
  {
    assert (s + [x])[..|s|] == s;
  }

  lemma {:induction false} InsertKeeps<T(!new)>(le: (T, T) -> bool, s: seq<T>, x: T)
    ensures multiset(Insert(le, s, x)) == multiset(s) + multiset{x}
    ensures forall y :: y in Insert(le, s, x) <==> y in s || y == x
  {
    if s == [] || le(s[|s| - 1], x) {
    } else {
      InsertKeeps(le, s[..|s| - 1], x);
      assert s == s[..|s| - 1] + [s[|s| - 1]];
    }
  }

  lemma {:induction false} InsertSorts<T(!new)>(le: (T, T) -> bool, s: seq<T>, x: T)
    requires TotalOrder(le) && Sorted(le, s)
    ensures Sorted(le, Insert(le, s, x))
  {
    if s == [] {
    } else {
      var last := s[|s| - 1];
      assert forall i :: 0 <= i < |s| ==> le(s[i], last);
      if le(last, x) {
        assert forall i :: 0 <= i < |s| ==> le(s[i], x);
      } else {
        var front := s[..|s| - 1];
        InsertSorts(le, front, x);
        InsertKeeps(le, front, x);
        var r := Insert(le, front, x);
        assert le(x, last);
        forall i | 0 <= i < |r| ensures le(r[i], last) {
          assert r[i] in r;
          if r[i] != x {
            var j :| 0 <= j < |front| && front[j] == r[i];
            assert front[j] == s[j];
          }
        }
      }
    }
  }

  /** Two items that compare alike. */
  predicate Alike<T>(le: (T, T) -> bool, a: T, b: T) {
    le(a, b) && le(b, a)
  }

  function LikeOf<T>(le: (T, T) -> bool, a: T): T -> bool {
    b => Alike(le, a, b)
  }

  lemma {:induction false} InsertStable<T(!new)>(le: (T, T) -> bool, s: seq<T>, x: T, a: T)
    requires TotalOrder(le) && Sorted(le, s)
    ensures Filter(LikeOf(le, a), Insert(le, s, x)) == Filter(LikeOf(le, a), s + [x])
  {
    var p := LikeOf(le, a);
    FilterLast(p, s, x);
    if s != [] && !le(s[|s| - 1], x) {
      assert Insert(le, s, x) == Insert(le, s[..|s| - 1], x) + [s[|s| - 1]];
      hide Filter, Insert, TotalOrder;
      var (front, last) := (s[..|s| - 1], s[|s| - 1]);
      InsertStable(le, front, x, a);
      FilterLast(p, Insert(le, front, x), last);
      FilterLast(p, front, x);
      assert s == front + [last];
      FilterLast(p, front, last);
    }
  }

  /** What sorting gives: the same items, in order, those that compare alike as they stood. */
  lemma {:induction false} SortWorks<T(!new)>(le: (T, T) -> bool, s: seq<T>)
    requires TotalOrder(le)
    ensures multiset(Sort(le, s)) == multiset(s)
    ensures forall x :: x in Sort(le, s) <==> x in s
    ensures Sorted(le, Sort(le, s))
    ensures forall a :: Filter(LikeOf(le, a), Sort(le, s)) == Filter(LikeOf(le, a), s)
  {
    if s != [] {
      var (front, last) := (s[..|s| - 1], s[|s| - 1]);
      assert s == front + [last];
      SortWorks(le, front);
      InsertKeeps(le, Sort(le, front), last);
      InsertSorts(le, Sort(le, front), last);
      forall a ensures Filter(LikeOf(le, a), Sort(le, s)) == Filter(LikeOf(le, a), s) {
        InsertStable(le, Sort(le, front), last, a);
        FilterLast(LikeOf(le, a), Sort(le, front), last);
        FilterLast(LikeOf(le, a), front, last);
      }
    }
  }
}
