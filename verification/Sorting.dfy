/** Python's list.sort and sorted: a stable sort that only ever asks whether
    the key of one element is less than that of another.  `lt` is the comparison
    of the keys; it need not be an order, as the keys may be NaN.  The lemmas
    say what holds of any comparison, and what of one that is an order. */
module Sorting {

  /** `lt` behaves like `<` on keys: incomparable elements are ties. */
  ghost predicate WeakOrder<T(!new)>(lt: (T, T) -> bool) {
    && (forall x, y :: lt(x, y) ==> !lt(y, x))
    && (forall x, y, z :: lt(x, z) ==> lt(x, y) || lt(y, z))
  }

  ghost predicate Sorted<T>(s: seq<T>, lt: (T, T) -> bool) {
    forall i, j :: 0 <= i < j < |s| ==> !lt(s[j], s[i])
  }

  function Insert<T>(x: T, s: seq<T>, lt: (T, T) -> bool): seq<T> {
    if s == [] || !lt(s[0], x) then [x] + s
    else [s[0]] + Insert(x, s[1..], lt)
  }

  function StableSort<T>(s: seq<T>, lt: (T, T) -> bool): seq<T> {
    if s == [] then [] else Insert(s[0], StableSort(s[1..], lt), lt)
  }

  lemma {:induction false} InsertPermutes<T>(x: T, s: seq<T>, lt: (T, T) -> bool)
    ensures multiset(Insert(x, s, lt)) == multiset(s) + multiset{x}
    ensures |Insert(x, s, lt)| == |s| + 1
  {
    if s == [] || !lt(s[0], x) {
    } else {
      InsertPermutes(x, s[1..], lt);
      assert s == [s[0]] + s[1..];
    }
  }

  lemma {:induction false} SortPermutes<T>(s: seq<T>, lt: (T, T) -> bool)
    ensures multiset(StableSort(s, lt)) == multiset(s)
    ensures |StableSort(s, lt)| == |s|
  {
    if s != [] {
      SortPermutes(s[1..], lt);
      InsertPermutes(s[0], StableSort(s[1..], lt), lt);
      assert s == [s[0]] + s[1..];
    }
  }

  lemma {:induction false} SortMembers<T>(s: seq<T>, lt: (T, T) -> bool)
    ensures |StableSort(s, lt)| == |s|
    ensures forall x :: x in StableSort(s, lt) <==> x in s
  {
    SortPermutes(s, lt);
    assert forall x :: x in StableSort(s, lt) <==> x in multiset(StableSort(s, lt));
  }

  lemma {:induction false} InsertSorts<T(!new)>(x: T, s: seq<T>, lt: (T, T) -> bool)
    requires WeakOrder(lt) && Sorted(s, lt)
    ensures Sorted(Insert(x, s, lt), lt)
  {
    var r := Insert(x, s, lt);
    if s == [] {
    } else if !lt(s[0], x) {
      forall j | 0 < j < |r| ensures !lt(r[j], x) {
        assert r[j] == s[j - 1];
        assert !lt(s[j - 1], s[0]);
      }
    } else {
      var t := s[1..];
      InsertSorts(x, t, lt);
      InsertPermutes(x, t, lt);
      var u := Insert(x, t, lt);
      assert r == [s[0]] + u;
      forall j | 0 < j < |r| ensures !lt(r[j], s[0]) {
        assert r[j] == u[j - 1] && u[j - 1] in multiset(u);
        if r[j] != x {
          assert r[j] in t;
          var k :| 0 <= k < |t| && t[k] == r[j];
          assert s[k + 1] == t[k];
        }
      }
    }
  }

  lemma {:induction false} SortSorts<T(!new)>(s: seq<T>, lt: (T, T) -> bool)
    requires WeakOrder(lt)
    ensures Sorted(StableSort(s, lt), lt)
  {
    if s != [] {
      SortSorts(s[1..], lt);
      InsertSorts(s[0], StableSort(s[1..], lt), lt);
    }
  }

  function Filter<T(!new)>(p: T -> bool, s: seq<T>): (r: seq<T>)
    ensures |r| <= |s|
    ensures forall x :: x in r <==> x in s && p(x)
  {
    if s == [] then []
    else if p(s[0]) then
      var r := Filter(p, s[1..]);
      assert forall x :: x in [s[0]] + r <==> x == s[0] || x in r;
      assert forall x :: x in s <==> x == s[0] || x in s[1..];
      [s[0]] + r
    else
      assert forall x :: x in s <==> x == s[0] || x in s[1..];
      Filter(p, s[1..])
  }

  /** Every two elements that satisfy `p` are ties. */
  ghost predicate Ties<T(!new)>(p: T -> bool, lt: (T, T) -> bool) {
    forall x, y :: p(x) && p(y) ==> !lt(x, y)
  }

  lemma {:induction false} InsertStable<T(!new)>(p: T -> bool, x: T, s: seq<T>, lt: (T, T) -> bool)
    requires Ties(p, lt)
    ensures Filter(p, Insert(x, s, lt)) == (if p(x) then [x] else []) + Filter(p, s)
  {
    var r := Insert(x, s, lt);
    if s == [] || !lt(s[0], x) {
      assert r[1..] == s;
    } else {
      InsertStable(p, x, s[1..], lt);
      assert r[1..] == Insert(x, s[1..], lt);
      assert !(p(x) && p(s[0]));
    }
  }

  /** Stability: sorting leaves each group of ties in its original order. */
  lemma {:induction false} SortStable<T(!new)>(p: T -> bool, s: seq<T>, lt: (T, T) -> bool)
    requires Ties(p, lt)
    ensures Filter(p, StableSort(s, lt)) == Filter(p, s)
  {
    if s != [] {
      SortStable(p, s[1..], lt);
      InsertStable(p, s[0], StableSort(s[1..], lt), lt);
    }
  }
}
