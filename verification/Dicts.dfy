/** Python's dict as a value: a finite map that remembers the order in which
    its keys were inserted.  Overwriting a key keeps its place, and a key that
    is removed and inserted again goes to the end.  Also lists without
    duplicates, which is what key lists are. */
module Dicts {

  datatype Dict<K(==), V> = Dict(keys: seq<K>, at: map<K, V>)

  ghost predicate Distinct<K>(s: seq<K>) {
    forall i, j :: 0 <= i < j < |s| ==> s[i] != s[j]
  }

  ghost predicate Wf<K(!new), V>(d: Dict<K, V>) {
    && Distinct(d.keys)
    && (forall k :: k in d.keys <==> k in d.at)
  }

  function Empty<K(==,!new), V>(): Dict<K, V> {
    Dict([], map[])
  }

  /** d[k] = v */
  function Put<K(==,!new), V>(d: Dict<K, V>, k: K, v: V): (r: Dict<K, V>)
    ensures Wf(d) ==> Wf(r)
  {
    Dict(if k in d.at then d.keys else d.keys + [k], d.at[k := v])
  }

  /** d.setdefault(k, v) */
  function SetDefault<K(==,!new), V>(d: Dict<K, V>, k: K, v: V): (r: Dict<K, V>)
    ensures Wf(d) ==> Wf(r)
  {
    if k in d.at then d else Put(d, k, v)
  }

  /** d.get(k, default) */
  function GetOr<K(==,!new), V>(d: Dict<K, V>, k: K, default: V): V {
    if k in d.at then d.at[k] else default
  }

  /** The keys that are left, in the same order, once `k` is gone. */
  function Without<K(==,!new)>(s: seq<K>, k: K): (r: seq<K>)
    ensures forall x :: x in r <==> x in s && x != k
    ensures Distinct(s) ==> Distinct(r)
  {
    if s == [] then []
    else if s[0] == k then Without(s[1..], k)
    else
      var rest := Without(s[1..], k);
      assert forall x :: x in s <==> x == s[0] || x in s[1..];
      assert Distinct(s) ==> s[0] !in s[1..] && Distinct(s[1..]);
      [s[0]] + rest
  }

  /** d.pop(k, None) */
  function Remove<K(==,!new), V>(d: Dict<K, V>, k: K): (r: Dict<K, V>)
    ensures Wf(d) ==> Wf(r)
  {
    Dict(Without(d.keys, k), d.at - {k})
  }

  lemma {:induction false} RemoveAbsent<K(!new)>(s: seq<K>, k: K)
    requires k !in s
    ensures Without(s, k) == s
  {
    if s != [] {
      RemoveAbsent(s[1..], k);
    }
  }

  function Elements<K>(s: seq<K>): set<K> {
    set k | k in s
  }

  /** A list without duplicates is as long as the set of its elements. */
  lemma {:induction false} DistinctCard<K>(s: seq<K>)
    requires Distinct(s)
    ensures |Elements(s)| == |s|
  {
    if s != [] {
      var n := |s| - 1;
      DistinctCard(s[..n]);
      assert Elements(s) == Elements(s[..n]) + {s[n]};
    }
  }

  /** A list without duplicates holds each of its elements once. */
  lemma {:induction false} DistinctCount<T>(a: seq<T>, x: T)
    requires Distinct(a)
    ensures multiset(a)[x] == if x in a then 1 else 0
  {
    if a != [] {
      var init, last := a[..|a| - 1], a[|a| - 1];
      DistinctCount(init, x);
      assert a == init + [last];
    }
  }

  /** A list as long as the set of its elements has no duplicates. */
  lemma {:induction false} CardDistinct<K>(s: seq<K>)
    ensures |Elements(s)| <= |s|
    ensures |Elements(s)| == |s| ==> Distinct(s)
  {
    if s != [] {
      var n := |s| - 1;
      CardDistinct(s[..n]);
      assert Elements(s) == Elements(s[..n]) + {s[n]};
      if s[n] in s[..n] {
        assert Elements(s) == Elements(s[..n]);
      }
    }
  }

  /** The elements in the order in which they first occur. */
  function FirstSeen<K(==,!new)>(s: seq<K>): (r: seq<K>)
    ensures forall x :: x in r <==> x in s
    ensures Distinct(r)
  {
    if s == [] then []
    else
      var init, last := FirstSeen(s[..|s| - 1]), s[|s| - 1];
      assert s == s[..|s| - 1] + [last];
      if last in init then init else init + [last]
  }

  lemma {:induction false} FirstSeenSnoc<K(!new)>(s: seq<K>, x: K)
    ensures FirstSeen(s + [x]) == if x in s then FirstSeen(s) else FirstSeen(s) + [x]
  {
    assert (s + [x])[..|s|] == s;
  }

  // ---- Order ----

  /** The dict that a list of assignments leaves. */
  function Assigned<K(==,!new), V>(items: seq<(K, V)>): Dict<K, V> {
    if items == [] then Empty()
    else Put(Assigned(items[..|items| - 1]), items[|items| - 1].0, items[|items| - 1].1)
  }

  function KeysOf<K(!new), V>(items: seq<(K, V)>): (r: seq<K>)
    ensures |r| == |items| && forall i :: 0 <= i < |r| ==> r[i] == items[i].0
  {
    seq(|items|, i requires 0 <= i < |items| => items[i].0)
  }

  /** Its keys are in the order of their first assignment. */
  lemma {:induction false} AssignedOrder<K(!new), V>(items: seq<(K, V)>)
    ensures Assigned(items).keys == FirstSeen(KeysOf(items))
    ensures forall k :: k in Assigned(items).at <==> k in KeysOf(items)
  {
    if items != [] {
      var n := |items| - 1;
      AssignedOrder(items[..n]);
      assert KeysOf(items) == KeysOf(items[..n]) + [items[n].0];
      FirstSeenSnoc(KeysOf(items[..n]), items[n].0);
      hide FirstSeen;
    }
  }

  /** Each key has the value of its last assignment. */
  lemma {:induction false} AssignedLast<K(!new), V>(items: seq<(K, V)>, i: nat)
    requires i < |items| && forall j :: i < j < |items| ==> items[j].0 != items[i].0
    ensures items[i].0 in Assigned(items).at && Assigned(items).at[items[i].0] == items[i].1
  {
    var n := |items| - 1;
    if i < n {
      AssignedLast(items[..n], i);
      assert items[n].0 != items[i].0;
    }
  }

  /** Taking a key away keeps the order of the others. */
  lemma {:induction false} WithoutMiddle<K(!new)>(before: seq<K>, k: K, after: seq<K>)
    requires k !in before && k !in after
    ensures Without(before + [k] + after, k) == before + after
  {
    var s := before + [k] + after;
    if before == [] {
      RemoveAbsent(after, k);
      assert s[1..] == after;
    } else {
      WithoutMiddle(before[1..], k, after);
      assert s[1..] == before[1..] + [k] + after;
      assert before + after == [before[0]] + (before[1..] + after);
    }
  }
}
