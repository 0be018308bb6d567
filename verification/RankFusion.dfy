/** Reciprocal rank fusion (_rrf_fuse of bench/longmemeval_blind.py). */
module RankFusion {
  import opened Dicts
  import opened Sorting

  type Id = string

  datatype Scored = Scored(id: Id, score: real)

  datatype Result = Fused(ids: seq<Id>) | ZeroDivisionError

  /** No rank of a list of n elements cancels k. */
  predicate Safe(n: nat, k: int) {
    k >= 0 || n < -k
  }

  /** What a list contributes to an id: 1/(k + rank), added up over its occurrences. */
  function ListScore(ids: seq<Id>, k: int, id: Id): (r: real)
    requires Safe(|ids|, k)
    ensures id !in ids ==> r == 0.0
    ensures k >= 0 && id in ids ==> r > 0.0
  {
    if ids == [] then 0.0
    else
      assert ids == ids[..|ids| - 1] + [ids[|ids| - 1]];
      ListScore(ids[..|ids| - 1], k, id) + if ids[|ids| - 1] == id then 1.0 / (k + |ids|) as real else 0.0
  }

  function FusedScore(dense: seq<Id>, bm25: seq<Id>, k: int, id: Id): real
    requires Safe(|dense|, k) && Safe(|bm25|, k)
  {
    ListScore(dense, k, id) + ListScore(bm25, k, id)
  }

  predicate HigherScore(x: Scored, y: Scored) {
    x.score > y.score
  }

  /** `rrf` holds the ids of both lists, in order of first occurrence, with their scores so far. */
  ghost predicate Holds(rrf: Dict<Id, real>, dense: seq<Id>, bm25: seq<Id>, k: int) {
    && Safe(|dense|, k) && Safe(|bm25|, k)
    && Wf(rrf)
    && rrf.keys == FirstSeen(dense + bm25)
    && (forall id :: id in rrf.at ==> rrf.at[id] == FusedScore(dense, bm25, k, id))
  }

  /** rrf[sid] = rrf.get(sid, 0.0) + 1.0 / (k + rank) */
  function Bump(rrf: Dict<Id, real>, sid: Id, rank: int, k: int): Dict<Id, real>
    requires k + rank != 0
  {
    Put(rrf, sid, GetOr(rrf, sid, 0.0) + 1.0 / (k + rank) as real)
  }

  lemma {:induction false} ListScoreSnoc(ids: seq<Id>, k: int, sid: Id, id: Id)
    requires Safe(|ids| + 1, k)
    ensures ListScore(ids + [sid], k, id) ==
            ListScore(ids, k, id) + if sid == id then 1.0 / (k + |ids| + 1) as real else 0.0
  {
    assert (ids + [sid])[..|ids|] == ids;
  }

  /** An id that is not held has no score. */
  lemma {:induction false} HeldScore(rrf: Dict<Id, real>, dense: seq<Id>, bm25: seq<Id>, k: int, id: Id)
    requires Holds(rrf, dense, bm25, k)
    ensures id in rrf.at <==> id in dense + bm25
    ensures GetOr(rrf, id, 0.0) == FusedScore(dense, bm25, k, id)
  {
    assert id in rrf.at <==> id in rrf.keys;
  }

  /** Bumping one id turns what is held for two lists into what is held for the grown lists. */
  lemma {:induction false} BumpHolds(
    rrf: Dict<Id, real>, dense: seq<Id>, bm25: seq<Id>, dense': seq<Id>, bm25': seq<Id>, k: int, sid: Id, rank: int)
    requires Holds(rrf, dense, bm25, k) && Safe(|dense'|, k) && Safe(|bm25'|, k) && k + rank != 0
    requires FirstSeen(dense' + bm25') ==
             if sid in dense + bm25 then FirstSeen(dense + bm25) else FirstSeen(dense + bm25) + [sid]
    requires forall id :: FusedScore(dense', bm25', k, id) ==
               FusedScore(dense, bm25, k, id) + if sid == id then 1.0 / (k + rank) as real else 0.0
    ensures Holds(Bump(rrf, sid, rank, k), dense', bm25', k)
  {
    HeldScore(rrf, dense, bm25, k, sid);
    hide FirstSeen;
    hide FusedScore;
  }

  lemma {:induction false} BumpDense(rrf: Dict<Id, real>, dense: seq<Id>, k: int, sid: Id)
    requires Holds(rrf, dense, [], k) && Safe(|dense| + 1, k)
    ensures Holds(Bump(rrf, sid, |dense| + 1, k), dense + [sid], [], k)
  {
    hide FirstSeen;
    hide Holds;
    assert dense + [] == dense && dense + [sid] + [] == dense + [sid];
    FirstSeenSnoc(dense, sid);
    forall id ensures FusedScore(dense + [sid], [], k, id) ==
                      FusedScore(dense, [], k, id) + if sid == id then 1.0 / (k + |dense| + 1) as real else 0.0 {
      ListScoreSnoc(dense, k, sid, id);
    }
    BumpHolds(rrf, dense, [], dense + [sid], [], k, sid, |dense| + 1);
  }

  lemma {:induction false} BumpSparse(rrf: Dict<Id, real>, dense: seq<Id>, bm25: seq<Id>, k: int, sid: Id)
    requires Holds(rrf, dense, bm25, k) && Safe(|dense|, k) && Safe(|bm25| + 1, k)
    ensures Holds(Bump(rrf, sid, |bm25| + 1, k), dense, bm25 + [sid], k)
  {
    hide FirstSeen;
    hide Holds;
    assert dense + (bm25 + [sid]) == dense + bm25 + [sid];
    FirstSeenSnoc(dense + bm25, sid);
    forall id ensures FusedScore(dense, bm25 + [sid], k, id) ==
                      FusedScore(dense, bm25, k, id) + if sid == id then 1.0 / (k + |bm25| + 1) as real else 0.0 {
      ListScoreSnoc(bm25, k, sid, id);
    }
    BumpHolds(rrf, dense, bm25, dense, bm25 + [sid], k, sid, |bm25| + 1);
  }

  ghost function IdsOf(s: seq<Scored>): (r: seq<Id>)
    ensures |r| == |s| && forall i :: 0 <= i < |s| ==> r[i] == s[i].id
  {
    seq(|s|, i requires 0 <= i < |s| => s[i].id)
  }

  /** list(rrf.items()) */
  function Items(rrf: Dict<Id, real>, i: nat): (s: seq<Scored>)
    requires Wf(rrf) && i <= |rrf.keys|
    ensures |s| == i && forall j :: 0 <= j < i ==> s[j] == Scored(rrf.keys[j], rrf.at[rrf.keys[j]])
  {
    if i == 0 then [] else Items(rrf, i - 1) + [Scored(rrf.keys[i - 1], rrf.at[rrf.keys[i - 1]])]
  }

  /** The fused list: each id once, by falling score, ties by first occurrence. */
  ghost predicate IsFused(fused: seq<Id>, dense: seq<Id>, bm25: seq<Id>, k: int) {
    && Safe(|dense|, k) && Safe(|bm25|, k)
    && Distinct(fused)
    && (forall id :: id in fused <==> id in dense || id in bm25)
    && (forall i, j :: 0 <= i < j < |fused| ==>
          FusedScore(dense, bm25, k, fused[i]) >= FusedScore(dense, bm25, k, fused[j]))
    && (forall i, j :: 0 <= i < j < |fused| ==>
          FusedScore(dense, bm25, k, fused[i]) == FusedScore(dense, bm25, k, fused[j]) ==>
            SeenBefore(dense + bm25, fused[i], fused[j]))
  }

  method RrfFuse(dense: seq<Id>, bm25: seq<Id>, k: int) returns (r: Result)
    ensures r.Fused? <==> Safe(|dense|, k) && Safe(|bm25|, k)
    ensures r.Fused? ==> IsFused(r.ids, dense, bm25, k)
  {
    hide Holds;
    hide Bump;
    hide IsFused;
    hide Ranked;
    var rrf: Dict<Id, real> := Dicts.Empty();
    HoldsNothing(k);
    for i := 0 to |dense|
      invariant Safe(i, k) && Holds(rrf, dense[..i], [], k)
    {
      if k + (i + 1) == 0 {
        return ZeroDivisionError;
      }
      BumpDense(rrf, dense[..i], k, dense[i]);
      assert dense[..i + 1] == dense[..i] + [dense[i]];
      rrf := Bump(rrf, dense[i], i + 1, k);
    }
    assert dense[..|dense|] == dense;
    for i := 0 to |bm25|
      invariant Safe(i, k) && Holds(rrf, dense, bm25[..i], k)
    {
      if k + (i + 1) == 0 {
        return ZeroDivisionError;
      }
      BumpSparse(rrf, dense, bm25[..i], k, bm25[i]);
      assert bm25[..i + 1] == bm25[..i] + [bm25[i]];
      rrf := Bump(rrf, bm25[i], i + 1, k);
    }
    assert bm25[..|bm25|] == bm25;
    FusedFacts(rrf, dense, bm25, k);
    return Fused(Ranked(rrf));
  }

  lemma {:induction false} HoldsNothing(k: int)
    ensures Holds(Dicts.Empty(), [], [], k)
  {
  }

  /** [sid for sid, _ in sorted(rrf.items(), key=lambda x: -x[1])] */
  function Ranked(rrf: Dict<Id, real>): seq<Id>
    requires Wf(rrf)
  {
    var s := StableSort(Items(rrf, |rrf.keys|), HigherScore);
    seq(|s|, i requires 0 <= i < |s| => s[i].id)
  }

  lemma {:induction false} FusedFacts(rrf: Dict<Id, real>, dense: seq<Id>, bm25: seq<Id>, k: int)
    requires Holds(rrf, dense, bm25, k)
    ensures Wf(rrf) && IsFused(Ranked(rrf), dense, bm25, k)
  {
    var items := Items(rrf, |rrf.keys|);
    assert IdsOf(items) == rrf.keys;
    RankedFacts(dense, bm25, k, items);
    var s := StableSort(items, HigherScore);
    assert Ranked(rrf) == IdsOf(s);
    hide Ranked;
    hide Items;
    hide StableSort;
    hide Holds;
    FusedIds(s, dense, bm25, k);
  }

  lemma {:induction false} FusedIds(s: seq<Scored>, dense: seq<Id>, bm25: seq<Id>, k: int)
    requires RankedWell(s, dense, bm25, k)
    ensures IsFused(IdsOf(s), dense, bm25, k)
  {
    hide FusedScore;
    hide SeenBefore;
  }

  /** x first occurs before y does. */
  ghost predicate SeenBefore(ids: seq<Id>, x: Id, y: Id) {
    exists i :: 0 <= i < |ids| && ids[i] == x && y !in ids[..i + 1]
  }

  lemma {:induction false} FirstSeenOrder(ids: seq<Id>, p: nat, q: nat)
    requires p < q < |FirstSeen(ids)|
    ensures SeenBefore(ids, FirstSeen(ids)[p], FirstSeen(ids)[q])
  {
    var init, last := ids[..|ids| - 1], ids[|ids| - 1];
    var r := FirstSeen(init);
    if q < |r| {
      FirstSeenOrder(init, p, q);
      var i :| 0 <= i < |init| && init[i] == r[p] && r[q] !in init[..i + 1];
      assert ids[..i + 1] == init[..i + 1];
    } else {
      assert r[p] in init && last !in init;
      var i :| 0 <= i < |init| && init[i] == r[p];
      assert ids[..i + 1] == init[..i + 1];
    }
  }

  /** Stable sorting leaves two ties in the order they came in. */
  lemma {:induction false} TiesKeepOrder(items: seq<Scored>, i: nat, j: nat)
    requires i < j < |items|
    requires Distinct(items)
    requires |StableSort(items, HigherScore)| == |items|
    requires StableSort(items, HigherScore)[i].score == StableSort(items, HigherScore)[j].score
    ensures exists p, q :: 0 <= p < q < |items| &&
              items[p] == StableSort(items, HigherScore)[i] && items[q] == StableSort(items, HigherScore)[j]
  {
    var s := StableSort(items, HigherScore);
    var v := s[i].score;
    var tie := (x: Scored) => x.score == v;
    SortStable(tie, items, HigherScore);
    var a, b := FilterPair(tie, s, i, j);
    var p, q := FilterBack(tie, items, a, b);
  }

  lemma {:induction false} FilterPair<T(!new)>(p: T -> bool, s: seq<T>, i: nat, j: nat) returns (a: nat, b: nat)
    requires i < j < |s| && p(s[i]) && p(s[j])
    ensures a < b < |Filter(p, s)| && Filter(p, s)[a] == s[i] && Filter(p, s)[b] == s[j]
  {
    if i == 0 {
      a := 0;
      assert s[1..][j - 1] in Filter(p, s[1..]);
      var c :| 0 <= c < |Filter(p, s[1..])| && Filter(p, s[1..])[c] == s[j];
      b := c + 1;
    } else {
      a, b := FilterPair(p, s[1..], i - 1, j - 1);
      if p(s[0]) {
        a, b := a + 1, b + 1;
      }
    }
  }

  lemma {:induction false} FilterBack<T(!new)>(p: T -> bool, s: seq<T>, a: nat, b: nat) returns (i: nat, j: nat)
    requires a < b < |Filter(p, s)|
    ensures i < j < |s| && s[i] == Filter(p, s)[a] && s[j] == Filter(p, s)[b]
  {
    if p(s[0]) {
      if a == 0 {
        i := 0;
        assert Filter(p, s)[b] == Filter(p, s[1..])[b - 1];
        assert Filter(p, s[1..])[b - 1] in s[1..];
        var c :| 0 <= c < |s[1..]| && s[1..][c] == Filter(p, s)[b];
        j := c + 1;
      } else {
        i, j := FilterBack(p, s[1..], a - 1, b - 1);
        i, j := i + 1, j + 1;
      }
    } else {
      i, j := FilterBack(p, s[1..], a, b);
      i, j := i + 1, j + 1;
    }
  }

  /** Each id once with its score, by falling score, ties by first occurrence. */
  ghost predicate RankedWell(s: seq<Scored>, dense: seq<Id>, bm25: seq<Id>, k: int) {
    && Safe(|dense|, k) && Safe(|bm25|, k)
    && Distinct(IdsOf(s))
    && (forall id :: id in IdsOf(s) <==> id in dense || id in bm25)
    && (forall i :: 0 <= i < |s| ==> s[i].score == FusedScore(dense, bm25, k, s[i].id))
    && (forall i, j :: 0 <= i < j < |s| ==> s[i].score >= s[j].score)
    && (forall i, j :: 0 <= i < j < |s| && s[i].score == s[j].score ==>
          SeenBefore(dense + bm25, s[i].id, s[j].id))
  }

  lemma {:induction false} RankedFacts(dense: seq<Id>, bm25: seq<Id>, k: int, items: seq<Scored>)
    requires Safe(|dense|, k) && Safe(|bm25|, k)
    requires IdsOf(items) == FirstSeen(dense + bm25)
    requires forall i :: 0 <= i < |items| ==> items[i].score == FusedScore(dense, bm25, k, items[i].id)
    ensures RankedWell(StableSort(items, HigherScore), dense, bm25, k)
  {
    var s := StableSort(items, HigherScore);
    SortMembers(items, HigherScore);
    SortSorts(items, HigherScore);
    ItemsDistinct(items);
    RankedDistinct(items);
    forall i, j | 0 <= i < j < |s|
      ensures s[i].score >= s[j].score
      ensures s[i].score == s[j].score ==> SeenBefore(dense + bm25, s[i].id, s[j].id)
    {
      assert !HigherScore(s[j], s[i]);
      if s[i].score == s[j].score {
        TiesKeepOrder(items, i, j);
        var p, q :| 0 <= p < q < |items| && items[p] == s[i] && items[q] == s[j];
        FirstSeenOrder(dense + bm25, p, q);
      }
    }
    forall i | 0 <= i < |s|
      ensures s[i].score == FusedScore(dense, bm25, k, s[i].id)
    {
      assert s[i] in items;
    }
  }

  lemma {:induction false} ItemsDistinct(items: seq<Scored>)
    requires Distinct(IdsOf(items))
    ensures Distinct(items)
  {
    forall i, j | 0 <= i < j < |items|
      ensures items[i] != items[j]
    {
      assert IdsOf(items)[i] != IdsOf(items)[j];
    }
  }

  lemma {:induction false} RankedDistinct(items: seq<Scored>)
    requires Distinct(IdsOf(items))
    ensures var s := StableSort(items, HigherScore);
            Distinct(IdsOf(s)) && forall id :: id in IdsOf(s) <==> id in IdsOf(items)
  {
    var s := StableSort(items, HigherScore);
    SortMembers(items, HigherScore);
    var a, b := IdsOf(items), IdsOf(s);
    forall id ensures id in b <==> id in a {
      if id in b {
        var i :| 0 <= i < |b| && b[i] == id;
        assert s[i] in items;
        var p :| 0 <= p < |items| && items[p] == s[i];
        assert a[p] == id;
      }
      if id in a {
        var p :| 0 <= p < |a| && a[p] == id;
        assert items[p] in s;
        var i :| 0 <= i < |s| && s[i] == items[p];
        assert b[i] == id;
      }
    }
    DistinctCard(a);
    assert Elements(a) == Elements(b);
    CardDistinct(b);
  }

  // ---- Dominance ----

  /** x is placed at least as well as y in a list; being absent is worst. */
  ghost predicate AtLeastAsWell(ids: seq<Id>, x: Id, y: Id) {
    y in ids ==> exists i, j :: 0 <= i <= j < |ids| && ids[i] == x && ids[j] == y
  }

  /** x is placed strictly better than y. */
  ghost predicate Better(ids: seq<Id>, x: Id, y: Id) {
    x in ids && (y in ids ==> exists i, j :: 0 <= i < j < |ids| && ids[i] == x && ids[j] == y)
  }

  lemma {:induction false} PlaceScore(ids: seq<Id>, k: int, i: nat)
    requires Distinct(ids) && i < |ids| && Safe(|ids|, k)
    ensures ListScore(ids, k, ids[i]) == 1.0 / (k + i + 1) as real
  {
    var n := |ids| - 1;
    if i == n {
      assert ids[n] !in ids[..n];
    } else {
      PlaceScore(ids[..n], k, i);
    }
  }

  lemma {:induction false} SmallerRank(a: nat, b: nat)
    requires 0 < a <= b
    ensures 1.0 / a as real >= 1.0 / b as real
    ensures a < b ==> 1.0 / a as real > 1.0 / b as real
  {
    var x, y := 1.0 / a as real, 1.0 / b as real;
    assert x * a as real == 1.0 && y * b as real == 1.0;
    assert x * b as real == x * a as real + x * (b - a) as real;
  }

  lemma {:induction false} PlacedScore(ids: seq<Id>, k: int, x: Id, y: Id)
    requires Distinct(ids) && k >= 0
    ensures AtLeastAsWell(ids, x, y) ==> ListScore(ids, k, x) >= ListScore(ids, k, y)
    ensures Better(ids, x, y) ==> ListScore(ids, k, x) > ListScore(ids, k, y)
  {
    if y in ids && AtLeastAsWell(ids, x, y) {
      var i, j :| 0 <= i <= j < |ids| && ids[i] == x && ids[j] == y;
      PlaceScore(ids, k, i);
      PlaceScore(ids, k, j);
      SmallerRank(k + i + 1, k + j + 1);
    }
    if y in ids && Better(ids, x, y) {
      var i, j :| 0 <= i < j < |ids| && ids[i] == x && ids[j] == y;
      PlaceScore(ids, k, i);
      PlaceScore(ids, k, j);
      SmallerRank(k + i + 1, k + j + 1);
    }
  }

  /** x is placed at least as well as y in both lists, and strictly better in one. */
  ghost predicate Dominates(dense: seq<Id>, bm25: seq<Id>, x: Id, y: Id) {
    && AtLeastAsWell(dense, x, y) && AtLeastAsWell(bm25, x, y)
    && (Better(dense, x, y) || Better(bm25, x, y))
  }

  /** For lists without duplicates, an id that dominates another is fused ahead of it. */
  lemma {:induction false} Dominance(dense: seq<Id>, bm25: seq<Id>, k: nat, fused: seq<Id>, p: nat, q: nat)
    requires Distinct(dense) && Distinct(bm25) && p < |fused| && q < |fused| && p != q
    requires IsFused(fused, dense, bm25, k)
    requires Dominates(dense, bm25, fused[p], fused[q])
    ensures p < q
  {
    PlacedScore(dense, k, fused[p], fused[q]);
    PlacedScore(bm25, k, fused[p], fused[q]);
  }

  /** Fusing with k keeps dominance in all duplicate-free lists. */
  ghost predicate KeepsDominance(k: int) {
    forall dense, bm25, fused, p, q ::
      Distinct(dense) && Distinct(bm25) && IsFused(fused, dense, bm25, k) &&
      0 <= p < |fused| && 0 <= q < |fused| && p != q && Dominates(dense, bm25, fused[p], fused[q]) ==>
        p < q
  }

  /** Dominance is kept for every k the code would use and even for -1 and -2, with
      which only lists of at most one element can be fused; but for no smaller k. */
  lemma {:induction false} DominanceExactly(k: int)
    ensures KeepsDominance(k) <==> k >= -2
  {
    if k >= 0 {
      forall dense, bm25, fused, p: nat, q: nat |
        Distinct(dense) && Distinct(bm25) && IsFused(fused, dense, bm25, k) &&
        p < |fused| && q < |fused| && p != q && Dominates(dense, bm25, fused[p], fused[q])
        ensures p < q
      {
        Dominance(dense, bm25, k, fused, p, q);
      }
    } else if k >= -2 {
      forall dense, bm25, x, y | |dense| <= 1 && |bm25| <= 1 && x != y && Dominates(dense, bm25, x, y)
        ensures y !in dense && y !in bm25
      {
      }
    } else {
      NegativeDominance(k, "x", "y", "z");
    }
  }

  /** With k below -2, y comes before x although x leads it in the first list and y is not in the second. */
  lemma {:induction false} NegativeDominance(k: int, x: Id, y: Id, z: Id)
    requires k < -2 && x != y && y != z && x != z
    ensures !KeepsDominance(k)
  {
    var dense, bm25 := [x, y], [z, x];
    LowScores(k, x, y, z);
    assert Dominates(dense, bm25, x, y) by {
      assert dense[0] == x && dense[1] == y && bm25[1] == x;
    }
    var r := FusedList(dense, bm25, k);
    hide FusedScore;
    hide Dominates;
    assert x in dense && y in dense;
    var p: nat :| p < |r| && r[p] == x;
    var q: nat :| q < |r| && r[q] == y;
  }

  lemma {:induction false} LowScores(k: int, x: Id, y: Id, z: Id)
    requires k < -2 && x != y && y != z && x != z
    ensures FusedScore([x, y], [z, x], k, x) < FusedScore([x, y], [z, x], k, y)
  {
    var dense, bm25 := [x, y], [z, x];
    PlaceScore(dense, k, 0);
    PlaceScore(dense, k, 1);
    PlaceScore(bm25, k, 1);
    Lower(k);
  }

  lemma {:induction false} Lower(k: int)
    requires k < -2
    ensures 1.0 / (k + 1) as real < 0.0
  {
  }

  /** Lists that can be fused have a fused list. */
  lemma {:induction false} FusedList(dense: seq<Id>, bm25: seq<Id>, k: int) returns (fused: seq<Id>)
    requires Safe(|dense|, k) && Safe(|bm25|, k)
    ensures IsFused(fused, dense, bm25, k)
  {
    var keys := FirstSeen(dense + bm25);
    var rrf := Dict(keys, map id | id in keys :: FusedScore(dense, bm25, k, id));
    FusedFacts(rrf, dense, bm25, k);
    fused := Ranked(rrf);
  }

  // ---- What a fused score is ----

  /** What the place of an id in a duplicate-free list is worth. */
  ghost predicate PlaceWorth(ids: seq<Id>, k: int, id: Id, worth: real)
    requires Safe(|ids|, k)
  {
    && (id !in ids ==> worth == 0.0)
    && (forall i :: 0 <= i < |ids| && ids[i] == id ==> worth == 1.0 / (k + i + 1) as real)
  }

  /** For duplicate-free lists: one over k plus the rank in the one, and the same for
      the other, neither counting for more than the other. */
  lemma {:induction false} FusedScoreMeaning(dense: seq<Id>, bm25: seq<Id>, k: int, id: Id, x: real, y: real)
    requires Safe(|dense|, k) && Safe(|bm25|, k) && Distinct(dense) && Distinct(bm25)
    requires PlaceWorth(dense, k, id, x) && PlaceWorth(bm25, k, id, y)
    ensures FusedScore(dense, bm25, k, id) == x + y
    ensures FusedScore(dense, bm25, k, id) == FusedScore(bm25, dense, k, id)
  {
    ListWorth(dense, k, id, x);
    ListWorth(bm25, k, id, y);
  }

  lemma {:induction false} ListWorth(ids: seq<Id>, k: int, id: Id, worth: real)
    requires Safe(|ids|, k) && Distinct(ids) && PlaceWorth(ids, k, id, worth)
    ensures ListScore(ids, k, id) == worth
  {
    if id in ids {
      var i :| 0 <= i < |ids| && ids[i] == id;
      PlaceScore(ids, k, i);
    }
  }
}
