/** The rank readout of bench/proc_corpus_census.py: where b stood in the last
    recall before the session's latest co-firing of (a, b). */
module CensusRank {
  import opened Options
  import opened Sorting

  /** Record ids, which are only ever compared for equality. */
  type Id = nat
  type Session = string
  type Time = int
  type Pair = (Id, Id)

  /** A retrieval_reinforced event; a missing `reinforced_ids` reads as []. */
  datatype Reinforced = Reinforced(ts: Time, session: Option<Session>, ids: seq<Id>)

  /** A retrieval_used event. */
  datatype Used = Used(ts: Time, session: Option<Session>, hitIds: seq<Id>)

  /** a directly before b somewhere in the list. */
  predicate Fires(ids: seq<Id>, pair: Pair) {
    exists i :: 0 <= i < |ids| - 1 && ids[i] == pair.0 && ids[i + 1] == pair.1
  }

  predicate CoFires(e: Reinforced, pair: Pair, session: Session) {
    e.session == Some(session) && Fires(e.ids, pair)
  }

  // ---- What the rank is ----

  /** t is the time of the session's latest co-firing of the pair. */
  ghost predicate IsLatest(reinforced: seq<Reinforced>, pair: Pair, session: Session, t: Time) {
    && (exists i :: 0 <= i < |reinforced| && CoFires(reinforced[i], pair, session) && reinforced[i].ts == t)
    && (forall i :: 0 <= i < |reinforced| && CoFires(reinforced[i], pair, session) ==> reinforced[i].ts <= t)
  }

  predicate Eligible(u: Used, session: Session, t: Time) {
    u.session == Some(session) && u.ts <= t
  }

  /** Event j is the session's last one at or before t; of several at the same time, the later in the list. */
  ghost predicate IsAnchor(used: seq<Used>, session: Session, t: Time, j: nat) {
    && j < |used|
    && Eligible(used[j], session, t)
    && (forall k :: 0 <= k < |used| && Eligible(used[k], session, t) ==>
          used[k].ts < used[j].ts || (used[k].ts == used[j].ts && k <= j))
  }

  ghost predicate FirstAt(ids: seq<Id>, b: Id, r: nat) {
    r < |ids| && ids[r] == b && b !in ids[..r]
  }

  ghost predicate HasRank(reinforced: seq<Reinforced>, used: seq<Used>, pair: Pair, session: Session, r: nat) {
    exists t, j: nat ::
      IsLatest(reinforced, pair, session, t) && IsAnchor(used, session, t, j) && FirstAt(used[j].hitIds, pair.1, r)
  }

  // ---- The computation, as functions ----

  function LatestFiring(reinforced: seq<Reinforced>, pair: Pair, session: Session): Option<Time> {
    if reinforced == [] then None
    else
      var before, e := LatestFiring(reinforced[..|reinforced| - 1], pair, session), reinforced[|reinforced| - 1];
      if CoFires(e, pair, session) && (before.None? || e.ts > before.value) then Some(e.ts) else before
  }

  datatype Row = Row(ts: Time, hitIds: seq<Id>)

  /** The session's recalls, in list order. */
  function SessionRows(used: seq<Used>, session: Session): seq<Row> {
    if used == [] then []
    else
      var u := used[|used| - 1];
      SessionRows(used[..|used| - 1], session) + if u.session == Some(session) then [Row(u.ts, u.hitIds)] else []
  }

  predicate Earlier(x: Row, y: Row) {
    x.ts < y.ts
  }

  /** bisect_right on a sorted list: how many leading rows are at or before t. */
  function BisectRight(rows: seq<Row>, t: Time): (i: nat)
    ensures i <= |rows|
    ensures forall j :: 0 <= j < i ==> rows[j].ts <= t
    ensures i < |rows| ==> rows[i].ts > t
  {
    if rows == [] || rows[0].ts > t then 0
    else
      var i := BisectRight(rows[1..], t);
      assert forall j :: 0 < j < i + 1 ==> rows[j] == rows[1..][j - 1];
      i + 1
  }

  function IndexOf(ids: seq<Id>, b: Id): (r: Option<nat>)
    ensures r.Some? ==> FirstAt(ids, b, r.value)
    ensures r.None? ==> b !in ids
  {
    if ids == [] then None
    else if ids[0] == b then Some(0)
    else
      match IndexOf(ids[1..], b)
      case None => None
      case Some(r) =>
        assert ids[..r + 1] == [ids[0]] + ids[1..][..r];
        Some(r + 1)
  }

  function RankAtRecall(reinforced: seq<Reinforced>, used: seq<Used>, pair: Pair, session: Session): Option<nat> {
    match LatestFiring(reinforced, pair, session)
    case None => None
    case Some(t) =>
      var rows := StableSort(SessionRows(used, session), Earlier);
      SortMembers(SessionRows(used, session), Earlier);
      var i := BisectRight(rows, t);
      if i == 0 then None else IndexOf(rows[i - 1].hitIds, pair.1)
  }

  /** rank_at_recall, with its loop over the reinforced events. */
  method ComputeRankAtRecall(reinforced: seq<Reinforced>, used: seq<Used>, pair: Pair, session: Session)
    returns (rank: Option<nat>)
    ensures rank == RankAtRecall(reinforced, used, pair, session)
  {
    var reinforceTs: Option<Time> := None;
    for i := 0 to |reinforced|
      invariant reinforceTs == LatestFiring(reinforced[..i], pair, session)
    {
      assert reinforced[..i + 1][..i] == reinforced[..i];
      var e := reinforced[i];
      if e.session != Some(session) {
        continue;
      }
      if Fires(e.ids, pair) {
        if reinforceTs.None? || e.ts > reinforceTs.value {
          reinforceTs := Some(e.ts);
        }
      }
    }
    assert reinforced[..|reinforced|] == reinforced;
    if reinforceTs.None? {
      return None;
    }
    var sameSession: seq<Row> := [];
    for i := 0 to |used|
      invariant sameSession == SessionRows(used[..i], session)
    {
      assert used[..i + 1][..i] == used[..i];
      if used[i].session == Some(session) {
        sameSession := sameSession + [Row(used[i].ts, used[i].hitIds)];
      }
    }
    assert used[..|used|] == used;
    SortMembers(sameSession, Earlier);
    sameSession := StableSort(sameSession, Earlier);
    var idx := BisectRight(sameSession, reinforceTs.value) as int - 1;
    if idx < 0 {
      return None;
    }
    rank := IndexOf(sameSession[idx].hitIds, pair.1);
  }

  // ---- The computation meets the meaning ----

  lemma {:induction false} LatestMeaning(reinforced: seq<Reinforced>, pair: Pair, session: Session, t: Time)
    ensures LatestFiring(reinforced, pair, session) == Some(t) <==> IsLatest(reinforced, pair, session, t)
    ensures LatestFiring(reinforced, pair, session).None? ==>
              forall i :: 0 <= i < |reinforced| ==> !CoFires(reinforced[i], pair, session)
  {
    LatestSound(reinforced, pair, session);
  }

  lemma {:induction false} LatestSound(reinforced: seq<Reinforced>, pair: Pair, session: Session)
    ensures match LatestFiring(reinforced, pair, session)
            case Some(t) => IsLatest(reinforced, pair, session, t)
            case None => forall i :: 0 <= i < |reinforced| ==> !CoFires(reinforced[i], pair, session)
  {
    if reinforced != [] {
      var init, e := reinforced[..|reinforced| - 1], reinforced[|reinforced| - 1];
      LatestSound(init, pair, session);
      assert reinforced == init + [e];
      if LatestFiring(init, pair, session).Some? {
        var i :| 0 <= i < |init| && CoFires(init[i], pair, session) &&
                 init[i].ts == LatestFiring(init, pair, session).value;
        assert reinforced[i] == init[i];
      }
    }
  }

  /** The last of the latest rows at or before t. */
  function AnchorRow(rows: seq<Row>, t: Time): Option<Row> {
    if rows == [] then None
    else
      var before, r := AnchorRow(rows[..|rows| - 1], t), rows[|rows| - 1];
      if r.ts <= t && (before.None? || before.value.ts <= r.ts) then Some(r) else before
  }

  lemma {:induction false} AnchorRowFacts(rows: seq<Row>, t: Time)
    ensures match AnchorRow(rows, t)
            case None => forall i :: 0 <= i < |rows| ==> rows[i].ts > t
            case Some(r) =>
              r in rows && r.ts <= t && forall i :: 0 <= i < |rows| && rows[i].ts <= t ==> rows[i].ts <= r.ts
  {
    if rows != [] {
      AnchorRowFacts(rows[..|rows| - 1], t);
      assert rows == rows[..|rows| - 1] + [rows[|rows| - 1]];
    }
  }

  /** The rows at time m. */
  function AtTime(m: Time): Row -> bool {
    (r: Row) => r.ts == m
  }

  lemma {:induction false} FilterSnoc(p: Row -> bool, rows: seq<Row>, r: Row)
    ensures Filter(p, rows + [r]) == Filter(p, rows) + if p(r) then [r] else []
  {
    if rows != [] {
      FilterSnoc(p, rows[1..], r);
      assert (rows + [r])[1..] == rows[1..] + [r];
    }
  }

  /** The anchor is the last, in list order, of the rows at its time. */
  lemma {:induction false} AnchorIsLastOfItsTime(rows: seq<Row>, t: Time)
    requires AnchorRow(rows, t).Some?
    ensures var r := AnchorRow(rows, t).value;
            var same := Filter(AtTime(r.ts), rows);
            same != [] && same[|same| - 1] == r
  {
    var init, last := rows[..|rows| - 1], rows[|rows| - 1];
    assert rows == init + [last];
    var before := AnchorRow(init, t);
    if last.ts <= t && (before.None? || before.value.ts <= last.ts) {
      FilterSnoc(AtTime(last.ts), init, last);
    } else {
      AnchorIsLastOfItsTime(init, t);
      AnchorRowFacts(init, t);
      FilterSnoc(AtTime(before.value.ts), init, last);
    }
  }

  /** After sorting, the anchor is the row before the insertion point. */
  lemma {:induction false} SortedAnchor(rows: seq<Row>, t: Time)
    ensures var s := StableSort(rows, Earlier);
            AnchorRow(rows, t) == if BisectRight(s, t) == 0 then None else Some(s[BisectRight(s, t) - 1])
  {
    if AnchorRow(rows, t).Some? {
      AnchorFound(rows, StableSort(rows, Earlier), BisectRight(StableSort(rows, Earlier), t), t);
    } else {
      AnchorMissing(rows, StableSort(rows, Earlier), BisectRight(StableSort(rows, Earlier), t), t);
    }
  }

  lemma {:induction false} AnchorMissing(rows: seq<Row>, s: seq<Row>, i: nat, t: Time)
    requires s == StableSort(rows, Earlier) && i == BisectRight(s, t) && AnchorRow(rows, t).None?
    ensures i == 0
  {
    SortMembers(rows, Earlier);
    AnchorRowFacts(rows, t);
    forall j | 0 <= j < |s|
      ensures s[j].ts > t
    {
      assert s[j] in rows;
    }
  }

  lemma {:induction false} AnchorFound(rows: seq<Row>, s: seq<Row>, i: nat, t: Time)
    requires s == StableSort(rows, Earlier) && i == BisectRight(s, t) && AnchorRow(rows, t).Some?
    ensures i > 0 && s[i - 1] == AnchorRow(rows, t).value
  {
    var r := AnchorRow(rows, t).value;
    SortMembers(rows, Earlier);
    SortSorts(rows, Earlier);
    AnchorRowFacts(rows, t);
    LaterRows(s, t);
    SortStable(AtTime(r.ts), rows, Earlier);
    AnchorIsLastOfItsTime(rows, t);
    hide StableSort;
    hide AnchorRow;
    hide AtTime;
    hide Filter;
    BeforeInsertion(rows, s, i, t, r);
  }

  lemma {:induction false} LaterRows(s: seq<Row>, t: Time)
    requires Sorted(s, Earlier)
    ensures forall j :: BisectRight(s, t) <= j < |s| ==> s[j].ts > t
  {
    var i := BisectRight(s, t);
    forall j | i < j < |s|
      ensures s[j].ts > t
    {
      assert !Earlier(s[j], s[i]);
    }
  }

  lemma {:induction false} BeforeInsertion(rows: seq<Row>, s: seq<Row>, i: nat, t: Time, r: Row)
    requires i <= |s| && Sorted(s, Earlier) && r in s && r.ts <= t
    requires forall x :: x in s ==> x in rows
    requires forall j :: 0 <= j < |rows| && rows[j].ts <= t ==> rows[j].ts <= r.ts
    requires forall j :: 0 <= j < i ==> s[j].ts <= t
    requires forall j :: i <= j < |s| ==> s[j].ts > t
    requires Filter(AtTime(r.ts), s) == Filter(AtTime(r.ts), rows)
    requires var same := Filter(AtTime(r.ts), rows); same != [] && same[|same| - 1] == r
    ensures i > 0 && s[i - 1] == r
  {
    forall j | 0 <= j < i
      ensures s[j].ts <= r.ts
    {
      assert s[j] in rows;
    }
    LastOfTime(s, i);
  }

  lemma {:induction false} LastOfTime(s: seq<Row>, i: nat)
    requires 0 < i <= |s|
    requires forall j :: i <= j < |s| ==> s[j].ts > s[i - 1].ts
    ensures var same := Filter(AtTime(s[i - 1].ts), s);
            same != [] && same[|same| - 1] == s[i - 1]
    decreases |s|
  {
    var n := |s| - 1;
    assert s == s[..n] + [s[n]];
    FilterSnoc(AtTime(s[i - 1].ts), s[..n], s[n]);
    if i - 1 < n {
      LastOfTime(s[..n], i);
    }
  }

  /** `row` is the anchor's row. */
  ghost predicate IsAnchorRow(used: seq<Used>, session: Session, t: Time, row: Option<Row>) {
    match row
    case None => forall k :: 0 <= k < |used| ==> !Eligible(used[k], session, t)
    case Some(r) => exists j: nat :: IsAnchor(used, session, t, j) && r == Row(used[j].ts, used[j].hitIds)
  }

  lemma {:induction false} AnchorSound(used: seq<Used>, session: Session, t: Time)
    ensures IsAnchorRow(used, session, t, AnchorRow(SessionRows(used, session), t))
  {
    if used != [] {
      var init, u := used[..|used| - 1], used[|used| - 1];
      AnchorSound(init, session, t);
      assert used == init + [u];
      var before := AnchorRow(SessionRows(init, session), t);
      hide AnchorRow;
      if Eligible(u, session, t) && (before.None? || before.value.ts <= u.ts) {
        NewAnchor(init, session, t, before, u);
      } else {
        OldAnchor(init, session, t, before, u);
        assert SessionRows(init, session) + [] == SessionRows(init, session);
      }
    }
  }

  lemma {:induction false} NewAnchor(init: seq<Used>, session: Session, t: Time, before: Option<Row>, u: Used)
    requires IsAnchorRow(init, session, t, before)
    requires Eligible(u, session, t) && (before.None? || before.value.ts <= u.ts)
    ensures IsAnchorRow(init + [u], session, t, Some(Row(u.ts, u.hitIds)))
  {
    assert IsAnchor(init + [u], session, t, |init|);
  }

  lemma {:induction false} OldAnchor(init: seq<Used>, session: Session, t: Time, before: Option<Row>, u: Used)
    requires IsAnchorRow(init, session, t, before)
    requires Eligible(u, session, t) ==> before.Some? && before.value.ts > u.ts
    ensures IsAnchorRow(init + [u], session, t, before)
  {
    if before.Some? {
      var j: nat :| IsAnchor(init, session, t, j) && before.value == Row(init[j].ts, init[j].hitIds);
      assert (init + [u])[j] == init[j];
      assert IsAnchor(init + [u], session, t, j);
    }
  }

  /** rank_at_recall returns r exactly when the latest co-firing, its anchor and
      the first position of b in the anchor's hits exist and give r. */
  lemma {:induction false} RankMeaning(
    reinforced: seq<Reinforced>, used: seq<Used>, pair: Pair, session: Session, r: nat)
    ensures RankAtRecall(reinforced, used, pair, session) == Some(r) <==> HasRank(reinforced, used, pair, session, r)
  {
    var latest := LatestFiring(reinforced, pair, session);
    LatestSound(reinforced, pair, session);
    if latest.Some? {
      var t := latest.value;
      SortedAnchor(SessionRows(used, session), t);
      AnchorSound(used, session, t);
      if AnchorRow(SessionRows(used, session), t).Some? {
        var row := AnchorRow(SessionRows(used, session), t).value;
        var j: nat :| IsAnchor(used, session, t, j) && row == Row(used[j].ts, used[j].hitIds);
      }
    }
  }

}
