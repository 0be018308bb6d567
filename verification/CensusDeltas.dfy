/** The population and the range of the per-pair deltas (bench/proc_corpus_census.py). */
module CensusDeltas {
  import opened Options
  import opened Dicts
  import opened Sorting
  import opened CensusRank
  import opened Census
  import Bootstrap

  // ---- _distinct_sessions_ordered ----

  function SessionsIn(rows: seq<Firing>): set<Session> {
    set f | f in rows :: f.session
  }

  /** One row per session, the first of each. */
  function DistinctSessions(rows: seq<Firing>): seq<Firing> {
    if rows == [] then []
    else
      var r, last := DistinctSessions(rows[..|rows| - 1]), rows[|rows| - 1];
      if last.session in SessionsIn(r) then r else r + [last]
  }

  method DistinctSessionsOrdered(rows: seq<Firing>) returns (out: seq<Firing>)
    ensures out == DistinctSessions(rows)
  {
    var seen: set<Session> := {};
    out := [];
    for i := 0 to |rows|
      invariant out == DistinctSessions(rows[..i]) && seen == SessionsIn(out)
    {
      assert rows[..i + 1][..i] == rows[..i];
      if rows[i].session in seen {
        continue;
      }
      SessionsSnoc(out, rows[i]);
      seen := seen + {rows[i].session};
      out := out + [rows[i]];
    }
    assert rows[..|rows|] == rows;
  }

  lemma {:induction false} SessionsSnoc(rows: seq<Firing>, f: Firing)
    ensures SessionsIn(rows + [f]) == SessionsIn(rows) + {f.session}
  {
  }

  /** f is the earliest firing of its session. */
  ghost predicate Earliest(rows: seq<Firing>, f: Firing) {
    f in rows && forall g :: g in rows && g.session == f.session ==> f.ts <= g.ts
  }

  ghost predicate OnePerSession(rows: seq<Firing>) {
    forall i, j :: 0 <= i < j < |rows| ==> rows[i].session != rows[j].session
  }

  lemma {:induction false} DistinctFacts(rows: seq<Firing>)
    requires Sorted(rows, EarlierFiring)
    ensures OnePerSession(DistinctSessions(rows))
    ensures Sorted(DistinctSessions(rows), EarlierFiring)
    ensures SessionsIn(DistinctSessions(rows)) == SessionsIn(rows)
    ensures forall f :: f in DistinctSessions(rows) ==> Earliest(rows, f)
  {
    if rows != [] {
      var init, last := rows[..|rows| - 1], rows[|rows| - 1];
      assert rows == init + [last];
      DistinctFacts(init);
      NotAfterLast(init, last);
      var r := DistinctSessions(init);
      SessionsSnoc(init, last);
      SessionsSnoc(r, last);
      StillEarliest(init, last, r);
      if last.session !in SessionsIn(r) {
        NewSession(init, last, r);
      }
      hide Sorted;
      hide OnePerSession;
      hide Earliest;
      hide SessionsIn;
    }
  }

  lemma {:induction false} StillEarliest(init: seq<Firing>, last: Firing, r: seq<Firing>)
    requires forall f :: f in init ==> f.ts <= last.ts
    requires forall f :: f in r ==> Earliest(init, f)
    ensures forall f :: f in r ==> Earliest(init + [last], f)
  {
  }

  lemma {:induction false} NewSession(init: seq<Firing>, last: Firing, r: seq<Firing>)
    requires forall f :: f in init ==> f.ts <= last.ts
    requires OnePerSession(r) && Sorted(r, EarlierFiring) && SessionsIn(r) == SessionsIn(init)
    requires forall f :: f in r ==> f in init
    requires last.session !in SessionsIn(r)
    ensures OnePerSession(r + [last]) && Sorted(r + [last], EarlierFiring)
    ensures Earliest(init + [last], last)
  {
    forall i | 0 <= i < |r|
      ensures r[i].session in SessionsIn(r) && r[i].ts <= last.ts
    {
      assert r[i] in r;
    }
  }

  lemma {:induction false} NotAfterLast(init: seq<Firing>, last: Firing)
    requires Sorted(init + [last], EarlierFiring)
    ensures forall f :: f in init ==> f.ts <= last.ts
  {
    forall f | f in init
      ensures f.ts <= last.ts
    {
      var i :| 0 <= i < |init| && init[i] == f;
      assert !EarlierFiring((init + [last])[|init|], (init + [last])[i]);
    }
  }

  /** The session first fires the pair at t. */
  ghost predicate FirstFires(events: seq<Reinforced>, pair: Pair, session: Session, t: Time) {
    && Fired(events, pair, Firing(t, session))
    && forall u :: Fired(events, pair, Firing(u, session)) ==> t <= u
  }

  /** The sessions of a pair, each at its first firing, in order of time. */
  function PairSessions(events: seq<Reinforced>, pair: Pair): seq<Firing> {
    DistinctSessions(SortedFirings(events, pair))
  }

  lemma {:induction false} SortedFiringsFacts(events: seq<Reinforced>, pair: Pair)
    ensures Sorted(SortedFirings(events, pair), EarlierFiring)
    ensures forall f :: f in SortedFirings(events, pair) <==> Fired(events, pair, f)
  {
    SortSorts(PairFirings(events, pair), EarlierFiring);
    SortMembers(PairFirings(events, pair), EarlierFiring);
    forall f ensures f in PairFirings(events, pair) <==> Fired(events, pair, f) {
      PairFiringsMeaning(events, pair, f);
    }
  }

  /** A row says when its session first fired the pair, and every session has one. */
  lemma {:induction false} PairSessionsMeaning(events: seq<Reinforced>, pair: Pair, session: Session, t: Time)
    ensures Firing(t, session) in PairSessions(events, pair) <==> FirstFires(events, pair, session, t)
  {
    var rows := SortedFirings(events, pair);
    SortedFiringsFacts(events, pair);
    DistinctFacts(rows);
    if FirstFires(events, pair, session, t) {
      assert Firing(t, session) in rows;
      assert session in SessionsIn(DistinctSessions(rows));
      var f :| f in DistinctSessions(rows) && f.session == session;
      assert f == Firing(f.ts, session);
    }
  }

  // ---- Indicators and means ----

  function Indicator(rank: Option<nat>, k: int): real {
    if rank.Some? && rank.value < k then 1.0 else 0.0
  }

  function IndicatorSum(
    reinforced: seq<Reinforced>, used: seq<Used>, pair: Pair, sessions: seq<Session>, k: int): (r: real)
    ensures 0.0 <= r <= |sessions| as real
  {
    if sessions == [] then 0.0
    else
      IndicatorSum(reinforced, used, pair, sessions[..|sessions| - 1], k) +
      Indicator(RankAtRecall(reinforced, used, pair, sessions[|sessions| - 1]), k)
  }

  function MeanIndicator(
    reinforced: seq<Reinforced>, used: seq<Used>, pair: Pair, sessions: seq<Session>, k: int): (r: real)
    requires sessions != []
    ensures 0.0 <= r <= 1.0
  {
    IndicatorSum(reinforced, used, pair, sessions, k) / |sessions| as real
  }

  // ---- The delta of one pair ----

  /** The sessions in `rows` that fire at or after the cutoff. */
  function HeldOut(rows: seq<Firing>, cutoff: Time): seq<Session> {
    if rows == [] then []
    else
      var f := rows[|rows| - 1];
      HeldOut(rows[..|rows| - 1], cutoff) + if f.ts >= cutoff then [f.session] else []
  }

  /** The delta of a pair whose sessions, by first firing, are `distinct`; None if the pair is left out. */
  function DeltaOf(
    reinforced: seq<Reinforced>, used: seq<Used>, pair: Pair, distinct: seq<Firing>, cutoff: Time, k: int)
    : (r: Option<real>)
    ensures r.Some? ==> -1.0 <= r.value <= 1.0
  {
    if |distinct| < 2 || distinct[0].ts >= cutoff || HeldOut(distinct[1..], cutoff) == [] then None
    else
      Some(
        MeanIndicator(reinforced, used, pair, HeldOut(distinct[1..], cutoff), k) -
        MeanIndicator(reinforced, used, pair, [distinct[0].session], k))
  }

  function Delta(reinforced: seq<Reinforced>, used: seq<Used>, pair: Pair, cutoff: Time, k: int)
    : Option<real>
  {
    DeltaOf(reinforced, used, pair, PairSessions(reinforced, pair), cutoff, k)
  }

  /** The pairs of a list that have a delta, in order. */
  function WithDelta(
    pairs: seq<Pair>, reinforced: seq<Reinforced>, used: seq<Used>, cutoff: Time, k: int): (r: seq<Pair>)
    ensures forall p :: p in r <==> p in pairs && Delta(reinforced, used, p, cutoff, k).Some?
    ensures Distinct(pairs) ==> Distinct(r)
  {
    if pairs == [] then []
    else
      var init, p := pairs[..|pairs| - 1], pairs[|pairs| - 1];
      assert pairs == init + [p];
      WithDelta(init, reinforced, used, cutoff, k) + if Delta(reinforced, used, p, cutoff, k).Some? then [p] else []
  }

  ghost predicate Measured(
    deltas: Dict<Pair, real>, pairs: seq<Pair>, reinforced: seq<Reinforced>, used: seq<Used>, cutoff: Time, k: int)
  {
    && Wf(deltas)
    && deltas.keys == WithDelta(pairs, reinforced, used, cutoff, k)
    && (forall p :: p in deltas.at ==> Delta(reinforced, used, p, cutoff, k) == Some(deltas.at[p]))
  }

  method PerPairDeltas(reinforced: seq<Reinforced>, used: seq<Used>, cutoff: Time, k: int)
    returns (deltas: Dict<Pair, real>)
    ensures Measured(deltas, FirstFired(AllFirings(reinforced)), reinforced, used, cutoff, k)
  {
    hide FirstFired;
    hide FiringsOf;
    hide StableSort;
    hide DistinctSessions;
    hide Measured;
    hide DeltaOf;
    var ordered := PairSessionsOrdered(reinforced);
    deltas := Dicts.Empty();
    NothingMeasured(reinforced, used, cutoff, k);
    for i := 0 to |ordered.keys|
      invariant Measured(deltas, ordered.keys[..i], reinforced, used, cutoff, k)
    {
      var pair := ordered.keys[i];
      assert pair in ordered.keys && pair in ordered.at;
      assert pair !in ordered.keys[..i];
      var distinct := DistinctSessionsOrdered(ordered.at[pair]);
      assert distinct == PairSessions(reinforced, pair);
      var delta := MeasurePair(reinforced, used, pair, distinct, cutoff, k);
      MeasuredSnoc(deltas, ordered.keys, i, reinforced, used, cutoff, k);
      if delta.Some? {
        deltas := Put(deltas, pair, delta.value);
      }
    }
    assert ordered.keys[..|ordered.keys|] == ordered.keys;
  }

  lemma {:induction false} NothingMeasured(reinforced: seq<Reinforced>, used: seq<Used>, cutoff: Time, k: int)
    ensures Measured(Dicts.Empty(), [], reinforced, used, cutoff, k)
  {
  }

  /** One pass of the loop: the tests that leave a pair out, then the two means. */
  method MeasurePair(
    reinforced: seq<Reinforced>, used: seq<Used>, pair: Pair, distinct: seq<Firing>, cutoff: Time, k: int)
    returns (delta: Option<real>)
    ensures delta == DeltaOf(reinforced, used, pair, distinct, cutoff, k)
  {
    if |distinct| < 2 {
      return None;
    }
    var first := distinct[0];
    if first.ts >= cutoff {
      return None;
    }
    var repeats := HeldOut(distinct[1..], cutoff);
    if repeats == [] {
      return None;
    }
    var firstIndicator := MeanIndicator(reinforced, used, pair, [first.session], k);
    var repeatMean := MeanIndicator(reinforced, used, pair, repeats, k);
    return Some(repeatMean - firstIndicator);
  }

  lemma {:induction false} MeasuredSnoc(
    deltas: Dict<Pair, real>, pairs: seq<Pair>, i: nat, reinforced: seq<Reinforced>, used: seq<Used>,
    cutoff: Time, k: int)
    requires Distinct(pairs) && i < |pairs| && Measured(deltas, pairs[..i], reinforced, used, cutoff, k)
    ensures Measured(
              (match Delta(reinforced, used, pairs[i], cutoff, k)
               case None => deltas
               case Some(d) => Put(deltas, pairs[i], d)),
              pairs[..i + 1], reinforced, used, cutoff, k)
  {
    hide Delta;
    assert pairs[..i + 1][..i] == pairs[..i];
    assert pairs[i] !in pairs[..i];
    assert pairs[i] !in deltas.keys;
    assert WithDelta(pairs[..i + 1], reinforced, used, cutoff, k) ==
           WithDelta(pairs[..i], reinforced, used, cutoff, k) +
           if Delta(reinforced, used, pairs[i], cutoff, k).Some? then [pairs[i]] else [];
    hide WithDelta;
  }

  // ---- repetition_count ----

  function History(events: seq<Reinforced>, cutoff: Time): seq<Reinforced> {
    if events == [] then []
    else
      History(events[..|events| - 1], cutoff) +
      if events[|events| - 1].ts < cutoff then [events[|events| - 1]] else []
  }

  function SpreadOf(events: seq<Reinforced>, pair: Pair): set<Session> {
    SessionsIn(PairFirings(events, pair))
  }

  /** How many sessions fired each pair before the cutoff. */
  function RepetitionCount(events: seq<Reinforced>, cutoff: Time): map<Pair, nat> {
    var h := History(events, cutoff);
    map p | p in FirstFired(AllFirings(h)) :: |SpreadOf(h, p)|
  }

  lemma {:induction false} HistoryFired(events: seq<Reinforced>, cutoff: Time, pair: Pair, f: Firing)
    ensures Fired(History(events, cutoff), pair, f) <==> Fired(events, pair, f) && f.ts < cutoff
  {
    if events != [] {
      var init, e := events[..|events| - 1], events[|events| - 1];
      HistoryFired(init, cutoff, pair, f);
      assert events == init + [e];
      FiredSnoc(init, e, pair, f);
      FiredSnoc(History(init, cutoff), e, pair, f);
      assert e.ts >= cutoff ==> History(events, cutoff) == History(init, cutoff);
    }
  }

  lemma {:induction false} FiredSnoc(events: seq<Reinforced>, e: Reinforced, pair: Pair, f: Firing)
    ensures Fired(events + [e], pair, f) <==>
            Fired(events, pair, f) || (Fires(e.ids, pair) && f == Firing(e.ts, SessionKey(e)))
  {
    if Fired(events, pair, f) {
      var i :| 0 <= i < |events| && Fires(events[i].ids, pair) && f == Firing(events[i].ts, SessionKey(events[i]));
      assert (events + [e])[i] == events[i];
    }
    if Fires(e.ids, pair) && f == Firing(e.ts, SessionKey(e)) {
      assert (events + [e])[|events|] == e;
    }
  }

  /** A pair is counted exactly if it fired before the cutoff. */
  lemma {:induction false} RepetitionKeys(events: seq<Reinforced>, cutoff: Time, pair: Pair)
    ensures pair in RepetitionCount(events, cutoff) <==> exists f :: Fired(events, pair, f) && f.ts < cutoff
  {
    var h := History(events, cutoff);
    var fs := PairFirings(h, pair);
    if fs != [] {
      PairFiringsMeaning(h, pair, fs[0]);
      HistoryFired(events, cutoff, pair, fs[0]);
    }
    forall f | Fired(events, pair, f) && f.ts < cutoff
      ensures fs != []
    {
      HistoryFired(events, cutoff, pair, f);
      PairFiringsMeaning(h, pair, f);
    }
  }

  // ---- The declared population ----

  lemma {:induction false} HeldOutMembers(rows: seq<Firing>, cutoff: Time, s: Session)
    ensures s in HeldOut(rows, cutoff) <==> exists f :: f in rows && f.session == s && f.ts >= cutoff
  {
    if rows != [] {
      HeldOutMembers(rows[..|rows| - 1], cutoff, s);
      assert rows == rows[..|rows| - 1] + [rows[|rows| - 1]];
    }
  }

  /** Some session first fires the pair in the held-out window. */
  ghost predicate Recurs(events: seq<Reinforced>, pair: Pair, cutoff: Time) {
    exists s, t :: FirstFires(events, pair, s, t) && t >= cutoff
  }

  lemma {:induction false} SomeHeldOut(rows: seq<Firing>, cutoff: Time)
    ensures HeldOut(rows, cutoff) != [] <==> exists f :: f in rows && f.ts >= cutoff
  {
    if HeldOut(rows, cutoff) != [] {
      HeldOutMembers(rows, cutoff, HeldOut(rows, cutoff)[0]);
    }
    forall f | f in rows && f.ts >= cutoff
      ensures HeldOut(rows, cutoff) != []
    {
      HeldOutMembers(rows, cutoff, f.session);
    }
  }

  lemma {:induction false} RecursMeaning(events: seq<Reinforced>, pair: Pair, cutoff: Time)
    ensures Recurs(events, pair, cutoff) <==> exists f :: f in PairSessions(events, pair) && f.ts >= cutoff
  {
    forall s, t ensures Firing(t, s) in PairSessions(events, pair) <==> FirstFires(events, pair, s, t) {
      PairSessionsMeaning(events, pair, s, t);
    }
    if exists f :: f in PairSessions(events, pair) && f.ts >= cutoff {
      var f :| f in PairSessions(events, pair) && f.ts >= cutoff;
      assert f == Firing(f.ts, f.session);
      assert FirstFires(events, pair, f.session, f.ts);
    }
  }

  /** The first session of the list is the earliest firing of the pair. */
  lemma {:induction false} FirstSession(events: seq<Reinforced>, pair: Pair, cutoff: Time)
    ensures var d := PairSessions(events, pair);
            (d != [] && d[0].ts < cutoff) <==> exists f :: Fired(events, pair, f) && f.ts < cutoff
  {
    var rows, d := SortedFirings(events, pair), PairSessions(events, pair);
    SortedFiringsFacts(events, pair);
    DistinctFacts(rows);
    if d != [] {
      assert d[0] in d && d[0] in rows;
    }
    forall f | Fired(events, pair, f) && f.ts < cutoff
      ensures d != [] && d[0].ts < cutoff
    {
      assert f.session in SessionsIn(d);
      var g :| g in d && g.session == f.session;
      var i :| 0 <= i < |d| && d[i] == g;
      assert Earliest(rows, g);
      assert i == 0 || !EarlierFiring(d[i], d[0]);
    }
  }

  /** A pair has a delta exactly if it is counted in the history and recurs in the
      held-out window. */
  lemma {:induction false} Population(reinforced: seq<Reinforced>, used: seq<Used>, pair: Pair, cutoff: Time, k: int)
    ensures Delta(reinforced, used, pair, cutoff, k).Some? <==>
            pair in RepetitionCount(reinforced, cutoff) && Recurs(reinforced, pair, cutoff)
  {
    var d := PairSessions(reinforced, pair);
    RepetitionKeys(reinforced, cutoff, pair);
    FirstSession(reinforced, pair, cutoff);
    RecursMeaning(reinforced, pair, cutoff);
    if d != [] {
      SomeHeldOut(d[1..], cutoff);
      assert d == [d[0]] + d[1..];
    }
  }

  /** Every session averaged into the repeat mean is one that never fired the pair
      before the cutoff, and every such session is averaged. */
  lemma {:induction false} RepeatsAreHeldOut(reinforced: seq<Reinforced>, pair: Pair, cutoff: Time, s: Session)
    requires var d := PairSessions(reinforced, pair); d != [] && d[0].ts < cutoff
    ensures s in HeldOut(PairSessions(reinforced, pair)[1..], cutoff) <==>
            && (exists t :: Fired(reinforced, pair, Firing(t, s)))
            && (forall t :: Fired(reinforced, pair, Firing(t, s)) ==> t >= cutoff)
  {
    RepeatFirstFires(reinforced, pair, cutoff, s);
    if exists t :: Fired(reinforced, pair, Firing(t, s)) {
      var t :| Fired(reinforced, pair, Firing(t, s));
      var first := SomeFirst(reinforced, pair, s, t);
    }
  }

  /** A session that fires the pair has a first firing of it. */
  lemma {:induction false} SomeFirst(events: seq<Reinforced>, pair: Pair, s: Session, t: Time) returns (first: Time)
    requires Fired(events, pair, Firing(t, s))
    ensures FirstFires(events, pair, s, first)
  {
    var rows := SortedFirings(events, pair);
    SortedFiringsFacts(events, pair);
    DistinctFacts(rows);
    assert Firing(t, s) in rows && s in SessionsIn(DistinctSessions(rows));
    var f :| f in DistinctSessions(rows) && f.session == s;
    assert f == Firing(f.ts, s);
    first := f.ts;
    PairSessionsMeaning(events, pair, s, first);
  }

  /** The repeats are the sessions that first fire the pair at or after the cutoff. */
  lemma {:induction false} RepeatFirstFires(reinforced: seq<Reinforced>, pair: Pair, cutoff: Time, s: Session)
    requires var d := PairSessions(reinforced, pair); d != [] && d[0].ts < cutoff
    ensures s in HeldOut(PairSessions(reinforced, pair)[1..], cutoff) <==>
            exists t :: FirstFires(reinforced, pair, s, t) && t >= cutoff
  {
    TailHeldOut(PairSessions(reinforced, pair), cutoff, s);
    hide PairSessions;
    hide HeldOut;
    hide FirstFires;
    forall t ensures Firing(t, s) in PairSessions(reinforced, pair) <==> FirstFires(reinforced, pair, s, t) {
      PairSessionsMeaning(reinforced, pair, s, t);
    }
  }

  lemma {:induction false} TailHeldOut(d: seq<Firing>, cutoff: Time, s: Session)
    requires d != [] && d[0].ts < cutoff
    ensures s in HeldOut(d[1..], cutoff) <==> exists t :: Firing(t, s) in d && t >= cutoff
  {
    HeldOutMembers(d[1..], cutoff, s);
    assert d == [d[0]] + d[1..];
    hide HeldOut;
    if f: Firing :| f in d[1..] && f.session == s && f.ts >= cutoff {
      assert f == Firing(f.ts, s);
    }
  }

  // ---- Every session is either history or repeat ----

  lemma {:induction false} HeldOutCard(rows: seq<Firing>, cutoff: Time)
    requires OnePerSession(rows)
    ensures Distinct(HeldOut(rows, cutoff))
  {
    if rows != [] {
      var init, f := rows[..|rows| - 1], rows[|rows| - 1];
      HeldOutCard(init, cutoff);
      HeldOutMembers(init, cutoff, f.session);
    }
  }

  lemma {:induction false} HistorySpread(events: seq<Reinforced>, pair: Pair, cutoff: Time, s: Session)
    ensures s in SpreadOf(History(events, cutoff), pair) <==>
            exists t :: Fired(events, pair, Firing(t, s)) && t < cutoff
  {
    var h := History(events, cutoff);
    if s in SpreadOf(h, pair) {
      var f :| f in PairFirings(h, pair) && f.session == s;
      PairFiringsMeaning(h, pair, f);
      HistoryFired(events, cutoff, pair, f);
      assert f == Firing(f.ts, s);
    }
    forall t | Fired(events, pair, Firing(t, s)) && t < cutoff
      ensures s in SpreadOf(h, pair)
    {
      HistoryFired(events, cutoff, pair, Firing(t, s));
      PairFiringsMeaning(h, pair, Firing(t, s));
    }
  }

  /** The repetition count is the number of different sessions that fired the pair before the cutoff. */
  lemma {:induction false} RepetitionMeaning(events: seq<Reinforced>, cutoff: Time, pair: Pair, sessions: set<Session>)
    requires forall s :: s in sessions <==> exists t :: Fired(events, pair, Firing(t, s)) && t < cutoff
    ensures if sessions == {} then pair !in RepetitionCount(events, cutoff)
            else pair in RepetitionCount(events, cutoff) && RepetitionCount(events, cutoff)[pair] == |sessions|
  {
    RepetitionKeys(events, cutoff, pair);
    var spread := SpreadOf(History(events, cutoff), pair);
    forall s ensures s in spread <==> s in sessions {
      HistorySpread(events, pair, cutoff, s);
    }
    assert spread == sessions;
    hide SpreadOf;
    hide History;
    forall f | Fired(events, pair, f) && f.ts < cutoff
      ensures f.session in sessions
    {
      assert f == Firing(f.ts, f.session);
    }
  }

  /** For a pair with a delta, the repetition count and the number of repeats add
      up to the number of sessions that ever fired it. */
  lemma {:induction false} SplitConserved(
    reinforced: seq<Reinforced>, used: seq<Used>, pair: Pair, cutoff: Time, k: int)
    requires Delta(reinforced, used, pair, cutoff, k).Some?
    ensures pair in RepetitionCount(reinforced, cutoff)
    ensures RepetitionCount(reinforced, cutoff)[pair] + |HeldOut(PairSessions(reinforced, pair)[1..], cutoff)|
            == |SpreadOf(reinforced, pair)|
  {
    Population(reinforced, used, pair, cutoff, k);
    var d := PairSessions(reinforced, pair);
    SortedFiringsFacts(reinforced, pair);
    DistinctFacts(SortedFirings(reinforced, pair));
    HeldOutCard(d[1..], cutoff);
    DistinctCard(HeldOut(d[1..], cutoff));
    var past := SpreadOf(History(reinforced, cutoff), pair);
    var rep := Elements(HeldOut(d[1..], cutoff));
    forall s
      ensures s in past ==> s !in rep
      ensures s in SpreadOf(reinforced, pair) <==> s in past || s in rep
    {
      SplitSession(reinforced, pair, cutoff, s);
    }
    assert SpreadOf(reinforced, pair) == past + rep && past !! rep;
  }

  lemma {:induction false} SplitSession(reinforced: seq<Reinforced>, pair: Pair, cutoff: Time, s: Session)
    requires var d := PairSessions(reinforced, pair); d != [] && d[0].ts < cutoff
    ensures var past := s in SpreadOf(History(reinforced, cutoff), pair);
            var rep := s in HeldOut(PairSessions(reinforced, pair)[1..], cutoff);
            !(past && rep) && (s in SpreadOf(reinforced, pair) <==> past || rep)
  {
    HistorySpread(reinforced, pair, cutoff, s);
    RepeatsAreHeldOut(reinforced, pair, cutoff, s);
    if s in SpreadOf(reinforced, pair) {
      var f :| f in PairFirings(reinforced, pair) && f.session == s;
      PairFiringsMeaning(reinforced, pair, f);
      assert f == Firing(f.ts, s);
    }
    forall t | Fired(reinforced, pair, Firing(t, s))
      ensures s in SpreadOf(reinforced, pair)
    {
      PairFiringsMeaning(reinforced, pair, Firing(t, s));
    }
  }

  /** list(deltas.values()) */
  function Values(deltas: Dict<Pair, real>): (r: seq<real>)
    requires Wf(deltas)
    ensures |r| == |deltas.keys| && forall i :: 0 <= i < |r| ==> r[i] == deltas.at[deltas.keys[i]]
  {
    seq(|deltas.keys|, i requires 0 <= i < |deltas.keys| => deltas.at[deltas.keys[i]])
  }

  /** The two-sided floor of the deltas, even of none, is an interval inside [-1, 1]. */
  lemma {:induction false} DeltaFloor(
    deltas: Dict<Pair, real>, pairs: seq<Pair>, reinforced: seq<Reinforced>, used: seq<Used>, cutoff: Time, k: int,
    rng: Bootstrap.Rng, iters: int, seed: int)
    requires Measured(deltas, pairs, reinforced, used, cutoff, k) && (iters > 0 || deltas.keys == [])
    ensures Bootstrap.TwoSidedFloor(rng, Values(deltas), iters, seed).Some?
    ensures var (low, high) := Bootstrap.TwoSidedFloor(rng, Values(deltas), iters, seed).value;
            -1.0 <= low <= high <= 1.0
  {
    forall i | 0 <= i < |Values(deltas)|
      ensures -1.0 <= Values(deltas)[i] <= 1.0
    {
      var p := deltas.keys[i];
      assert p in deltas.keys && Delta(reinforced, used, p, cutoff, k) == Some(deltas.at[p]);
    }
    if deltas.keys != [] {
      Bootstrap.FloorIsInterval(rng, Values(deltas), iters, seed, -1.0, 1.0);
    }
  }
}
