/** What the number that bench/proc_corpus_census.py reports for a pair is, said
    without sorting or grouping. */
module CensusMeaning {
  import opened Options
  import opened Dicts
  import opened Sorting
  import opened CensusRank
  import opened Census
  import opened CensusDeltas

  /** b was among the first k hits of the recall that the session is read from. */
  ghost predicate Recalled(reinforced: seq<Reinforced>, used: seq<Used>, pair: Pair, s: Session, k: int) {
    exists r: nat :: HasRank(reinforced, used, pair, s, r) && r < k
  }

  /** f is the pair's earliest firing; of several at the same time, the one listed first. */
  ghost predicate Opens(events: seq<Reinforced>, pair: Pair, f: Firing) {
    exists i :: OpensAt(events, pair, f, i)
  }

  ghost predicate OpensAt(events: seq<Reinforced>, pair: Pair, f: Firing, i: int) {
    && 0 <= i < |events|
    && Fires(events[i].ids, pair) && f == Firing(events[i].ts, SessionKey(events[i]))
    && (forall j :: 0 <= j < |events| && Fires(events[j].ids, pair) ==> events[j].ts >= f.ts)
    && (forall j :: 0 <= j < i && Fires(events[j].ids, pair) ==> events[j].ts > f.ts)
  }

  /** The sessions that fired the pair, but never before the cutoff. */
  ghost function Repeats(events: seq<Reinforced>, pair: Pair, cutoff: Time): set<Session> {
    set s | s in SpreadOf(events, pair) && forall t :: Fired(events, pair, Firing(t, s)) ==> t >= cutoff
  }

  ghost function Hits(
    reinforced: seq<Reinforced>, used: seq<Used>, pair: Pair, sessions: set<Session>, k: int): set<Session> {
    set s | s in sessions && Recalled(reinforced, used, pair, s, k)
  }

  lemma {:induction false} IndicatorMeaning(
    reinforced: seq<Reinforced>, used: seq<Used>, pair: Pair, s: Session, k: int)
    ensures Indicator(RankAtRecall(reinforced, used, pair, s), k) ==
            if Recalled(reinforced, used, pair, s, k) then 1.0 else 0.0
  {
    var rank := RankAtRecall(reinforced, used, pair, s);
    forall r: nat
      ensures rank == Some(r) <==> HasRank(reinforced, used, pair, s, r)
    {
      RankMeaning(reinforced, used, pair, s, r);
    }
    hide HasRank;
    hide RankAtRecall;
    if rank.Some? {
      assert rank == Some(rank.value);
    }
  }

  /** The indicators of different sessions add up to the number of hits. */
  lemma {:induction false} IndicatorsCount(
    reinforced: seq<Reinforced>, used: seq<Used>, pair: Pair, sessions: seq<Session>, k: int)
    requires Distinct(sessions)
    ensures IndicatorSum(reinforced, used, pair, sessions, k) ==
            |Hits(reinforced, used, pair, Elements(sessions), k)| as real
  {
    hide RankAtRecall;
    hide Recalled;
    if sessions == [] {
      assert Hits(reinforced, used, pair, Elements(sessions), k) == {};
    } else {
      var init, s := sessions[..|sessions| - 1], sessions[|sessions| - 1];
      IndicatorsCount(reinforced, used, pair, init, k);
      IndicatorMeaning(reinforced, used, pair, s, k);
      HitsSnoc(reinforced, used, pair, init, s, k);
      assert sessions == init + [s];
    }
  }

  lemma {:induction false} HitsSnoc(
    reinforced: seq<Reinforced>, used: seq<Used>, pair: Pair, init: seq<Session>, s: Session, k: int)
    requires s !in init
    ensures |Hits(reinforced, used, pair, Elements(init + [s]), k)| ==
            |Hits(reinforced, used, pair, Elements(init), k)| + if Recalled(reinforced, used, pair, s, k) then 1 else 0
  {
    hide Recalled;
    assert Hits(reinforced, used, pair, Elements(init + [s]), k) ==
           Hits(reinforced, used, pair, Elements(init), k) + if Recalled(reinforced, used, pair, s, k) then {s} else {};
  }

  // ---- The first session ----

  /** f is the first of the earliest elements. */
  ghost predicate Leads(fs: seq<Firing>, f: Firing) {
    exists i :: LeadsAt(fs, f, i)
  }

  ghost predicate LeadsAt(fs: seq<Firing>, f: Firing, i: int) {
    && 0 <= i < |fs| && fs[i] == f
    && (forall j :: 0 <= j < |fs| ==> fs[j].ts >= f.ts)
    && (forall j :: 0 <= j < i ==> fs[j].ts > f.ts)
  }

  lemma {:induction false} SortLeads(fs: seq<Firing>)
    requires fs != []
    ensures StableSort(fs, EarlierFiring) != [] && Leads(fs, StableSort(fs, EarlierFiring)[0])
  {
    var tail := StableSort(fs[1..], EarlierFiring);
    SortPermutes(fs[1..], EarlierFiring);
    if |fs| == 1 {
      assert LeadsAt(fs, fs[0], 0);
    } else {
      SortLeads(fs[1..]);
      var i :| LeadsAt(fs[1..], tail[0], i);
      assert forall j :: 0 < j < |fs| ==> fs[j] == fs[1..][j - 1];
      if EarlierFiring(tail[0], fs[0]) {
        assert LeadsAt(fs, tail[0], i + 1);
      } else {
        assert LeadsAt(fs, fs[0], 0);
      }
    }
  }

  lemma {:induction false} DistinctHead(rows: seq<Firing>)
    requires rows != []
    ensures DistinctSessions(rows) != [] && DistinctSessions(rows)[0] == rows[0]
  {
    if |rows| > 1 {
      DistinctHead(rows[..|rows| - 1]);
    }
  }

  lemma {:induction false} EventFiringsOf(e: Reinforced, pair: Pair, k: nat)
    requires k == 0 || k < |e.ids|
    ensures forall f :: f in FiringsOf(EventFirings(e, k), pair) ==> f == Firing(e.ts, SessionKey(e))
  {
    if k > 0 {
      EventFiringsOf(e, pair, k - 1);
      var init := EventFirings(e, k - 1);
      assert EventFirings(e, k)[..k - 1] == init;
    }
  }

  lemma {:induction false} FiringsOfAppend(a: seq<Tagged>, b: seq<Tagged>, pair: Pair)
    ensures FiringsOf(a + b, pair) == FiringsOf(a, pair) + FiringsOf(b, pair)
  {
    if b == [] {
      assert a + b == a;
    } else {
      FiringsOfAppend(a, b[..|b| - 1], pair);
      assert (a + b)[..|a + b| - 1] == a + b[..|b| - 1];
    }
  }

  /** The list that is sorted begins its earliest time with the firing listed first. */
  lemma {:induction false} LeadOpens(events: seq<Reinforced>, pair: Pair, f: Firing)
    requires Leads(PairFirings(events, pair), f)
    ensures Opens(events, pair, f)
  {
    if events != [] {
      var init, e := events[..|events| - 1], events[|events| - 1];
      FiringsOfAppend(AllFirings(init), EventFirings(e, PairCount(e)), pair);
      NothingEarlier(events, pair, f);
      assert events == init + [e] && events[|init|] == e;
      hide PairFirings;
      hide Opens;
      var i :| LeadsAt(PairFirings(events, pair), f, i);
      if i < |PairFirings(init, pair)| {
        LeadsBefore(PairFirings(init, pair), PairFirings(events, pair), f, i);
        LeadOpens(init, pair, f);
        OpensLater(init, e, pair, f);
      } else {
        LastOpens(init, e, pair, f, i);
      }
    }
  }

  lemma {:induction false} LeadsBefore(fs: seq<Firing>, more: seq<Firing>, f: Firing, i: int)
    requires fs <= more && i < |fs| && LeadsAt(more, f, i)
    ensures Leads(fs, f)
  {
    assert forall j :: 0 <= j < |fs| ==> fs[j] == more[j];
    assert LeadsAt(fs, f, i);
  }

  lemma {:induction false} NothingEarlier(events: seq<Reinforced>, pair: Pair, f: Firing)
    requires Leads(PairFirings(events, pair), f)
    ensures forall j :: 0 <= j < |events| && Fires(events[j].ids, pair) ==> events[j].ts >= f.ts
  {
    forall j | 0 <= j < |events| && Fires(events[j].ids, pair)
      ensures events[j].ts >= f.ts
    {
      assert Fired(events, pair, Firing(events[j].ts, SessionKey(events[j])));
      PairFiringsMeaning(events, pair, Firing(events[j].ts, SessionKey(events[j])));
    }
  }

  lemma {:induction false} OpensLater(init: seq<Reinforced>, e: Reinforced, pair: Pair, f: Firing)
    requires Opens(init, pair, f)
    requires Fires(e.ids, pair) ==> e.ts >= f.ts
    ensures Opens(init + [e], pair, f)
  {
    hide Fires;
    var i :| OpensAt(init, pair, f, i);
    assert OpensAt(init + [e], pair, f, i);
  }

  lemma {:induction false} LastOpens(init: seq<Reinforced>, e: Reinforced, pair: Pair, f: Firing, i: int)
    requires var events := init + [e]; LeadsAt(PairFirings(events, pair), f, i)
    requires i >= |PairFirings(init, pair)|
    requires PairFirings(init + [e], pair) == PairFirings(init, pair) + FiringsOf(EventFirings(e, PairCount(e)), pair)
    requires forall j :: 0 <= j < |init + [e]| && Fires((init + [e])[j].ids, pair) ==> (init + [e])[j].ts >= f.ts
    ensures Opens(init + [e], pair, f)
  {
    var new' := FiringsOf(EventFirings(e, PairCount(e)), pair);
    assert new'[i - |PairFirings(init, pair)|] == f;
    EventFiringsOf(e, pair, PairCount(e));
    FiringsOfMembers(EventFirings(e, PairCount(e)), pair, f);
    EventFiringsMeaning(e, Tagged(pair, f));
    var old' := PairFirings(init, pair);
    forall j | 0 <= j < |init| && Fires(init[j].ids, pair)
      ensures init[j].ts > f.ts
    {
      assert Fired(init, pair, Firing(init[j].ts, SessionKey(init[j])));
      PairFiringsMeaning(init, pair, Firing(init[j].ts, SessionKey(init[j])));
      var p :| 0 <= p < |old'| && old'[p] == Firing(init[j].ts, SessionKey(init[j]));
      assert PairFirings(init + [e], pair)[p] == old'[p];
    }
    assert OpensAt(init + [e], pair, f, |init|);
  }

  lemma {:induction false} FirstSessionOpens(events: seq<Reinforced>, pair: Pair)
    requires PairSessions(events, pair) != []
    ensures Opens(events, pair, PairSessions(events, pair)[0])
  {
    var fs := PairFirings(events, pair);
    assert fs == [] ==> SortedFirings(events, pair) == [];
    SortLeads(fs);
    DistinctHead(SortedFirings(events, pair));
    LeadOpens(events, pair, PairSessions(events, pair)[0]);
  }

  lemma {:induction false} OpensOnce(events: seq<Reinforced>, pair: Pair, f: Firing, g: Firing)
    requires Opens(events, pair, f) && Opens(events, pair, g)
    ensures f == g
  {
    hide Fires;
    var i :| OpensAt(events, pair, f, i);
    var j :| OpensAt(events, pair, g, j);
  }

  // ---- The delta ----

  lemma {:induction false} RepeatsListed(reinforced: seq<Reinforced>, pair: Pair, cutoff: Time)
    requires var d := PairSessions(reinforced, pair); d != [] && d[0].ts < cutoff
    ensures Elements(HeldOut(PairSessions(reinforced, pair)[1..], cutoff)) == Repeats(reinforced, pair, cutoff)
    ensures Distinct(HeldOut(PairSessions(reinforced, pair)[1..], cutoff))
  {
    var d := PairSessions(reinforced, pair);
    SortedFiringsFacts(reinforced, pair);
    DistinctFacts(SortedFirings(reinforced, pair));
    HeldOutCard(d[1..], cutoff);
    hide PairSessions;
    hide HeldOut;
    forall s
      ensures s in HeldOut(d[1..], cutoff) <==> s in Repeats(reinforced, pair, cutoff)
    {
      RepeatsAreHeldOut(reinforced, pair, cutoff, s);
      SpreadMeaning(reinforced, pair, s);
    }
  }

  lemma {:induction false} SpreadMeaning(events: seq<Reinforced>, pair: Pair, s: Session)
    ensures s in SpreadOf(events, pair) <==> exists t :: Fired(events, pair, Firing(t, s))
  {
    if s in SpreadOf(events, pair) {
      var f :| f in PairFirings(events, pair) && f.session == s;
      PairFiringsMeaning(events, pair, f);
      assert f == Firing(f.ts, s);
    }
    forall t | Fired(events, pair, Firing(t, s))
      ensures s in SpreadOf(events, pair)
    {
      PairFiringsMeaning(events, pair, Firing(t, s));
    }
  }

  /** A pair's delta is the share of its repeat sessions in which b was recalled
      among the first k, less one if it was in the session of its first firing. */
  lemma {:induction false} DeltaMeaning(
    reinforced: seq<Reinforced>, used: seq<Used>, pair: Pair, cutoff: Time, k: int,
    first: Firing, repeats: set<Session>)
    requires Delta(reinforced, used, pair, cutoff, k).Some?
    requires Opens(reinforced, pair, first) && repeats == Repeats(reinforced, pair, cutoff)
    ensures first.ts < cutoff && repeats != {}
    ensures Delta(reinforced, used, pair, cutoff, k).value ==
            |Hits(reinforced, used, pair, repeats, k)| as real / |repeats| as real
            - if Recalled(reinforced, used, pair, first.session, k) then 1.0 else 0.0
  {
    FirstSessionOpens(reinforced, pair);
    OpensOnce(reinforced, pair, first, PairSessions(reinforced, pair)[0]);
    RepeatsListed(reinforced, pair, cutoff);
    var list := HeldOut(PairSessions(reinforced, pair)[1..], cutoff);
    assert list[0] in Elements(list);
    hide PairSessions;
    hide HeldOut;
    hide Opens;
    hide Repeats;
    DistinctCard(list);
    IndicatorsCount(reinforced, used, pair, list, k);
    IndicatorMeaning(reinforced, used, pair, first.session, k);
    OneIndicator(reinforced, used, pair, first.session, k);
  }

  lemma {:induction false} OneIndicator(reinforced: seq<Reinforced>, used: seq<Used>, pair: Pair, s: Session, k: int)
    ensures MeanIndicator(reinforced, used, pair, [s], k) == Indicator(RankAtRecall(reinforced, used, pair, s), k)
  {
    hide RankAtRecall;
    assert [s][..0] == [];
  }
}
