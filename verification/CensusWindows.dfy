/** Which half of the time-held-out split an observation is read from (bench/proc_corpus_census.py). */
module CensusWindows {
  import opened Options
  import opened CensusRank
  import opened Census
  import opened CensusDeltas
  import opened CensusMeaning

  /** The session's observation of the pair is read from recall j, the last at or
      before the session's latest co-firing. */
  ghost predicate ReadFrom(reinforced: seq<Reinforced>, used: seq<Used>, pair: Pair, s: Session, j: nat) {
    exists t :: IsLatest(reinforced, pair, s, t) && IsAnchor(used, s, t, j)
  }

  /** The session recalls something between `from` and `to`. */
  ghost predicate RecallsWithin(used: seq<Used>, s: Session, from: Time, to: Time) {
    exists i :: 0 <= i < |used| && used[i].session == Some(s) && from <= used[i].ts <= to
  }

  /** The recall that is read lies at or after the cutoff exactly if the session
      recalled something between the cutoff and the co-firing. */
  lemma {:induction false} AnchorHeldOutExactly(used: seq<Used>, s: Session, t: Time, cutoff: Time, j: nat)
    requires IsAnchor(used, s, t, j)
    ensures used[j].ts >= cutoff <==> RecallsWithin(used, s, cutoff, t)
  {
    if RecallsWithin(used, s, cutoff, t) {
      var i :| 0 <= i < |used| && used[i].session == Some(s) && cutoff <= used[i].ts <= t;
      assert Eligible(used[i], s, t);
    }
  }

  /** A session with any recall up to its latest co-firing is read from one. */
  lemma {:induction false} SomeAnchor(used: seq<Used>, s: Session, t: Time, i: nat) returns (j: nat)
    requires i < |used| && Eligible(used[i], s, t)
    ensures IsAnchor(used, s, t, j)
  {
    AnchorSound(used, s, t);
    assert AnchorRow(SessionRows(used, s), t).Some?;
    j :| IsAnchor(used, s, t, j);
  }

  /** Whatever a repeat is read from lies at or after the cutoff. */
  ghost predicate RepeatsReadHeldOut(reinforced: seq<Reinforced>, used: seq<Used>, pair: Pair, cutoff: Time) {
    forall s, j: nat :: s in Repeats(reinforced, pair, cutoff) && ReadFrom(reinforced, used, pair, s, j) ==>
                          used[j].ts >= cutoff
  }

  /** Each repeat session that recalled anything up to its latest co-firing did so since the cutoff. */
  ghost predicate RepeatsRecallHeldOut(reinforced: seq<Reinforced>, used: seq<Used>, pair: Pair, cutoff: Time) {
    forall s, t, i ::
      s in Repeats(reinforced, pair, cutoff) && IsLatest(reinforced, pair, s, t) &&
      0 <= i < |used| && Eligible(used[i], s, t) ==>
        RecallsWithin(used, s, cutoff, t)
  }

  lemma {:induction false} RepeatsReadHeldOutExactly(
    reinforced: seq<Reinforced>, used: seq<Used>, pair: Pair, cutoff: Time)
    ensures RepeatsReadHeldOut(reinforced, used, pair, cutoff) <==> RepeatsRecallHeldOut(reinforced, used, pair, cutoff)
  {
    hide Repeats;
    hide IsLatest;
    forall s, t, j: nat | IsLatest(reinforced, pair, s, t) && IsAnchor(used, s, t, j)
      ensures used[j].ts >= cutoff <==> RecallsWithin(used, s, cutoff, t)
      ensures ReadFrom(reinforced, used, pair, s, j)
    {
      AnchorHeldOutExactly(used, s, t, cutoff, j);
    }
    forall s, t, i | IsLatest(reinforced, pair, s, t) && 0 <= i < |used| && Eligible(used[i], s, t)
      ensures exists j: nat :: IsAnchor(used, s, t, j)
    {
      var j := SomeAnchor(used, s, t, i);
    }
  }

  /** The co-firing that a repeat is read before, in contrast, is always at or after the cutoff. */
  lemma {:induction false} RepeatsCoFireHeldOut(
    reinforced: seq<Reinforced>, pair: Pair, cutoff: Time, s: Session, t: Time)
    requires s in Repeats(reinforced, pair, cutoff) && IsLatest(reinforced, pair, s, t)
    ensures t >= cutoff
  {
    var i :| 0 <= i < |reinforced| && CoFires(reinforced[i], pair, s) && reinforced[i].ts == t;
    assert Fired(reinforced, pair, Firing(t, s));
  }

  /** A pair's first observation is read before the cutoff if and only if its session
      recalled nothing between the cutoff and its latest co-firing, which it never
      did if that co-firing is before the cutoff. */
  lemma {:induction false} FirstObservationExactly(
    reinforced: seq<Reinforced>, used: seq<Used>, pair: Pair, cutoff: Time, first: Firing, t: Time, j: nat)
    requires Opens(reinforced, pair, first)
    requires IsLatest(reinforced, pair, first.session, t) && IsAnchor(used, first.session, t, j)
    ensures used[j].ts < cutoff <==> !RecallsWithin(used, first.session, cutoff, t)
    ensures t < cutoff <==>
            forall i :: 0 <= i < |reinforced| && CoFires(reinforced[i], pair, first.session) ==>
                          reinforced[i].ts < cutoff
    ensures t < cutoff ==> used[j].ts < cutoff
  {
    AnchorHeldOutExactly(used, first.session, t, cutoff, j);
  }

  // ---- Both windows do get mixed ----

  /** Session A fires the pair (1, 2) at 0, session B at 6. */
  const APART: seq<Reinforced> := [Reinforced(0, Some("A"), [1, 2]), Reinforced(6, Some("B"), [1, 2])]

  /** B's only recall is at 2. */
  const EARLY_RECALL: seq<Used> := [Used(2, Some("B"), [2])]

  /** Session A fires the pair at 0 and again at 5, session B at 6. */
  const STRADDLING: seq<Reinforced> := [
    Reinforced(0, Some("A"), [1, 2]), Reinforced(5, Some("A"), [1, 2]), Reinforced(6, Some("B"), [1, 2])]

  /** A's only recall is at 4. */
  const LATE_RECALL: seq<Used> := [Used(4, Some("A"), [2])]

  lemma {:induction false} OneTwoFires(events: seq<Reinforced>)
    requires forall i :: 0 <= i < |events| ==> events[i].ids == [1, 2]
    ensures forall i :: 0 <= i < |events| ==> Fires(events[i].ids, (1, 2))
  {
    forall i | 0 <= i < |events|
      ensures Fires(events[i].ids, (1, 2))
    {
      assert events[i].ids[0] == 1 && events[i].ids[1] == 2;
    }
  }

  /** A list that fires the pair for A first, and for B in the held-out window, gives a delta. */
  lemma {:induction false} MeasuredPair(events: seq<Reinforced>, used: seq<Used>, b: nat, cutoff: Time, k: int)
    requires forall i :: 0 <= i < |events| ==> events[i].ids == [1, 2]
    requires 0 < b < |events| && events[0].ts < cutoff <= events[b].ts
    requires events[b].session == Some("B")
    requires forall i :: 0 <= i < |events| && i != b ==> events[i].session == Some("A")
    ensures Delta(events, used, (1, 2), cutoff, k).Some?
    ensures "B" in Repeats(events, (1, 2), cutoff)
  {
    OneTwoFires(events);
    hide Fires;
    assert "A" != "B";
    assert Fired(events, (1, 2), Firing(events[0].ts, "A"));
    assert Fired(events, (1, 2), Firing(events[b].ts, "B"));
    assert FirstFires(events, (1, 2), "B", events[b].ts);
    RepetitionKeys(events, cutoff, (1, 2));
    Population(events, used, (1, 2), cutoff, k);
    SpreadMeaning(events, (1, 2), "B");
  }

  /** A repeat may be read from before the cutoff: B's only recall counts as a hit
      at rank 0, although it precedes the held-out window. */
  lemma {:induction false} RepeatReadBeforeCutoff()
    ensures Delta(APART, EARLY_RECALL, (1, 2), 3, 10).Some?
    ensures "B" in Repeats(APART, (1, 2), 3)
    ensures ReadFrom(APART, EARLY_RECALL, (1, 2), "B", 0) && EARLY_RECALL[0].ts < 3
    ensures RankAtRecall(APART, EARLY_RECALL, (1, 2), "B") == Some(0)
  {
    MeasuredPair(APART, EARLY_RECALL, 1, 3, 10);
    OneTwoFires(APART);
    assert "A" != "B";
    assert CoFires(APART[1], (1, 2), "B");
    assert IsLatest(APART, (1, 2), "B", 6);
    HitAtZero(APART, EARLY_RECALL, "B", 6);
  }

  lemma {:induction false} HitAtZero(events: seq<Reinforced>, used: seq<Used>, s: Session, t: Time)
    requires IsLatest(events, (1, 2), s, t)
    requires |used| == 1 && Eligible(used[0], s, t) && used[0].hitIds == [2]
    ensures ReadFrom(events, used, (1, 2), s, 0)
    ensures RankAtRecall(events, used, (1, 2), s) == Some(0)
  {
    assert IsAnchor(used, s, t, 0);
    assert FirstAt(used[0].hitIds, 2, 0);
    RankMeaning(events, used, (1, 2), s, 0);
  }

  /** And the pair's first observation may be read from after it: A opens the pair
      before the cutoff, but is read from its recall at 4. */
  lemma {:induction false} FirstObservationStraddles()
    ensures Delta(STRADDLING, LATE_RECALL, (1, 2), 3, 10).Some?
    ensures Opens(STRADDLING, (1, 2), Firing(0, "A"))
    ensures ReadFrom(STRADDLING, LATE_RECALL, (1, 2), "A", 0) && LATE_RECALL[0].ts >= 3
    ensures RankAtRecall(STRADDLING, LATE_RECALL, (1, 2), "A") == Some(0)
  {
    MeasuredPair(STRADDLING, LATE_RECALL, 2, 3, 10);
    AOpensAndFiresAgain();
    HitAtZero(STRADDLING, LATE_RECALL, "A", 5);
  }

  lemma {:induction false} AOpensAndFiresAgain()
    ensures Opens(STRADDLING, (1, 2), Firing(0, "A"))
    ensures IsLatest(STRADDLING, (1, 2), "A", 5)
  {
    OneTwoFires(STRADDLING);
    hide Fires;
    assert "A" != "B";
    assert OpensAt(STRADDLING, (1, 2), Firing(0, "A"), 0);
    assert CoFires(STRADDLING[1], (1, 2), "A");
  }
}
