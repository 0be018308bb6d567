/** The firings of each pair, grouped and sorted by time
    (bench/proc_corpus_census.py): a pair fires where its two ids stand next to
    each other in a list of reinforced ids. */
module Census {
  import opened Dicts
  import opened Sorting
  import opened CensusRank

  /** A session's key in the pair lists; an event without one counts under "-". */
  function SessionKey(e: Reinforced): Session {
    match e.session case None => "-" case Some(s) => s
  }

  /** One firing of a pair. */
  datatype Firing = Firing(ts: Time, session: Session)

  predicate EarlierFiring(x: Firing, y: Firing) {
    x.ts < y.ts
  }

  // ---- Every firing of every pair ----

  datatype Tagged = Tagged(pair: Pair, firing: Firing)

  /** The firings of one event: the first k adjacent pairs of its ids. */
  function EventFirings(e: Reinforced, k: nat): (r: seq<Tagged>)
    requires k == 0 || k < |e.ids|
    ensures |r| == k
    ensures forall i :: 0 <= i < k ==> r[i] == Tagged((e.ids[i], e.ids[i + 1]), Firing(e.ts, SessionKey(e)))
  {
    if k == 0 then []
    else EventFirings(e, k - 1) + [Tagged((e.ids[k - 1], e.ids[k]), Firing(e.ts, SessionKey(e)))]
  }

  function PairCount(e: Reinforced): (k: nat)
    ensures k == 0 || k < |e.ids|
  {
    if |e.ids| == 0 then 0 else |e.ids| - 1
  }

  function AllFirings(events: seq<Reinforced>): seq<Tagged> {
    if events == [] then []
    else AllFirings(events[..|events| - 1]) + EventFirings(events[|events| - 1], PairCount(events[|events| - 1]))
  }

  /** The firings of one pair, in order. */
  function FiringsOf(all: seq<Tagged>, pair: Pair): seq<Firing> {
    if all == [] then []
    else FiringsOf(all[..|all| - 1], pair) + if all[|all| - 1].pair == pair then [all[|all| - 1].firing] else []
  }

  /** Some event fires the pair, and this is that firing. */
  ghost predicate Fired(events: seq<Reinforced>, pair: Pair, f: Firing) {
    exists i :: 0 <= i < |events| && Fires(events[i].ids, pair) && f == Firing(events[i].ts, SessionKey(events[i]))
  }

  lemma {:induction false} EventFiringsMeaning(e: Reinforced, t: Tagged)
    ensures t in EventFirings(e, PairCount(e)) <==> Fires(e.ids, t.pair) && t.firing == Firing(e.ts, SessionKey(e))
  {
    var r := EventFirings(e, PairCount(e));
    if Fires(e.ids, t.pair) && t.firing == Firing(e.ts, SessionKey(e)) {
      var i :| 0 <= i < |e.ids| - 1 && e.ids[i] == t.pair.0 && e.ids[i + 1] == t.pair.1;
      assert r[i] == t;
    }
    if t in r {
      var i :| 0 <= i < |r| && r[i] == t;
      assert t.pair == (e.ids[i], e.ids[i + 1]);
    }
  }

  lemma {:induction false} AllFiringsMeaning(events: seq<Reinforced>, t: Tagged)
    ensures t in AllFirings(events) <==> Fired(events, t.pair, t.firing)
  {
    if events != [] {
      var init, e := events[..|events| - 1], events[|events| - 1];
      assert events == init + [e];
      AllFiringsMeaning(init, t);
      EventFiringsMeaning(e, t);
      if Fired(init, t.pair, t.firing) {
        var i :| 0 <= i < |init| && Fires(init[i].ids, t.pair) && t.firing == Firing(init[i].ts, SessionKey(init[i]));
        assert events[i] == init[i];
      }
    }
  }

  lemma {:induction false} FiringsOfMembers(all: seq<Tagged>, pair: Pair, f: Firing)
    ensures f in FiringsOf(all, pair) <==> Tagged(pair, f) in all
  {
    if all != [] {
      FiringsOfMembers(all[..|all| - 1], pair, f);
      assert all == all[..|all| - 1] + [all[|all| - 1]];
    }
  }

  /** The firings of one pair over all events. */
  function PairFirings(events: seq<Reinforced>, pair: Pair): seq<Firing> {
    FiringsOf(AllFirings(events), pair)
  }

  lemma {:induction false} PairFiringsMeaning(events: seq<Reinforced>, pair: Pair, f: Firing)
    ensures f in PairFirings(events, pair) <==> Fired(events, pair, f)
  {
    FiringsOfMembers(AllFirings(events), pair, f);
    AllFiringsMeaning(events, Tagged(pair, f));
  }

  /** An event without a session fires under "-", any other under its session. */
  lemma {:induction false} SessionlessFires(events: seq<Reinforced>, i: nat, pair: Pair)
    requires i < |events| && Fires(events[i].ids, pair)
    ensures var e := events[i];
            Firing(e.ts, if e.session.None? then "-" else e.session.value) in PairFirings(events, pair)
  {
    PairFiringsMeaning(events, pair, Firing(events[i].ts, SessionKey(events[i])));
  }

  // ---- _pair_sessions_ordered ----

  function PairsOf(all: seq<Tagged>): (r: seq<Pair>)
    ensures |r| == |all| && forall i :: 0 <= i < |r| ==> r[i] == all[i].pair
  {
    seq(|all|, i requires 0 <= i < |all| => all[i].pair)
  }

  /** The pairs in order of first firing. */
  function FirstFired(all: seq<Tagged>): (r: seq<Pair>)
    ensures Distinct(r)
    ensures forall p :: p in r <==> FiringsOf(all, p) != []
  {
    forall p ensures p in FirstSeen(PairsOf(all)) <==> FiringsOf(all, p) != [] {
      PairFires(all, p);
    }
    FirstSeen(PairsOf(all))
  }

  lemma {:induction false} FirstFiredSnoc(all: seq<Tagged>, t: Tagged)
    ensures FirstFired(all + [t]) == if t.pair in FirstFired(all) then FirstFired(all) else FirstFired(all) + [t.pair]
  {
    assert PairsOf(all + [t]) == PairsOf(all) + [t.pair];
    FirstSeenSnoc(PairsOf(all), t.pair);
    hide FirstSeen;
  }

  lemma {:induction false} PairFires(all: seq<Tagged>, p: Pair)
    ensures p in PairsOf(all) <==> FiringsOf(all, p) != []
  {
    if all != [] {
      PairFires(all[..|all| - 1], p);
      assert PairsOf(all) == PairsOf(all[..|all| - 1]) + [all[|all| - 1].pair];
    }
  }

  ghost predicate Groups(out: Dict<Pair, seq<Firing>>, all: seq<Tagged>) {
    && Wf(out)
    && out.keys == FirstFired(all)
    && (forall p :: p in out.at ==> out.at[p] == FiringsOf(all, p))
  }

  /** out[(a, b)].append((ts, session_id)) */
  function AppendFiring(out: Dict<Pair, seq<Firing>>, t: Tagged): Dict<Pair, seq<Firing>> {
    Put(out, t.pair, GetOr(out, t.pair, []) + [t.firing])
  }

  lemma {:induction false} GroupsSnoc(out: Dict<Pair, seq<Firing>>, all: seq<Tagged>, t: Tagged)
    requires Groups(out, all)
    ensures Groups(AppendFiring(out, t), all + [t])
  {
    assert t.pair in out.at <==> t.pair in out.keys;
    FirstFiredSnoc(all, t);
    var more := AppendFiring(out, t);
    forall p | p in more.at
      ensures more.at[p] == FiringsOf(all + [t], p)
    {
      FiringsOfSnoc(all, t, p);
      NotYetFired(all, t.pair);
    }
    hide FirstFired;
    hide FiringsOf;
  }

  lemma {:induction false} NotYetFired(all: seq<Tagged>, p: Pair)
    ensures p !in FirstFired(all) ==> FiringsOf(all, p) == []
  {
  }

  lemma {:induction false} FiringsOfSnoc(all: seq<Tagged>, t: Tagged, p: Pair)
    ensures FiringsOf(all + [t], p) == FiringsOf(all, p) + if t.pair == p then [t.firing] else []
  {
    assert (all + [t])[..|all|] == all;
  }

  /** The rows of each pair, ascending by time. */
  function SortedFirings(events: seq<Reinforced>, pair: Pair): seq<Firing> {
    StableSort(PairFirings(events, pair), EarlierFiring)
  }

  ghost predicate OrderedGroups(out: Dict<Pair, seq<Firing>>, events: seq<Reinforced>) {
    && Wf(out)
    && out.keys == FirstFired(AllFirings(events))
    && (forall p :: p in out.at ==> out.at[p] == SortedFirings(events, p))
  }

  method PairSessionsOrdered(events: seq<Reinforced>) returns (out: Dict<Pair, seq<Firing>>)
    ensures OrderedGroups(out, events)
  {
    hide FirstFired;
    hide FiringsOf;
    out := Dicts.Empty();
    NoGroups();
    for i := 0 to |events|
      invariant Groups(out, AllFirings(events[..i]))
    {
      assert events[..i + 1][..i] == events[..i];
      out := GroupEvent(out, events[i], AllFirings(events[..i]));
    }
    assert events[..|events|] == events;
    out := SortGroups(out, events);
  }

  lemma {:induction false} NoGroups()
    ensures Groups(Dicts.Empty(), [])
  {
  }

  /** The inner loop over zip(ids, ids[1:]). */
  method GroupEvent(out0: Dict<Pair, seq<Firing>>, e: Reinforced, ghost all: seq<Tagged>)
    returns (out: Dict<Pair, seq<Firing>>)
    requires Groups(out0, all)
    ensures Groups(out, all + EventFirings(e, PairCount(e)))
  {
    hide Groups;
    out := out0;
    assert all + EventFirings(e, 0) == all;
    for k := 0 to PairCount(e)
      invariant Groups(out, all + EventFirings(e, k))
    {
      var t := Tagged((e.ids[k], e.ids[k + 1]), Firing(e.ts, SessionKey(e)));
      GroupsSnoc(out, all + EventFirings(e, k), t);
      assert all + EventFirings(e, k) + [t] == all + EventFirings(e, k + 1);
      out := AppendFiring(out, t);
    }
  }

  /** The groups of the pairs in `done` are sorted. */
  ghost predicate SortedUpTo(out: Dict<Pair, seq<Firing>>, groups: Dict<Pair, seq<Firing>>, done: seq<Pair>) {
    && Wf(out)
    && out.keys == groups.keys
    && (forall p :: p in out.at ==>
          p in groups.at && out.at[p] == if p in done then StableSort(groups.at[p], EarlierFiring) else groups.at[p])
  }

  method SortGroups(
    groups: Dict<Pair, seq<Firing>>, ghost events: seq<Reinforced>)
    returns (out: Dict<Pair, seq<Firing>>)
    requires Groups(groups, AllFirings(events))
    ensures OrderedGroups(out, events)
  {
    hide StableSort;
    hide FirstFired;
    hide FiringsOf;
    out := groups;
    for i := 0 to |groups.keys|
      invariant SortedUpTo(out, groups, groups.keys[..i])
    {
      out := Put(out, groups.keys[i], StableSort(out.at[groups.keys[i]], EarlierFiring));
    }
    assert groups.keys[..|groups.keys|] == groups.keys;
  }
}
