/** The result lists of a run: how loading and running fill them, and why the
    report does not depend on where earlier runs crashed. */
module CheckpointReport {
  import opened Dicts
  import opened Checkpoint
  import opened CheckpointLimits

  /** per_row, errors and the parallel score lists. */
  datatype Lists = Lists(
    perRow: seq<Rec>, errors: seq<Rec>,
    r5x: seq<real>, r10x: seq<real>, r5y: seq<real>, r10y: seq<real>, r5z: seq<real>, r10z: seq<real>,
    queryTokens: seq<int>, sessionTokens: seq<int>)

  const NO_ROWS := Lists([], [], [], [], [], [], [], [], [], [])

  datatype Score = R5x | R10x | R5y | R10y | R5z | R10z

  /** What a row adds to a score list; an error counts as zero, and so does a
      hybrid score that the record does not have. */
  function ScoreOf(r: Rec, s: Score): real {
    match r.outcome
    case Failure(_, _) => 0.0
    case Success(r5x, r10x, r5y, r10y, z, _, _) =>
      match s
      case R5x => r5x
      case R10x => r10x
      case R5y => r5y
      case R10y => r10y
      case R5z => (match z case NoHybrid => 0.0 case Hybrid(v, _) => v)
      case R10z => (match z case NoHybrid => 0.0 case Hybrid(_, v) => v)
  }

  function QueryTokensOf(r: Rec): int {
    match r.outcome case Failure(_, _) => 0 case Success(_, _, _, _, _, q, _) => q
  }

  function SessionTokensOf(r: Rec): int {
    match r.outcome case Failure(_, _) => 0 case Success(_, _, _, _, _, _, t) => t
  }

  ghost function Scores(rs: seq<Rec>, s: Score): seq<real> {
    seq(|rs|, i requires 0 <= i < |rs| => ScoreOf(rs[i], s))
  }

  ghost function Succeeded(rs: seq<Rec>): seq<Rec> {
    if rs == [] then []
    else Succeeded(rs[..|rs| - 1]) + if rs[|rs| - 1].outcome.Success? then [rs[|rs| - 1]] else []
  }

  ghost function Failed(rs: seq<Rec>): seq<Rec> {
    if rs == [] then []
    else Failed(rs[..|rs| - 1]) + if rs[|rs| - 1].outcome.Failure? then [rs[|rs| - 1]] else []
  }

  /** The lists after the rows `rs` were counted, in that order. */
  ghost function Tally(rs: seq<Rec>, hybrid: bool): Lists {
    Lists(Succeeded(rs), Failed(rs),
          Scores(rs, R5x), Scores(rs, R10x), Scores(rs, R5y), Scores(rs, R10y),
          if hybrid then Scores(rs, R5z) else [], if hybrid then Scores(rs, R10z) else [],
          seq(|rs|, i requires 0 <= i < |rs| => QueryTokensOf(rs[i])),
          seq(|rs|, i requires 0 <= i < |rs| => SessionTokensOf(rs[i])))
  }

  lemma {:induction false} ScoresSnoc(rs: seq<Rec>, r: Rec, s: Score)
    ensures Scores(rs + [r], s) == Scores(rs, s) + [ScoreOf(r, s)]
  {
  }

  /** One more row on every list. */
  ghost function Counting(t: Lists, r: Rec, hybrid: bool): Lists {
    Lists(t.perRow + (if r.outcome.Success? then [r] else []), t.errors + (if r.outcome.Failure? then [r] else []),
          t.r5x + [ScoreOf(r, R5x)], t.r10x + [ScoreOf(r, R10x)],
          t.r5y + [ScoreOf(r, R5y)], t.r10y + [ScoreOf(r, R10y)],
          if hybrid then t.r5z + [ScoreOf(r, R5z)] else t.r5z, if hybrid then t.r10z + [ScoreOf(r, R10z)] else t.r10z,
          t.queryTokens + [QueryTokensOf(r)], t.sessionTokens + [SessionTokensOf(r)])
  }

  lemma {:induction false} TallySnoc(rs: seq<Rec>, r: Rec, hybrid: bool)
    ensures Tally(rs + [r], hybrid) == Counting(Tally(rs, hybrid), r, hybrid)
  {
    assert (rs + [r])[..|rs|] == rs;
    ScoresSnoc(rs, r, R5x);
    ScoresSnoc(rs, r, R10x);
    ScoresSnoc(rs, r, R5y);
    ScoresSnoc(rs, r, R10y);
    ScoresSnoc(rs, r, R5z);
    ScoresSnoc(rs, r, R10z);
  }

  lemma {:induction false} SuccessScores(r: Rec)
    requires r.outcome.Success?
    ensures ScoreOf(r, R5x) == r.outcome.r5x && ScoreOf(r, R10x) == r.outcome.r10x
    ensures ScoreOf(r, R5y) == r.outcome.r5y && ScoreOf(r, R10y) == r.outcome.r10y
    ensures ScoreOf(r, R5z) == if r.outcome.z.Hybrid? then r.outcome.z.r5z else 0.0
    ensures ScoreOf(r, R10z) == if r.outcome.z.Hybrid? then r.outcome.z.r10z else 0.0
    ensures QueryTokensOf(r) == r.outcome.queryTokens && SessionTokensOf(r) == r.outcome.insertedTokens
  {
  }

  // ---- The run, filling its lists in place ----

  class BlindRun {
    const rowOrder: seq<Id>
    const runHybrid: bool
    var checkpoint: File
    var completedIds: set<Id>
    var perRow: seq<Rec>
    var errors: seq<Rec>
    var r5x: seq<real>
    var r10x: seq<real>
    var r5y: seq<real>
    var r10y: seq<real>
    var r5z: seq<real>
    var r10z: seq<real>
    var queryTokens: seq<int>
    var sessionTokens: seq<int>
    ghost var loaded: File
    ghost var counted: seq<Rec>

    ghost function AllLists(): Lists
      reads this
    {
      Lists(perRow, errors, r5x, r10x, r5y, r10y, r5z, r10z, queryTokens, sessionTokens)
    }

    /** The lists hold what the counted rows amount to. */
    ghost predicate Valid()
      reads this
    {
      AllLists() == Tally(counted, runHybrid)
    }

    /** This run, about to look at row `next`, as a state of the protocol. */
    ghost function AsState(next: nat): State
      reads this
    {
      Up(checkpoint, loaded, runHybrid, completedIds, counted, next)
    }

    /** Starting up: dispose of the checkpoint or keep it, then load it. */
    constructor (order: seq<Id>, mode: Mode, hybrid: bool, file: File)
      ensures rowOrder == order && runHybrid == hybrid
      ensures Valid() && AsState(0) == Begin(mode, hybrid, file)
    {
      rowOrder, runHybrid := order, hybrid;
      var priorErrors := 0;
      var lines := AllLines(file);
      for i := 0 to |lines|
        invariant priorErrors > 0 <==> HasErrors(Parsed(lines[..i]))
        invariant 0 <= priorErrors
      {
        assert lines[..i + 1][..i] == lines[..i];
        HasErrorsSnoc(Parsed(lines[..i]));
        match ParseLine(lines[i])
        case None =>
        case Some(rec) =>
          if rec.outcome.Failure? {
            priorErrors := priorErrors + 1;
          }
      }
      assert lines[..|lines|] == lines;
      var kept := if mode == Fresh || (mode == Default && priorErrors > 0) then NO_FILE else file;
      checkpoint, loaded := kept, kept;
      completedIds, counted := {}, [];
      perRow, errors := [], [];
      r5x, r10x, r5y, r10y, r5z, r10z := [], [], [], [], [], [];
      queryTokens, sessionTokens := [], [];
      new;
      assert Valid();
      Load();
    }

    /** The second pass over the checkpoint: every named record is counted again. */
    method Load()
      requires Valid() && completedIds == {} && counted == []
      modifies this
      ensures Valid() && checkpoint == old(checkpoint) && loaded == old(loaded)
      ensures counted == Named(Records(checkpoint)) && completedIds == Ids(counted)
    {
      hide Named;
      hide Ids;
      var lines := AllLines(checkpoint);
      NothingNamed();
      for i := 0 to |lines|
        invariant Valid() && checkpoint == old(checkpoint) && loaded == old(loaded)
        invariant counted == Named(Parsed(lines[..i])) && completedIds == Ids(counted)
      {
        assert lines[..i + 1][..i] == lines[..i];
        match ParseLine(lines[i])
        case None =>
        case Some(rec) => LoadRecord(Parsed(lines[..i]), rec);
      }
      assert lines[..|lines|] == lines;
    }

    method LoadRecord(ghost before: seq<Rec>, rec: Rec)
      requires Valid() && counted == Named(before) && completedIds == Ids(counted)
      modifies this
      ensures Valid() && checkpoint == old(checkpoint) && loaded == old(loaded)
      ensures counted == Named(before + [rec]) && completedIds == Ids(counted)
    {
      hide Tally;
      NamedSnoc(before, rec);
      if rec.id != "" {
        IdsSnoc(counted, rec);
        hide Named;
        hide Ids;
        completedIds := completedIds + {rec.id};
        Count(rec);
      }
    }

    method Count(rec: Rec)
      requires Valid()
      modifies this
      ensures Valid() && counted == old(counted) + [rec]
      ensures checkpoint == old(checkpoint) && loaded == old(loaded) && completedIds == old(completedIds)
    {
      hide Tally;
      if rec.outcome.Failure? {
        CountError(rec);
      } else {
        CountSuccess(rec);
      }
    }

    method CountSuccess(rec: Rec)
      requires Valid() && rec.outcome.Success?
      modifies this
      ensures Valid() && counted == old(counted) + [rec]
      ensures checkpoint == old(checkpoint) && loaded == old(loaded) && completedIds == old(completedIds)
    {
      hide Tally;
      TallySnoc(counted, rec, runHybrid);
      AppendSuccess(rec);
      counted := counted + [rec];
    }

    method AppendSuccess(rec: Rec)
      requires rec.outcome.Success?
      modifies `perRow, `errors, `r5x, `r10x, `r5y, `r10y, `r5z, `r10z, `queryTokens, `sessionTokens
      ensures AllLists() == Counting(old(AllLists()), rec, runHybrid)
    {
      var o := rec.outcome;
      SuccessScores(rec);
      hide ScoreOf;
      hide QueryTokensOf;
      hide SessionTokensOf;
      perRow := perRow + [rec];
      r5x, r10x, r5y, r10y := r5x + [o.r5x], r10x + [o.r10x], r5y + [o.r5y], r10y + [o.r10y];
      if runHybrid {
        AppendHybrid(if o.z.Hybrid? then o.z.r5z else 0.0, if o.z.Hybrid? then o.z.r10z else 0.0);
      }
      queryTokens, sessionTokens := queryTokens + [o.queryTokens], sessionTokens + [o.insertedTokens];
    }

    method AppendHybrid(z5: real, z10: real)
      modifies `r5z, `r10z
      ensures r5z == old(r5z) + [z5] && r10z == old(r10z) + [z10]
    {
      r5z, r10z := r5z + [z5], r10z + [z10];
    }

    method CountError(rec: Rec)
      requires Valid() && rec.outcome.Failure?
      modifies this
      ensures Valid() && counted == old(counted) + [rec]
      ensures checkpoint == old(checkpoint) && loaded == old(loaded) && completedIds == old(completedIds)
    {
      hide Tally;
      TallySnoc(counted, rec, runHybrid);
      AppendError(rec);
      counted := counted + [rec];
    }

    method AppendError(rec: Rec)
      requires rec.outcome.Failure?
      modifies `perRow, `errors, `r5x, `r10x, `r5y, `r10y, `r5z, `r10z, `queryTokens, `sessionTokens
      ensures AllLists() == Counting(old(AllLists()), rec, runHybrid)
    {
      errors := errors + [rec];
      r5x, r10x, r5y, r10y := r5x + [0.0], r10x + [0.0], r5y + [0.0], r10y + [0.0];
      if runHybrid {
        AppendHybrid(0.0, 0.0);
      }
      queryTokens, sessionTokens := queryTokens + [0], sessionTokens + [0];
    }

    /** The row loop, uninterrupted; `outcome` says how each row turns out. */
    method RunRows(outcome: Id -> Outcome)
      requires Valid()
      modifies this
      ensures Valid()
      ensures AsState(|rowOrder|) == Finish(rowOrder, old(AsState(0)), outcome)
    {
      for i := 0 to |rowOrder|
        invariant Valid() && loaded == old(loaded) && completedIds == old(completedIds)
        invariant Finish(rowOrder, AsState(i), outcome) == Finish(rowOrder, old(AsState(0)), outcome)
      {
        var qid := rowOrder[i];
        if qid in completedIds {
          continue;
        }
        var rec := Rec(qid, outcome(qid));
        Count(rec);
        checkpoint := Append(checkpoint, rec);
      }
    }
  }

  lemma {:induction false} HasErrorsSnoc(rs: seq<Rec>)
    ensures forall r :: HasErrors(rs + [r]) <==> HasErrors(rs) || r.outcome.Failure?
  {
    forall r
      ensures HasErrors(rs + [r]) <==> HasErrors(rs) || r.outcome.Failure?
    {
      assert r in rs + [r];
      assert forall x :: x in rs + [r] <==> x in rs || x == r;
    }
  }

  lemma {:induction false} NothingNamed()
    ensures Named([]) == [] && Ids([]) == {}
  {
  }

  lemma {:induction false} NamedSnoc(rs: seq<Rec>, r: Rec)
    ensures Named(rs + [r]) == Named(rs) + if r.id == "" then [] else [r]
  {
    assert (rs + [r])[..|rs|] == rs;
  }

  // ---- Finishing, as protocol steps ----

  /** The state in which an uninterrupted run ends. */
  function Finish(order: seq<Id>, s: State, outcome: Id -> Outcome): State
    requires s.Up? && s.next <= |order|
    decreases |order| - s.next
  {
    if s.next == |order| then s
    else Finish(order, Apply(order, s, NextEvent(order, s, outcome)), outcome)
  }

  function NextEvent(order: seq<Id>, s: State, outcome: Id -> Outcome): (e: Event)
    requires s.Up? && s.next < |order|
    ensures Enabled(order, s, e)
  {
    if order[s.next] in s.completed then Skip else Row(outcome(order[s.next]))
  }

  /** What the row loop does is a run of the protocol. */
  lemma {:induction false} FinishReaches(order: seq<Id>, s: State, outcome: Id -> Outcome)
    requires s.Up? && s.next <= |order| && Reaches(order, s)
    ensures Reaches(order, Finish(order, s, outcome)) && Finished(order, Finish(order, s, outcome))
    decreases |order| - s.next
  {
    if s.next < |order| {
      var e := NextEvent(order, s, outcome);
      ReachesStep(order, s, e);
      FinishReaches(order, Apply(order, s, e), outcome);
    }
  }

  // ---- The lists of a finished run ----

  lemma {:induction false} PartsPermute(rs: seq<Rec>)
    ensures multiset(Succeeded(rs)) + multiset(Failed(rs)) == multiset(rs)
    ensures |Succeeded(rs)| + |Failed(rs)| == |rs|
  {
    if rs != [] {
      var init, last := rs[..|rs| - 1], rs[|rs| - 1];
      PartsPermute(init);
      assert rs == init + [last];
      PartsSnoc(init, last, Succeeded(init), Failed(init));
    }
  }

  lemma {:induction false} PartsSnoc(init: seq<Rec>, last: Rec, a: seq<Rec>, b: seq<Rec>)
    requires multiset(a) + multiset(b) == multiset(init)
    ensures multiset(a + [last]) + multiset(b) == multiset(init + [last])
    ensures multiset(a) + multiset(b + [last]) == multiset(init + [last])
  {
  }

  lemma {:induction false} PartsMeaning(rs: seq<Rec>)
    ensures forall r :: r in Succeeded(rs) <==> r in rs && r.outcome.Success?
    ensures forall r :: r in Failed(rs) <==> r in rs && r.outcome.Failure?
  {
    if rs != [] {
      PartsMeaning(rs[..|rs| - 1]);
      assert rs == rs[..|rs| - 1] + [rs[|rs| - 1]];
    }
  }

  /** Column by column, row by row: a success puts its own scores on the lists, an error
      zeros; the hybrid lists are there only in a hybrid run, with zeros also for
      records that have no hybrid scores. */
  lemma {:induction false} ListsHold(rs: seq<Rec>, hybrid: bool, l: Lists, k: nat)
    requires l == Tally(rs, hybrid) && k < |rs|
    ensures |l.r5x| == |l.r10x| == |l.r5y| == |l.r10y| == |l.queryTokens| == |l.sessionTokens| == |rs|
    ensures |l.r5z| == |l.r10z| == if hybrid then |rs| else 0
    ensures rs[k].outcome.Failure? ==>
              && l.r5x[k] == l.r10x[k] == l.r5y[k] == l.r10y[k] == 0.0 && l.queryTokens[k] == l.sessionTokens[k] == 0
              && (hybrid ==> l.r5z[k] == l.r10z[k] == 0.0)
    ensures rs[k].outcome.Success? ==>
              var o := rs[k].outcome;
              && l.r5x[k] == o.r5x && l.r10x[k] == o.r10x && l.r5y[k] == o.r5y && l.r10y[k] == o.r10y
              && l.queryTokens[k] == o.queryTokens && l.sessionTokens[k] == o.insertedTokens
              && (hybrid && o.z.Hybrid? ==> l.r5z[k] == o.z.r5z && l.r10z[k] == o.z.r10z)
              && (hybrid && o.z.NoHybrid? ==> l.r5z[k] == l.r10z[k] == 0.0)
  {
  }

  /** Any run that finishes counts each id of the row order exactly once across
      per_row and errors, and all its result lists have one entry per row. */
  lemma {:induction false} FinishedLists(order: seq<Id>, states: seq<State>, events: seq<Event>, i: nat, l: Lists)
    requires Distinct(order) && IsRun(order, states, events) && i < |states| && Finished(order, states[i])
    requires l == Tally(states[i].counted, states[i].hybrid)
    ensures DistinctIds(l.perRow + l.errors)
    ensures forall id :: id in Ids(l.perRow + l.errors) <==> id in order
    ensures |l.perRow| + |l.errors| == |order|
    ensures forall r :: r in l.perRow ==> r.outcome.Success?
    ensures forall r :: r in l.errors ==> r.outcome.Failure?
    ensures |l.r5x| == |l.r10x| == |l.r5y| == |l.r10y| == |l.queryTokens| == |l.sessionTokens| == |order|
    ensures |l.r5z| == |l.r10z| == if states[i].hybrid then |order| else 0
  {
    FinishedCountsEachOnce(order, states, events, i);
    var rs := states[i].counted;
    PartsPermute(rs);
    PartsMeaning(rs);
    PermutedDistinct(rs, l.perRow + l.errors);
  }

  lemma {:induction false} PermutedDistinct(rs: seq<Rec>, ts: seq<Rec>)
    requires DistinctIds(rs) && multiset(ts) == multiset(rs)
    ensures DistinctIds(ts) && Ids(ts) == Ids(rs)
  {
    SameMembers(rs, ts);
    assert |multiset(ts)| == |ts| && |multiset(rs)| == |rs|;
    DistinctCard(rs);
    assert Elements(ts) == Elements(rs);
    CardDistinct(ts);
    forall p, q | 0 <= p < q < |ts|
      ensures ts[p].id != ts[q].id
    {
      assert ts[p] in rs && ts[q] in rs;
      assert ts[p] != ts[q];
    }
  }

  lemma {:induction false} SameMembers(rs: seq<Rec>, ts: seq<Rec>)
    requires multiset(ts) == multiset(rs)
    ensures forall r :: r in ts <==> r in rs
  {
    forall r
      ensures r in ts <==> r in rs
    {
      assert r in ts <==> r in multiset(ts);
      assert r in rs <==> r in multiset(rs);
    }
  }

  // ---- The report does not depend on the crashes ----

  /** Each row turns out as `f` says of it and of whether the run is hybrid. */
  ghost predicate Follows(order: seq<Id>, states: seq<State>, events: seq<Event>, f: (Id, bool) -> Outcome)
    requires IsRun(order, states, events)
  {
    forall i :: 0 <= i < |events| ==>
      match events[i]
      case Row(o) => o == f(order[states[i].next], states[i].hybrid)
      case DieAppending(o, _) => o == f(order[states[i].next], states[i].hybrid)
      case _ => true
  }

  /** All runs are of one of these modes: with --hybrid or without. */
  ghost predicate RunsIn(states: seq<State>, modes: set<bool>) {
    forall i :: 0 <= i < |states| && states[i].Up? ==> states[i].hybrid in modes
  }

  ghost predicate AllFrom(rs: seq<Rec>, f: (Id, bool) -> Outcome, modes: set<bool>) {
    forall r :: r in rs ==> exists hybrid :: hybrid in modes && r == Rec(r.id, f(r.id, hybrid))
  }

  lemma {:induction false} StepFrom(
    order: seq<Id>, s: State, e: Event, f: (Id, bool) -> Outcome, modes: set<bool>)
    requires Enabled(order, s, e)
    requires s.Up? ==> s.hybrid in modes
    requires e.Row? ==> e.outcome == f(order[s.next], s.hybrid)
    requires e.DieAppending? ==> e.outcome == f(order[s.next], s.hybrid)
    requires AllFrom(Records(s.file), f, modes) && (s.Up? ==> AllFrom(s.counted, f, modes))
    ensures var t := Apply(order, s, e);
            AllFrom(Records(t.file), f, modes) && (t.Up? ==> AllFrom(t.counted, f, modes))
  {
    match e
    case Start(mode, hybrid) =>
      assert Records(NO_FILE) == [];
      NamedFacts(Records(Dispose(mode, s.file)));
    case Skip =>
    case Row(o) => AppendRecords(s.file, Rec(order[s.next], o));
    case Die =>
    case DieAppending(o, tear) => TornAppendRecords(s.file, Rec(order[s.next], o), tear);
  }

  lemma {:induction false} RunFrom(
    order: seq<Id>, states: seq<State>, events: seq<Event>, i: nat, f: (Id, bool) -> Outcome, modes: set<bool>)
    requires IsRun(order, states, events) && Follows(order, states, events, f) && i < |states|
    requires RunsIn(states, modes)
    ensures AllFrom(Records(states[i].file), f, modes) && (states[i].Up? ==> AllFrom(states[i].counted, f, modes))
  {
    if i == 0 {
      assert Records(NO_FILE) == [];
    } else {
      RunFrom(order, states, events, i - 1, f, modes);
      StepFrom(order, states[i - 1], events[i - 1], f, modes);
    }
  }

  /** The rows in order, each run in the mode that `ran` says. */
  ghost function Ideal(order: seq<Id>, f: (Id, bool) -> Outcome, ran: Id -> bool): seq<Rec> {
    seq(|order|, i requires 0 <= i < |order| => Rec(order[i], f(order[i], ran(order[i]))))
  }

  /** The uninterrupted run in one mode. */
  ghost function Uninterrupted(order: seq<Id>, f: (Id, bool) -> Outcome, hybrid: bool): seq<Rec> {
    Ideal(order, f, (id: Id) => hybrid)
  }

  lemma {:induction false} DistinctSameMultiset<T(!new)>(a: seq<T>, b: seq<T>)
    requires Distinct(a) && Distinct(b) && forall x :: x in a <==> x in b
    ensures multiset(a) == multiset(b)
  {
    forall x ensures multiset(a)[x] == multiset(b)[x] {
      DistinctCount(a, x);
      DistinctCount(b, x);
    }
  }

  /** Records of each id once, each of them as in the ideal list, are the ideal list in some order. */
  lemma {:induction false} IdealPermuted(order: seq<Id>, rs: seq<Rec>, f: (Id, bool) -> Outcome, ran: Id -> bool)
    requires Distinct(order) && DistinctIds(rs)
    requires forall id :: id in Ids(rs) <==> id in order
    requires forall r :: r in rs ==> r == Rec(r.id, f(r.id, ran(r.id)))
    ensures multiset(rs) == multiset(Ideal(order, f, ran))
  {
    var ideal := Ideal(order, f, ran);
    forall r ensures r in rs <==> r in ideal {
      if r in rs {
        assert r.id in Ids(rs);
        var k :| 0 <= k < |order| && order[k] == r.id;
        assert ideal[k] == r;
      }
      if r in ideal {
        var k :| 0 <= k < |ideal| && ideal[k] == r;
        assert order[k] in Ids(rs);
        var t :| t in rs && t.id == order[k];
        assert t == r;
      }
    }
    DistinctSameMultiset(rs, ideal);
  }

  /** When rows are deterministic, every finished run, however often it was interrupted
      and resumed, has counted what an uninterrupted one counts, but each row in the
      mode of the run that completed it. */
  lemma {:induction false} ResumeEqualsUninterrupted(
    order: seq<Id>, states: seq<State>, events: seq<Event>, i: nat, f: (Id, bool) -> Outcome, modes: set<bool>)
    returns (ran: Id -> bool)
    requires Distinct(order) && IsRun(order, states, events) && Follows(order, states, events, f)
    requires i < |states| && Finished(order, states[i]) && RunsIn(states, modes)
    ensures multiset(states[i].counted) == multiset(Ideal(order, f, ran))
    ensures forall id :: id in order ==> ran(id) in modes
  {
    var rs := states[i].counted;
    FinishedCountsEachOnce(order, states, events, i);
    RunFrom(order, states, events, i, f, modes);
    ran := (id: Id) => true in modes && Rec(id, f(id, true)) in rs;
    forall r | r in rs
      ensures r == Rec(r.id, f(r.id, ran(r.id))) && ran(r.id) in modes
    {
      var hybrid :| hybrid in modes && r == Rec(r.id, f(r.id, hybrid));
      if Rec(r.id, f(r.id, true)) in rs {
        OneOfAnId(rs, r, Rec(r.id, f(r.id, true)));
      }
    }
    IdealPermuted(order, rs, f, ran);
  }

  lemma {:induction false} OneOfAnId(rs: seq<Rec>, r: Rec, t: Rec)
    requires DistinctIds(rs) && r in rs && t in rs && r.id == t.id
    ensures r == t
  {
  }

  /** If all runs are of one mode, that is what the uninterrupted run of that mode counts. */
  lemma {:induction false} OneModeEqualsUninterrupted(
    order: seq<Id>, states: seq<State>, events: seq<Event>, i: nat, f: (Id, bool) -> Outcome, hybrid: bool)
    requires Distinct(order) && IsRun(order, states, events) && Follows(order, states, events, f)
    requires i < |states| && Finished(order, states[i]) && RunsIn(states, {hybrid})
    ensures multiset(states[i].counted) == multiset(Uninterrupted(order, f, hybrid))
  {
    var ran := ResumeEqualsUninterrupted(order, states, events, i, f, {hybrid});
    assert Ideal(order, f, ran) == Uninterrupted(order, f, hybrid);
  }

  ghost function Sum(xs: seq<real>): real {
    if xs == [] then 0.0 else Sum(xs[..|xs| - 1]) + xs[|xs| - 1]
  }

  /** _mean */
  ghost function Mean(xs: seq<real>): real {
    if xs == [] then 0.0 else Sum(xs) / |xs| as real
  }

  /** A total is the total of its parts, and a mean times the number of values the total. */
  lemma {:induction false} MeanMeaning(xs: seq<real>, ys: seq<real>)
    ensures Mean(xs) * |xs| as real == Sum(xs)
    ensures Sum(xs + ys) == Sum(xs) + Sum(ys)
    ensures |xs| == 1 ==> Sum(xs) == xs[0]
  {
    if xs != [] {
      assert Sum(xs) / |xs| as real * |xs| as real == Sum(xs);
    }
    SumAppend(xs, ys);
    assert |xs| == 1 ==> xs[..0] == [];
  }

  lemma {:induction false} SumAppend(xs: seq<real>, ys: seq<real>)
    ensures Sum(xs + ys) == Sum(xs) + Sum(ys)
  {
    if ys == [] {
      assert xs + ys == xs;
    } else {
      SumAppend(xs, ys[..|ys| - 1]);
      assert (xs + ys)[..|xs + ys| - 1] == xs + ys[..|ys| - 1];
    }
  }

  lemma {:induction false} SumSplit(xs: seq<real>, k: nat)
    requires k < |xs|
    ensures Sum(xs) == Sum(xs[..k] + xs[k + 1..]) + xs[k]
  {
    if k == |xs| - 1 {
      assert xs[..k] + xs[k + 1..] == xs[..|xs| - 1];
    } else {
      var n := |xs| - 1;
      SumSplit(xs[..n], k);
      assert (xs[..k] + xs[k + 1..])[..n - 1] == xs[..n][..k] + xs[..n][k + 1..];
    }
  }

  /** A score total is the same for every order of the rows. */
  lemma {:induction false} SumPermuted(a: seq<Rec>, b: seq<Rec>, s: Score)
    requires multiset(a) == multiset(b)
    ensures |a| == |b| && Sum(Scores(a, s)) == Sum(Scores(b, s))
  {
    assert |multiset(a)| == |a| && |multiset(b)| == |b|;
    if a != [] {
      var n := |a| - 1;
      assert a[n] in multiset(b);
      var k :| 0 <= k < |b| && b[k] == a[n];
      var rest := b[..k] + b[k + 1..];
      WithoutOne(a, n);
      WithoutOne(b, k);
      assert a[..n] + a[n + 1..] == a[..n];
      SumPermuted(a[..n], rest, s);
      ScoresSplit(a, n, s);
      ScoresSplit(b, k, s);
    }
  }

  lemma {:induction false} WithoutOne<T>(b: seq<T>, k: nat)
    requires k < |b|
    ensures multiset(b[..k] + b[k + 1..]) == multiset(b) - multiset{b[k]}
  {
    assert b == b[..k] + [b[k]] + b[k + 1..];
  }

  lemma {:induction false} ScoresSplit(b: seq<Rec>, k: nat, s: Score)
    requires k < |b|
    ensures Sum(Scores(b, s)) == Sum(Scores(b[..k] + b[k + 1..], s)) + ScoreOf(b[k], s)
  {
    SumSplit(Scores(b, s), k);
    assert Scores(b, s)[..k] + Scores(b, s)[k + 1..] == Scores(b[..k] + b[k + 1..], s);
  }

  /** A hybrid run does what a plain one does, and adds the two hybrid scores. */
  ghost predicate HybridOnlyAdds(f: (Id, bool) -> Outcome) {
    forall id ::
      match f(id, true)
      case Failure(c, m) => f(id, false) == Failure(c, m)
      case Success(a, b, c, d, _, q, t) => f(id, false) == Success(a, b, c, d, NoHybrid, q, t)
  }

  /** The other four means of the report are those of the uninterrupted run, in whatever
      modes the runs were. */
  lemma {:induction false} ReportedMeans(
    order: seq<Id>, states: seq<State>, events: seq<Event>, i: nat, f: (Id, bool) -> Outcome, s: Score, hybrid: bool)
    requires Distinct(order) && IsRun(order, states, events) && Follows(order, states, events, f)
    requires i < |states| && Finished(order, states[i]) && HybridOnlyAdds(f)
    requires s != R5z && s != R10z
    ensures Mean(Scores(states[i].counted, s)) == Mean(Scores(Uninterrupted(order, f, hybrid), s))
  {
    var ran := ResumeEqualsUninterrupted(order, states, events, i, f, {true, false});
    SumPermuted(states[i].counted, Ideal(order, f, ran), s);
    assert Scores(Ideal(order, f, ran), s) == Scores(Uninterrupted(order, f, hybrid), s);
  }

  /** The record as the row would have turned out in a hybrid run. */
  ghost function AsHybrid(rs: seq<Rec>, f: (Id, bool) -> Outcome): seq<Rec> {
    seq(|rs|, i requires 0 <= i < |rs| => Rec(rs[i].id, f(rs[i].id, true)))
  }

  lemma {:induction false} AsHybridPermutes(order: seq<Id>, rs: seq<Rec>, f: (Id, bool) -> Outcome)
    requires Distinct(order) && DistinctIds(rs)
    requires forall id :: id in Ids(rs) <==> id in order
    ensures multiset(AsHybrid(rs, f)) == multiset(Uninterrupted(order, f, true))
  {
    var ts := AsHybrid(rs, f);
    forall id ensures id in Ids(ts) <==> id in Ids(rs) {
      if id in Ids(rs) {
        var k :| 0 <= k < |rs| && rs[k].id == id;
        assert ts[k] in ts;
      }
      if id in Ids(ts) {
        var k :| 0 <= k < |ts| && ts[k].id == id;
        assert rs[k] in rs;
      }
    }
    IdealPermuted(order, ts, f, (id: Id) => true);
  }

  /** Sums of lists of which one is nowhere larger are equal exactly if the lists are. */
  lemma {:induction false} SumBelow(xs: seq<real>, ys: seq<real>)
    requires |xs| == |ys| && forall k :: 0 <= k < |xs| ==> xs[k] <= ys[k]
    ensures Sum(xs) <= Sum(ys)
    ensures Sum(xs) == Sum(ys) <==> forall k :: 0 <= k < |xs| ==> xs[k] == ys[k]
  {
    if xs != [] {
      var n := |xs| - 1;
      SumBelow(xs[..n], ys[..n]);
      if forall k :: 0 <= k < n ==> xs[..n][k] == ys[..n][k] {
        assert forall k :: 0 <= k < n ==> xs[k] == xs[..n][k] && ys[k] == ys[..n][k];
      }
    }
  }

  /** The hybrid means of a hybrid run that resumed from others are those of the
      uninterrupted hybrid run if and only if every row that it did not run as a hybrid
      would have scored zero. */
  lemma {:induction false} HybridMeansExactly(
    order: seq<Id>, states: seq<State>, events: seq<Event>, i: nat, f: (Id, bool) -> Outcome, s: Score)
    requires Distinct(order) && IsRun(order, states, events) && Follows(order, states, events, f)
    requires i < |states| && Finished(order, states[i]) && HybridOnlyAdds(f)
    requires s == R5z || s == R10z
    requires forall id :: ScoreOf(Rec(id, f(id, true)), s) >= 0.0
    ensures Mean(Scores(states[i].counted, s)) == Mean(Scores(Uninterrupted(order, f, true), s)) <==>
            forall r :: r in states[i].counted ==>
              r.outcome == f(r.id, true) || ScoreOf(Rec(r.id, f(r.id, true)), s) == 0.0
  {
    var rs := states[i].counted;
    FinishedCountsEachOnce(order, states, events, i);
    RunFrom(order, states, events, i, f, {true, false});
    AsHybridPermutes(order, rs, f);
    SumPermuted(AsHybrid(rs, f), Uninterrupted(order, f, true), s);
    var xs, ys := Scores(rs, s), Scores(AsHybrid(rs, f), s);
    forall k | 0 <= k < |rs|
      ensures xs[k] <= ys[k]
      ensures xs[k] == ys[k] <==> rs[k].outcome == f(rs[k].id, true) || ys[k] == 0.0
    {
      assert rs[k] in rs;
      PlainScoresNothing(rs[k], f, s);
    }
    SumBelow(xs, ys);
    MeansEqual(xs, Scores(Uninterrupted(order, f, true), s));
    assert forall r :: r in rs <==> exists k :: 0 <= k < |rs| && rs[k] == r;
  }

  lemma {:induction false} PlainScoresNothing(r: Rec, f: (Id, bool) -> Outcome, s: Score)
    requires HybridOnlyAdds(f) && (s == R5z || s == R10z)
    requires r == Rec(r.id, f(r.id, true)) || r == Rec(r.id, f(r.id, false))
    ensures ScoreOf(r, s) == if r.outcome == f(r.id, true) then ScoreOf(Rec(r.id, f(r.id, true)), s) else 0.0
  {
  }

  lemma {:induction false} MeansEqual(xs: seq<real>, ys: seq<real>)
    requires |xs| == |ys|
    ensures Mean(xs) == Mean(ys) <==> Sum(xs) == Sum(ys)
  {
    if xs != [] {
      var n := |xs| as real;
      assert Sum(xs) / n * n == Sum(xs) && Sum(ys) / n * n == Sum(ys);
    }
  }
}
