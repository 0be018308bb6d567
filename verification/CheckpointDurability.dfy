/** Whether every finished run leaves all its rows on disk (bench/longmemeval_blind.py). */
module CheckpointDurability {
  import opened Dicts
  import opened Checkpoint
  import opened CheckpointLimits
  import opened CheckpointReport

  const E := Failure("E", "")

  /** Finishing changes neither what was loaded nor what was completed then. */
  lemma {:induction false} FinishKeepsStart(order: seq<Id>, s: State, outcome: Id -> Outcome)
    requires s.Up? && s.next <= |order|
    ensures Finish(order, s, outcome).Up?
    ensures Finish(order, s, outcome).loaded == s.loaded && Finish(order, s, outcome).completed == s.completed
    decreases |order| - s.next
  {
    if s.next < |order| {
      FinishKeepsStart(order, Apply(order, s, NextEvent(order, s, outcome)), outcome);
    }
  }

  /** From a run that is about to swallow a row, some finished run is not durable. */
  lemma {:induction false} SwallowingRun(order: seq<Id>, s: State)
    requires Distinct(order) && Reaches(order, s)
    requires s.Up? && s.next <= |order| && Swallows(order, s.loaded, s.completed)
    ensures exists t :: Reaches(order, t) && Finished(order, t) && !Durable(t)
  {
    var outcome := (id: Id) => E;
    var t := Finish(order, s, outcome);
    FinishReaches(order, s, outcome);
    FinishKeepsStart(order, s, outcome);
    var states, events :| IsRun(order, states, events) && states[|states| - 1] == t;
    FinishedDurableExactly(order, states, events, |states| - 1);
  }

  /** A run that dies while appending its first row, and one that resumes it. */
  lemma {:induction false} TornFirstRow(order: seq<Id>)
    requires Distinct(order) && order != [] && order[0] != ""
    ensures exists t :: Reaches(order, t) && Finished(order, t) && !Durable(t)
  {
    var r := Rec(order[0], E);
    var f := File([], [Torn(r)]);
    FirstRunReaches(order, 0);
    ReachesStep(order, Up(NO_FILE, NO_FILE, false, {}, [], 0), DieAppending(E, Part));
    ReachesStep(order, Down(f), Start(Resume, false));
    ParsedSnoc([], f.tail);
    assert Records(f) == [];
    SwallowingRun(order, Begin(Resume, false, f));
  }

  /** If the first row has no name: a run that dies just before the newline of its
      second, and one that resumes it and appends the nameless row to that line. */
  lemma {:induction false} TornSecondRow(order: seq<Id>)
    requires Distinct(order) && |order| > 1 && order[0] == ""
    ensures exists t :: Reaches(order, t) && Finished(order, t) && !Durable(t)
  {
    var r := Rec(order[1], E);
    var one := ErrorFile(order, 1);
    var f := File(one.lines, [Whole(r)]);
    assert order[0] != order[1];
    FirstRunReaches(order, 1);
    ReachesStep(order, Up(one, NO_FILE, false, {}, ErrorRecs(order, 1), 1), DieAppending(E, AllButNewline));
    ReachesStep(order, Down(f), Start(Resume, false));
    NamedIds(Records(f));
    assert "" !in Ids(Named(Records(f)));
    SwallowingRun(order, Begin(Resume, false, f));
  }

  /** Every finished run has all its named rows on disk if and only if there are none to lose. */
  lemma {:induction false} AlwaysDurableExactly(order: seq<Id>)
    requires Distinct(order)
    ensures (forall s :: Reaches(order, s) && Finished(order, s) ==> Durable(s)) <==>
            (forall i :: 0 <= i < |order| ==> order[i] == "")
  {
    if order != [] && order[0] != "" {
      TornFirstRow(order);
    } else if |order| > 1 {
      TornSecondRow(order);
      assert order[1] != order[0];
    } else {
      forall s | Reaches(order, s) && Finished(order, s)
        ensures Durable(s)
      {
        var states, events :| IsRun(order, states, events) && states[|states| - 1] == s;
        FinishedCountsEachOnce(order, states, events, |states| - 1);
      }
    }
  }
}
