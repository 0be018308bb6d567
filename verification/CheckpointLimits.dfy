/** Exactly when a finished run's file holds every row, and exactly when an id can be written twice. */
module CheckpointLimits {
  import opened Dicts
  import opened Checkpoint

  // ---- When is every counted row on disk? ----

  /** Every named row that the run counted can be read back from the file. */
  ghost predicate Durable(s: State)
    requires s.Up?
  {
    forall id :: id in Ids(s.counted) && id != "" ==> id in Ids(Records(s.file))
  }

  /** The first row that is not completed, from row i on. */
  function FirstNew(order: seq<Id>, completed: set<Id>, i: nat): (j: nat)
    requires i <= |order|
    ensures i <= j <= |order|
    ensures forall k :: i <= k < j ==> order[k] in completed
    ensures j < |order| ==> order[j] !in completed
    decreases |order| - i
  {
    if i == |order| || order[i] !in completed then i else FirstNew(order, completed, i + 1)
  }

  /** The last line of the file is a complete named record without its newline. */
  predicate NamedTail(f: File) {
    ParseLine(f.tail).Some? && ParseLine(f.tail).value.id != ""
  }

  /** The first append of the run lands on an unterminated line, and a named row is lost with it. */
  predicate Swallows(order: seq<Id>, loaded: File, completed: set<Id>) {
    var j := FirstNew(order, completed, 0);
    loaded.tail != [] && j < |order| && (order[j] != "" || NamedTail(loaded))
  }

  /** The id that is lost. */
  function Victim(order: seq<Id>, loaded: File, completed: set<Id>): Id
    requires Swallows(order, loaded, completed)
  {
    var j := FirstNew(order, completed, 0);
    if order[j] != "" then order[j] else ParseLine(loaded.tail).value.id
  }

  /** Before the first new row nothing has changed. */
  ghost predicate Untouched(s: State)
    requires s.Up?
  {
    s.file == s.loaded && Ids(s.counted) == s.completed
  }

  /** After the first new row the file is terminated, and the victim, if there is one, is lost. */
  ghost predicate Settled(order: seq<Id>, s: State)
    requires s.Up?
  {
    && s.file.tail == []
    && if Swallows(order, s.loaded, s.completed) then
         && Victim(order, s.loaded, s.completed) in Ids(s.counted)
         && Victim(order, s.loaded, s.completed) !in Ids(Records(s.file))
       else Durable(s)
  }

  ghost predicate DiskInv(order: seq<Id>, s: State)
    requires s.Up?
  {
    && s.next <= |order|
    && OncePerName(Records(s.loaded))
    && s.completed == Ids(Named(Records(s.loaded)))
    && if s.next <= FirstNew(order, s.completed, 0) then Untouched(s) else Settled(order, s)
  }

  lemma {:induction false} BeginDisk(order: seq<Id>, mode: Mode, hybrid: bool, f: File)
    requires FileOk(order, f)
    ensures DiskInv(order, Begin(mode, hybrid, f))
  {
    assert Records(NO_FILE) == [];
  }

  lemma {:induction false} IdsSnoc(rs: seq<Rec>, r: Rec)
    ensures Ids(rs + [r]) == Ids(rs) + {r.id}
  {
  }

  /** Rows after the first new one find a terminated file. */
  lemma {:induction false} LaterRowDisk(order: seq<Id>, s: State, outcome: Outcome)
    requires Distinct(order) && Inv(order, s) && Enabled(order, s, Row(outcome)) && DiskInv(order, s)
    requires s.next > FirstNew(order, s.completed, 0)
    ensures DiskInv(order, Apply(order, s, Row(outcome)))
  {
    var r := Rec(order[s.next], outcome);
    AppendRecords(s.file, r);
    IdsSnoc(Records(s.file), r);
    IdsSnoc(s.counted, r);
    NextIsNew(order, s);
  }

  /** The records of an open file: those of its lines, and of its tail if that parses. */
  lemma {:induction false} TailRecords(f: File)
    requires OncePerName(Records(f))
    ensures Ids(Parsed(f.lines)) <= Ids(Records(f))
    ensures NamedTail(f) ==> ParseLine(f.tail).value.id in Ids(Records(f))
    ensures NamedTail(f) ==> ParseLine(f.tail).value.id !in Ids(Parsed(f.lines))
    ensures !NamedTail(f) ==> forall id :: id in Ids(Records(f)) && id != "" ==> id in Ids(Parsed(f.lines))
  {
    ParsedSnoc(f.lines, f.tail);
    if f.tail != [] && ParseLine(f.tail).Some? {
      var t := ParseLine(f.tail).value;
      IdsSnoc(Parsed(f.lines), t);
      if t.id != "" {
        LastIsNew(Parsed(f.lines), t);
      }
    }
  }

  /** The first append of a run, on the file as loaded. */
  lemma {:induction false} FirstAppend(f: File, completed: set<Id>, r: Rec)
    requires OncePerName(Records(f)) && completed == Ids(Named(Records(f)))
    requires r.id !in completed
    ensures var ids := Ids(Records(Append(f, r)));
            && (f.tail != [] && r.id != "" ==> r.id !in ids)
            && (f.tail != [] && NamedTail(f) ==>
                  ParseLine(f.tail).value.id !in ids && ParseLine(f.tail).value.id in completed)
            && (f.tail == [] || (r.id == "" && !NamedTail(f)) ==>
                  forall id :: (id in completed || id == r.id) && id != "" ==> id in ids)
  {
    AppendRecords(f, r);
    TailRecords(f);
    NamedIds(Records(f));
    IdsSnoc(Records(f), r);
  }

  lemma {:induction false} FirstRowSettles(order: seq<Id>, s: State, r: Rec, t: State)
    requires s.Up? && DiskInv(order, s) && s.next == FirstNew(order, s.completed, 0) < |order|
    requires r.id == order[s.next]
    requires t == s.(file := Append(s.file, r), counted := s.counted + [r], next := s.next + 1)
    ensures Settled(order, t)
  {
    FirstAppend(s.loaded, s.completed, r);
    IdsSnoc(s.counted, r);
    hide Named;
    hide Records;
    hide OncePerName;
  }

  lemma {:induction false} FirstRowDisk(order: seq<Id>, s: State, outcome: Outcome)
    requires Distinct(order) && Inv(order, s) && Enabled(order, s, Row(outcome)) && DiskInv(order, s)
    requires s.next == FirstNew(order, s.completed, 0)
    ensures DiskInv(order, Apply(order, s, Row(outcome)))
  {
    hide Settled;
    FirstRowSettles(order, s, Rec(order[s.next], outcome), Apply(order, s, Row(outcome)));
  }

  lemma {:induction false} LastIsNew(rs: seq<Rec>, t: Rec)
    requires OncePerName(rs + [t]) && t.id != ""
    ensures t.id !in Ids(rs)
  {
    forall i | 0 <= i < |rs|
      ensures rs[i].id != t.id
    {
      assert (rs + [t])[i].id != (rs + [t])[|rs|].id || (rs + [t])[i].id == "";
    }
  }

  lemma {:induction false} NamedIds(rs: seq<Rec>)
    ensures forall id :: id in Ids(Named(rs)) <==> id in Ids(rs) && id != ""
  {
    NamedFacts(rs);
    forall id | id in Ids(rs) && id != ""
      ensures id in Ids(Named(rs))
    {
      var r :| r in rs && r.id == id;
      assert r in Named(rs);
    }
  }

  lemma {:induction false} SkipDisk(order: seq<Id>, s: State)
    requires Inv(order, s) && Enabled(order, s, Skip) && DiskInv(order, s)
    ensures DiskInv(order, Apply(order, s, Skip))
  {
  }

  lemma {:induction false} StepDisk(order: seq<Id>, s: State, e: Event)
    requires Distinct(order) && Inv(order, s) && Enabled(order, s, e)
    requires s.Up? ==> DiskInv(order, s)
    ensures Apply(order, s, e).Up? ==> DiskInv(order, Apply(order, s, e))
  {
    hide DiskInv;
    match e
    case Start(mode, hybrid) => BeginDisk(order, mode, hybrid, s.file);
    case Skip => SkipDisk(order, s);
    case Row(outcome) =>
      if s.next > FirstNew(order, s.completed, 0) {
        LaterRowDisk(order, s, outcome);
      } else {
        FirstRowDisk(order, s, outcome);
      }
    case Die =>
    case DieAppending(_, _) =>
  }

  lemma {:induction false} RunDisk(order: seq<Id>, states: seq<State>, events: seq<Event>, i: nat)
    requires Distinct(order) && IsRun(order, states, events) && i < |states| && states[i].Up?
    ensures DiskInv(order, states[i])
    decreases i
  {
    RunInv(order, states, events, i - 1);
    if states[i - 1].Up? {
      RunDisk(order, states, events, i - 1);
    }
    StepDisk(order, states[i - 1], events[i - 1]);
  }

  /** The checkpoint of a finished run holds every named row it counted if and
      only if its first append did not land on an unterminated last line that
      cost it a named row. */
  lemma {:induction false} FinishedDurableExactly(order: seq<Id>, states: seq<State>, events: seq<Event>, i: nat)
    requires Distinct(order) && IsRun(order, states, events) && i < |states| && Finished(order, states[i])
    ensures Durable(states[i]) <==> !Swallows(order, states[i].loaded, states[i].completed)
  {
    RunDisk(order, states, events, i);
    NamedIds(Records(states[i].loaded));
  }

  // ---- Can an id be written twice? ----

  ghost predicate Reaches(order: seq<Id>, s: State) {
    exists states, events :: IsRun(order, states, events) && states[|states| - 1] == s
  }

  lemma {:induction false} ReachesStart(order: seq<Id>)
    ensures Reaches(order, Down(NO_FILE))
  {
    assert IsRun(order, [Down(NO_FILE)], []);
  }

  lemma {:induction false} ReachesStep(order: seq<Id>, s: State, e: Event)
    requires Reaches(order, s) && Enabled(order, s, e)
    ensures Reaches(order, Apply(order, s, e))
  {
    var states, events :| IsRun(order, states, events) && states[|states| - 1] == s;
    var t := Apply(order, s, e);
    var states', events' := states + [t], events + [e];
    assert IsRun(order, states', events') by {
      forall i | 0 <= i < |events'|
        ensures Enabled(order, states'[i], events'[i]) && states'[i + 1] == Apply(order, states'[i], events'[i])
      {
        if i < |events| {
          assert events'[i] == events[i] && states'[i] == states[i] && states'[i + 1] == states[i + 1];
        }
      }
    }
    assert states'[|states'| - 1] == t;
  }

  ghost predicate WrittenTwice(f: File, id: Id) {
    exists p, q :: 0 <= p < q < |Records(f)| && Records(f)[p].id == id == Records(f)[q].id
  }

  /** The records of the first i rows, all errors, and the file they make. */
  function ErrorRecs(order: seq<Id>, i: nat): (rs: seq<Rec>)
    requires i <= |order|
    ensures |rs| == i && forall j :: 0 <= j < i ==> rs[j].id == order[j]
  {
    if i == 0 then [] else ErrorRecs(order, i - 1) + [Rec(order[i - 1], Failure("E", ""))]
  }

  function ErrorFile(order: seq<Id>, i: nat): (f: File)
    requires i <= |order|
    ensures f.tail == []
  {
    if i == 0 then NO_FILE else Append(ErrorFile(order, i - 1), Rec(order[i - 1], Failure("E", "")))
  }

  lemma {:induction false} ErrorFileRecords(order: seq<Id>, i: nat)
    requires i <= |order|
    ensures Records(ErrorFile(order, i)) == ErrorRecs(order, i)
  {
    if i > 0 {
      ErrorFileRecords(order, i - 1);
      AppendRecords(ErrorFile(order, i - 1), Rec(order[i - 1], Failure("E", "")));
    } else {
      assert Records(NO_FILE) == [];
    }
  }

  /** A first run whose rows all fail gets to row i. */
  lemma {:induction false} FirstRunReaches(order: seq<Id>, i: nat)
    requires i <= |order|
    ensures Reaches(order, Up(ErrorFile(order, i), NO_FILE, false, {}, ErrorRecs(order, i), i))
  {
    if i == 0 {
      ReachesStart(order);
      ReachesStep(order, Down(NO_FILE), Start(Resume, false));
      assert Records(NO_FILE) == [];
    } else {
      FirstRunReaches(order, i - 1);
      var s := Up(ErrorFile(order, i - 1), NO_FILE, false, {}, ErrorRecs(order, i - 1), i - 1);
      ReachesStep(order, s, Row(Failure("E", "")));
    }
  }

  /** The state of a second run, resumed from a first that got past the nameless row m. */
  function SecondRun(order: seq<Id>, m: nat, i: nat): State
    requires m < |order|
  {
    var f := ErrorFile(order, m + 1);
    var named := Named(Records(f));
    Up(f, f, false, Ids(named), named, i)
  }

  lemma {:induction false} SecondRunCompleted(order: seq<Id>, m: nat, i: nat)
    requires Distinct(order) && m < |order| && order[m] == "" && i <= m
    ensures order[i] in SecondRun(order, m, i).completed <==> i < m
  {
    ErrorFileRecords(order, m + 1);
    NamedIds(Records(ErrorFile(order, m + 1)));
    assert ErrorRecs(order, m + 1)[i] in Records(ErrorFile(order, m + 1));
  }

  lemma {:induction false} SecondRunReaches(order: seq<Id>, m: nat, i: nat)
    requires Distinct(order) && m < |order| && order[m] == "" && i <= m
    ensures Reaches(order, SecondRun(order, m, i))
  {
    if i == 0 {
      var f := ErrorFile(order, m + 1);
      FirstRunReaches(order, m + 1);
      ReachesStep(order, Up(f, NO_FILE, false, {}, ErrorRecs(order, m + 1), m + 1), Die);
      ReachesStep(order, Down(f), Start(Resume, false));
    } else {
      SecondRunReaches(order, m, i - 1);
      SecondRunCompleted(order, m, i - 1);
      ReachesStep(order, SecondRun(order, m, i - 1), Skip);
    }
  }

  /** A row without a name is run, and written, again by every run. */
  lemma {:induction false} NamelessRepeats(order: seq<Id>)
    requires Distinct(order) && "" in order
    ensures exists s :: Reaches(order, s) && WrittenTwice(s.file, "")
  {
    var m :| 0 <= m < |order| && order[m] == "";
    SecondRunReaches(order, m, m);
    SecondRunCompleted(order, m, m);
    var s := SecondRun(order, m, m);
    ReachesStep(order, s, Row(Failure("E", "")));
    NamelessAgain(order, m);
  }

  lemma {:induction false} NamelessAgain(order: seq<Id>, m: nat)
    requires m < |order| && order[m] == ""
    ensures WrittenTwice(Append(SecondRun(order, m, m).file, Rec(order[m], Failure("E", ""))), "")
  {
    var f, r := ErrorFile(order, m + 1), Rec(order[m], Failure("E", ""));
    ErrorFileRecords(order, m + 1);
    AppendRecords(f, r);
    assert Records(Append(f, r))[m].id == "" == Records(Append(f, r))[m + 1].id;
  }

  /** No run ever leaves two parseable lines for one id if and only if every id has a name. */
  lemma {:induction false} NeverTwiceExactly(order: seq<Id>)
    requires Distinct(order)
    ensures (forall s, id :: Reaches(order, s) ==> !WrittenTwice(s.file, id)) <==> "" !in order
  {
    if "" in order {
      NamelessRepeats(order);
    } else {
      forall s, id | Reaches(order, s)
        ensures !WrittenTwice(s.file, id)
      {
        var states, events :| IsRun(order, states, events) && states[|states| - 1] == s;
        RunInv(order, states, events, |states| - 1);
        NotTwice(order, s.file, id);
      }
    }
  }

  lemma {:induction false} NotTwice(order: seq<Id>, f: File, id: Id)
    requires FileOk(order, f) && "" !in order
    ensures !WrittenTwice(f, id)
  {
    var rs := Records(f);
    forall p, q | 0 <= p < q < |rs|
      ensures rs[p].id != rs[q].id
    {
      assert rs[p] in rs;
    }
  }

  // ---- A progress line that cannot be printed ----

  /** The success line of a row is followed by an error line for the same row if the
      progress print after it raises.  Both can then be read back, for a row that is
      new to the file, exactly if the success line did not land on an unterminated one. */
  lemma {:induction false} PrintFailsExactly(f: File, success: Rec, error: Rec)
    requires success.id == error.id && success.id !in Ids(Records(f))
    ensures WrittenTwice(Append(Append(f, success), error), success.id) <==> f.tail == []
  {
    var g := Append(f, success);
    var rs := Records(Append(g, error));
    AppendRecords(f, success);
    AppendRecords(g, error);
    if f.tail == [] {
      assert rs[|rs| - 2].id == success.id == rs[|rs| - 1].id;
    } else {
      assert rs == Parsed(f.lines) + [error];
      forall p | 0 <= p < |rs| - 1
        ensures rs[p].id != success.id
      {
        assert rs[p] == Records(f)[p] && Records(f)[p] in Records(f);
      }
    }
  }
}
