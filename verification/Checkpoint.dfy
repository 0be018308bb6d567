/** The crash and resume protocol of bench/longmemeval_blind.py, as a state machine over an append-only file. */
module Checkpoint {
  import opened Options
  import opened Dicts

  type Id = string

  /** The two hybrid scores, present only if the row ran with --hybrid. */
  datatype Hybrid = NoHybrid | Hybrid(r5z: real, r10z: real)

  datatype Outcome =
    | Success(r5x: real, r10x: real, r5y: real, r10y: real, z: Hybrid, queryTokens: int, insertedTokens: int)
    | Failure(errorClass: string, message: string)

  /** One checkpoint record. */
  datatype Rec = Rec(id: Id, outcome: Outcome)

  // ---- The file ----

  /** What one append left on a line: all of the record, or a proper part of it. */
  datatype Fragment = Whole(rec: Rec) | Torn(part: Rec)

  type Line = seq<Fragment>

  /** Terminated lines, and what follows the last newline. */
  datatype File = File(lines: seq<Line>, tail: Line)

  const NO_FILE := File([], [])

  /** A line parses only if it is exactly one complete record. */
  function ParseLine(l: Line): Option<Rec> {
    if |l| == 1 && l[0].Whole? then Some(l[0].rec) else None
  }

  function AllLines(f: File): seq<Line> {
    if f.tail == [] then f.lines else f.lines + [f.tail]
  }

  /** The records of the lines that parse, in file order. */
  function Parsed(ls: seq<Line>): seq<Rec> {
    if ls == [] then []
    else
      match ParseLine(ls[|ls| - 1])
      case None => Parsed(ls[..|ls| - 1])
      case Some(r) => Parsed(ls[..|ls| - 1]) + [r]
  }

  function Records(f: File): seq<Rec> {
    Parsed(AllLines(f))
  }

  /** write(json + "\n"), flushed and synced */
  function Append(f: File, r: Rec): File {
    File(f.lines + [f.tail + [Whole(r)]], [])
  }

  /** How much of an append reached the disk before the process died. */
  datatype Tear = Nothing | Part | AllButNewline

  function TornAppend(f: File, r: Rec, tear: Tear): File {
    match tear
    case Nothing => f
    case Part => File(f.lines, f.tail + [Torn(r)])
    case AllButNewline => File(f.lines, f.tail + [Whole(r)])
  }

  // ---- Starting a run ----

  datatype Mode = Default | Resume | Fresh

  predicate HasErrors(rs: seq<Rec>) {
    exists r :: r in rs && r.outcome.Failure?
  }

  /** What the start of a run leaves of the checkpoint. */
  function Dispose(mode: Mode, f: File): File {
    match mode
    case Fresh => NO_FILE
    case Default => if HasErrors(Records(f)) then NO_FILE else f
    case Resume => f
  }

  /** Records without an id are ignored. */
  function Named(rs: seq<Rec>): seq<Rec> {
    if rs == [] then []
    else Named(rs[..|rs| - 1]) + if rs[|rs| - 1].id == "" then [] else [rs[|rs| - 1]]
  }

  function Ids(rs: seq<Rec>): set<Id> {
    set r | r in rs :: r.id
  }

  // ---- The state machine ----

  /** Down: nothing runs.  Up: a run has loaded `loaded`, skips the ids in
      `completed`, has counted `counted` so far and is at row `next`. */
  datatype State =
    | Down(file: File)
    | Up(file: File, loaded: File, hybrid: bool, completed: set<Id>, counted: seq<Rec>, next: nat)

  datatype Event =
    | Start(mode: Mode, hybrid: bool)
    | Skip
    | Row(outcome: Outcome)
    | Die
    | DieAppending(outcome: Outcome, tear: Tear)

  function Begin(mode: Mode, hybrid: bool, f: File): State {
    var g := Dispose(mode, f);
    var named := Named(Records(g));
    Up(g, g, hybrid, Ids(named), named, 0)
  }

  predicate Enabled(order: seq<Id>, s: State, e: Event) {
    match e
    case Start(_, _) => s.Down?
    case Skip => s.Up? && s.next < |order| && order[s.next] in s.completed
    case Row(_) => s.Up? && s.next < |order| && order[s.next] !in s.completed
    case Die => s.Up?
    case DieAppending(_, _) => s.Up? && s.next < |order| && order[s.next] !in s.completed
  }

  function Apply(order: seq<Id>, s: State, e: Event): State
    requires Enabled(order, s, e)
  {
    match e
    case Start(mode, hybrid) => Begin(mode, hybrid, s.file)
    case Skip => s.(next := s.next + 1)
    case Row(outcome) =>
      var r := Rec(order[s.next], outcome);
      s.(file := Append(s.file, r), counted := s.counted + [r], next := s.next + 1)
    case Die => Down(s.file)
    case DieAppending(outcome, tear) => Down(TornAppend(s.file, Rec(order[s.next], outcome), tear))
  }

  /** A run of the protocol, from no file. */
  ghost predicate IsRun(order: seq<Id>, states: seq<State>, events: seq<Event>) {
    && |states| == |events| + 1
    && states[0] == Down(NO_FILE)
    && forall i :: 0 <= i < |events| ==>
         Enabled(order, states[i], events[i]) && states[i + 1] == Apply(order, states[i], events[i])
  }

  predicate Finished(order: seq<Id>, s: State) {
    s.Up? && s.next == |order|
  }

  // ---- Invariants ----

  /** No two records carry the same name. */
  ghost predicate OncePerName(rs: seq<Rec>) {
    forall i, j :: 0 <= i < j < |rs| && rs[i].id != "" ==> rs[i].id != rs[j].id
  }

  ghost predicate DistinctIds(rs: seq<Rec>) {
    forall i, j :: 0 <= i < j < |rs| ==> rs[i].id != rs[j].id
  }

  ghost predicate FileOk(order: seq<Id>, f: File) {
    && OncePerName(Records(f))
    && (forall r :: r in Records(f) ==> r.id in order)
  }

  /** The rows that this run has gone through itself. */
  ghost function Processed(order: seq<Id>, s: State): set<Id>
    requires s.Up? && s.next <= |order|
  {
    set j | 0 <= j < s.next && order[j] !in s.completed :: order[j]
  }

  ghost predicate RunOk(order: seq<Id>, s: State)
    requires s.Up?
  {
    && s.next <= |order|
    && "" !in s.completed
    && DistinctIds(s.counted)
    && (forall id :: id in Ids(s.counted) <==> id in s.completed || id in Processed(order, s))
    && (forall id :: id in s.completed ==> id in order)
    && (forall r :: r in Records(s.file) && r.id != "" ==> r.id in s.completed || r.id in Processed(order, s))
  }

  ghost predicate Inv(order: seq<Id>, s: State) {
    FileOk(order, s.file) && (s.Up? ==> RunOk(order, s))
  }

  // ---- What one append does to the records ----

  lemma {:induction false} ParsedSnoc(ls: seq<Line>, l: Line)
    ensures Parsed(ls + [l]) == Parsed(ls) + match ParseLine(l) case None => [] case Some(r) => [r]
  {
    assert (ls + [l])[..|ls|] == ls;
  }

  /** On a terminated file an append adds its record; on an open tail it swallows
      the tail and is swallowed with it. */
  lemma {:induction false} AppendRecords(f: File, r: Rec)
    ensures f.tail == [] ==> Records(Append(f, r)) == Records(f) + [r]
    ensures f.tail != [] ==> Records(Append(f, r)) == Parsed(f.lines)
    ensures Parsed(f.lines) <= Records(f)
  {
    ParsedSnoc(f.lines, f.tail + [Whole(r)]);
    ParsedSnoc(f.lines, f.tail);
  }

  lemma {:induction false} TornAppendRecords(f: File, r: Rec, tear: Tear)
    ensures Records(TornAppend(f, r, tear)) <= Records(f) + [r]
  {
    ParsedSnoc(f.lines, f.tail);
    ParsedSnoc(f.lines, f.tail + [Torn(r)]);
    ParsedSnoc(f.lines, f.tail + [Whole(r)]);
  }

  lemma {:induction false} NamedFacts(rs: seq<Rec>)
    ensures forall r :: r in Named(rs) <==> r in rs && r.id != ""
    ensures OncePerName(rs) ==> DistinctIds(Named(rs))
  {
    if rs != [] {
      var init, last := rs[..|rs| - 1], rs[|rs| - 1];
      NamedFacts(init);
      assert rs == init + [last];
      if OncePerName(rs) {
        forall i | 0 <= i < |Named(init)|
          ensures Named(init)[i].id != last.id || last.id == ""
        {
          assert Named(init)[i] in Named(init);
        }
      }
    }
  }

  /** If every record that an append may add is new, the file stays in order. */
  lemma {:induction false} FileOkGrows(order: seq<Id>, f: File, r: Rec, g: File)
    requires FileOk(order, f) && r.id in order
    requires r.id != "" ==> r.id !in Ids(Records(f))
    requires Records(g) <= Records(f) + [r]
    ensures FileOk(order, g)
  {
    forall i | 0 <= i < |Records(f)|
      ensures r.id != "" ==> Records(f)[i].id != r.id
    {
      assert Records(f)[i] in Records(f);
    }
  }

  lemma {:induction false} BeginInv(order: seq<Id>, mode: Mode, hybrid: bool, f: File)
    requires FileOk(order, f)
    ensures Inv(order, Begin(mode, hybrid, f))
  {
    var g := Dispose(mode, f);
    assert FileOk(order, g) by {
      assert Records(NO_FILE) == [];
    }
    NamedFacts(Records(g));
    var s := Begin(mode, hybrid, f);
    assert Processed(order, s) == {};
    forall id | id in s.completed
      ensures id in order && id != ""
    {
      var r :| r in s.counted && r.id == id;
    }
  }

  /** A default start drops a checkpoint that holds any error and keeps any other;
      --fresh drops it and --resume keeps it.  The run has then counted the named records
      of what is left, and is to skip their ids. */
  lemma {:induction false} BeginMeans(mode: Mode, hybrid: bool, f: File, s: State)
    requires s == Begin(mode, hybrid, f)
    ensures s.Up? && s.loaded == s.file && s.hybrid == hybrid && s.next == 0
    ensures mode == Fresh || (mode == Default && exists r :: r in Records(f) && r.outcome.Failure?) ==>
              s.file == NO_FILE && s.counted == [] && s.completed == {}
    ensures mode == Resume || (mode == Default && forall r :: r in Records(f) ==> r.outcome.Success?) ==> s.file == f
    ensures forall r :: r in s.counted <==> r in Records(s.file) && r.id != ""
    ensures forall id :: id in s.completed <==> exists r :: r in s.counted && r.id == id
  {
    NamedFacts(Records(s.file));
    assert Records(NO_FILE) == [];
  }

  lemma {:induction false} SkipInv(order: seq<Id>, s: State)
    requires Inv(order, s) && Enabled(order, s, Skip)
    ensures Inv(order, Apply(order, s, Skip))
  {
    assert Processed(order, Apply(order, s, Skip)) == Processed(order, s);
  }

  /** The row about to run is new to the file and to the run. */
  lemma {:induction false} NextIsNew(order: seq<Id>, s: State)
    requires Distinct(order) && Inv(order, s) && s.Up? && s.next < |order| && order[s.next] !in s.completed
    ensures order[s.next] !in Ids(s.counted)
    ensures order[s.next] != "" ==> order[s.next] !in Ids(Records(s.file))
  {
    assert order[s.next] !in Processed(order, s);
  }

  lemma {:induction false} RowInv(order: seq<Id>, s: State, outcome: Outcome)
    requires Distinct(order) && Inv(order, s) && Enabled(order, s, Row(outcome))
    ensures Inv(order, Apply(order, s, Row(outcome)))
  {
    var r := Rec(order[s.next], outcome);
    var t := Apply(order, s, Row(outcome));
    NextIsNew(order, s);
    AppendRecords(s.file, r);
    FileOkGrows(order, s.file, r, t.file);
    assert Processed(order, t) == Processed(order, s) + {r.id};
    assert Ids(t.counted) == Ids(s.counted) + {r.id};
    forall i | 0 <= i < |s.counted|
      ensures s.counted[i].id != r.id
    {
      assert s.counted[i] in s.counted;
    }
  }

  lemma {:induction false} StepInv(order: seq<Id>, s: State, e: Event)
    requires Distinct(order) && Inv(order, s) && Enabled(order, s, e)
    ensures Inv(order, Apply(order, s, e))
  {
    match e
    case Start(mode, hybrid) => BeginInv(order, mode, hybrid, s.file);
    case Skip => SkipInv(order, s);
    case Row(outcome) => RowInv(order, s, outcome);
    case Die =>
    case DieAppending(outcome, tear) =>
      var r := Rec(order[s.next], outcome);
      NextIsNew(order, s);
      TornAppendRecords(s.file, r, tear);
      FileOkGrows(order, s.file, r, TornAppend(s.file, r, tear));
  }

  lemma {:induction false} RunInv(order: seq<Id>, states: seq<State>, events: seq<Event>, i: nat)
    requires Distinct(order) && IsRun(order, states, events) && i < |states|
    ensures Inv(order, states[i])
  {
    if i == 0 {
      assert Records(NO_FILE) == [];
    } else {
      RunInv(order, states, events, i - 1);
      StepInv(order, states[i - 1], events[i - 1]);
    }
  }

  // ---- Over every run ----

  /** No named id ever has two parseable checkpoint lines. */
  lemma {:induction false} AtMostOneLine(order: seq<Id>, states: seq<State>, events: seq<Event>, i: nat, p: nat, q: nat)
    requires Distinct(order) && IsRun(order, states, events) && i < |states|
    requires p < q < |Records(states[i].file)| && Records(states[i].file)[p].id != ""
    ensures Records(states[i].file)[p].id != Records(states[i].file)[q].id
  {
    RunInv(order, states, events, i);
  }

  /** A run that finishes has counted each id of the row order exactly once. */
  lemma {:induction false} FinishedCountsEachOnce(order: seq<Id>, states: seq<State>, events: seq<Event>, i: nat)
    requires Distinct(order) && IsRun(order, states, events) && i < |states| && Finished(order, states[i])
    ensures DistinctIds(states[i].counted)
    ensures forall id :: id in Ids(states[i].counted) <==> id in order
    ensures |states[i].counted| == |order|
  {
    RunInv(order, states, events, i);
    var s := states[i];
    forall id ensures id in Ids(s.counted) <==> id in order {
      if id in order {
        var j :| 0 <= j < |order| && order[j] == id;
        assert id in s.completed || order[j] in Processed(order, s);
      }
    }
    SameIdsSameLength(s.counted, order);
  }

  lemma {:induction false} SameIdsSameLength(rs: seq<Rec>, order: seq<Id>)
    requires DistinctIds(rs) && Distinct(order)
    requires forall id :: id in Ids(rs) <==> id in order
    ensures |rs| == |order|
  {
    var ids := seq(|rs|, k requires 0 <= k < |rs| => rs[k].id);
    forall id ensures id in ids <==> id in Ids(rs) {
      if id in ids {
        var k :| 0 <= k < |ids| && ids[k] == id;
        assert rs[k] in rs;
      }
      if id in Ids(rs) {
        var r :| r in rs && r.id == id;
        var k :| 0 <= k < |rs| && rs[k] == r;
        assert ids[k] == id;
      }
    }
    DistinctCard(ids);
    DistinctCard(order);
    assert Elements(ids) == Elements(order);
  }
}
