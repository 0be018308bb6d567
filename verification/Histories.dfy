/** Histories of calls to the backend, and the graphs they leave behind. */
module Histories {
  import opened Dicts
  import opened Graphs

  datatype Op =
    | OpAddNode(n: Label)
    | OpAddEdge(u: Label, v: Label, e: Edge)
    | OpRemoveNode(n: Label)

  function Apply(g: Graph, op: Op): Graph {
    match op
    case OpAddNode(n) => AddNode(g, n)
    case OpAddEdge(u, v, e) => AddEdge(g, u, v, e)
    case OpRemoveNode(n) => RemoveNode(g, n)
  }

  function Run(ops: seq<Op>): Graph {
    if ops == [] then Empty() else Apply(Run(ops[..|ops| - 1]), ops[|ops| - 1])
  }

  /** The call writes the edge between u and v. */
  predicate Writes(op: Op, u: Label, v: Label) {
    op.OpAddEdge? && SameEnds(op.u, op.v, u, v)
  }

  /** The call makes sure that n is a node. */
  predicate Mentions(op: Op, n: Label) {
    (op.OpAddNode? && op.n == n) || (op.OpAddEdge? && (op.u == n || op.v == n))
  }

  predicate Removes(op: Op, n: Label) {
    op.OpRemoveNode? && op.n == n
  }

  /** Call i mentions n, and no later call removes it. */
  ghost predicate KeepsNode(ops: seq<Op>, i: nat, n: Label) {
    i < |ops| && Mentions(ops[i], n) && forall j :: i < j < |ops| ==> !Removes(ops[j], n)
  }

  /** Call i writes the edge {u, v} as e, and no later call writes it again or removes an end. */
  ghost predicate KeepsEdge(ops: seq<Op>, i: nat, u: Label, v: Label, e: Edge) {
    && i < |ops|
    && Writes(ops[i], u, v)
    && ops[i].e == e
    && forall j :: i < j < |ops| ==> !Writes(ops[j], u, v) && !Removes(ops[j], u) && !Removes(ops[j], v)
  }

  ghost predicate NodeSurvives(ops: seq<Op>, n: Label) {
    exists i :: KeepsNode(ops, i, n)
  }

  ghost predicate EdgeSurvives(ops: seq<Op>, u: Label, v: Label, e: Edge) {
    exists i :: KeepsEdge(ops, i, u, v, e)
  }

  lemma {:induction false} ApplyEntry(g: Graph, op: Op, x: Label, y: Label)
    ensures x in Apply(g, op).at <==> Mentions(op, x) || (x in g.at && !Removes(op, x))
    ensures Joined(Apply(g, op), x, y) <==>
            Writes(op, x, y) || (Joined(g, x, y) && !Removes(op, x) && !Removes(op, y))
    ensures Joined(Apply(g, op), x, y) ==>
              EdgeAt(Apply(g, op), x, y) == if Writes(op, x, y) then op.e else EdgeAt(g, x, y)
  {
    match op
    case OpAddNode(n) => AddNodeEntry(g, n, x, y);
    case OpAddEdge(u, v, e) => AddEdgeEntry(g, u, v, e, x, y);
    case OpRemoveNode(n) => RemoveNodeEntry(g, n, x, y);
  }

  /** One call keeps the two directions of every edge together. */
  lemma {:induction false} ApplyKeepsUndirected(g: Graph, op: Op)
    requires Undirected(g)
    ensures Undirected(Apply(g, op))
  {
    hide Apply;
    var r := Apply(g, op);
    forall x, y | Joined(r, x, y)
      ensures Joined(r, y, x) && EdgeAt(r, x, y) == EdgeAt(r, y, x)
    {
      ApplyEntry(g, op, x, y);
      ApplyEntry(g, op, y, x);
    }
  }

  lemma {:induction false} ApplyWf(g: Graph, op: Op)
    requires WfGraph(g)
    ensures WfGraph(Apply(g, op))
  {
    match op
    case OpAddNode(n) => AddNodeWf(g, n);
    case OpAddEdge(u, v, e) => AddEdgeWf(g, u, v, e);
    case OpRemoveNode(n) => RemoveNodeWf(g, n);
  }

  /** Every graph that a history of calls can reach is a well formed undirected graph. */
  lemma {:induction false} RunUndirected(ops: seq<Op>)
    ensures WfGraph(Run(ops)) && Undirected(Run(ops))
  {
    if ops != [] {
      var g, op := Run(ops[..|ops| - 1]), ops[|ops| - 1];
      RunUndirected(ops[..|ops| - 1]);
      ApplyKeepsUndirected(g, op);
      ApplyWf(g, op);
    }
  }

  lemma {:induction false} NodeStep(ops: seq<Op>, op: Op, n: Label)
    ensures NodeSurvives(ops + [op], n) <==> Mentions(op, n) || (NodeSurvives(ops, n) && !Removes(op, n))
  {
    var all := ops + [op];
    if Mentions(op, n) {
      assert KeepsNode(all, |ops|, n);
    }
    if NodeSurvives(ops, n) && !Removes(op, n) {
      var i: nat :| KeepsNode(ops, i, n);
      assert KeepsNode(all, i, n);
    }
    if NodeSurvives(all, n) && !Mentions(op, n) {
      var i: nat :| KeepsNode(all, i, n);
      assert !Removes(all[|ops|], n);
      assert KeepsNode(ops, i, n) by {
        assert forall j :: i < j < |ops| ==> ops[j] == all[j];
      }
    }
  }

  lemma {:induction false} EdgeStep(ops: seq<Op>, op: Op, u: Label, v: Label, e: Edge)
    ensures EdgeSurvives(ops + [op], u, v, e) <==>
            if Writes(op, u, v) then op.e == e
            else EdgeSurvives(ops, u, v, e) && !Removes(op, u) && !Removes(op, v)
  {
    var all := ops + [op];
    if Writes(op, u, v) {
      if op.e == e {
        assert KeepsEdge(all, |ops|, u, v, e);
      }
      if EdgeSurvives(all, u, v, e) {
        var i: nat :| KeepsEdge(all, i, u, v, e);
        assert Writes(all[|ops|], u, v);
      }
    } else {
      if EdgeSurvives(ops, u, v, e) && !Removes(op, u) && !Removes(op, v) {
        var i: nat :| KeepsEdge(ops, i, u, v, e);
        assert KeepsEdge(all, i, u, v, e);
      }
      if EdgeSurvives(all, u, v, e) {
        var i: nat :| KeepsEdge(all, i, u, v, e);
        assert !Removes(all[|ops|], u) && !Removes(all[|ops|], v);
        assert KeepsEdge(ops, i, u, v, e) by {
          assert forall j :: i < j < |ops| ==> ops[j] == all[j];
        }
      }
    }
  }

  /** What a history of calls amounts to: a node is there exactly when some call
      mentioned it after its last removal, and an edge is there, with the
      attributes of its last write, exactly when neither end was removed since. */
  lemma {:induction false} RunMeaning(ops: seq<Op>, u: Label, v: Label, e: Edge)
    ensures u in Run(ops).at <==> NodeSurvives(ops, u)
    ensures Joined(Run(ops), u, v) && EdgeAt(Run(ops), u, v) == e <==> EdgeSurvives(ops, u, v, e)
  {
    if ops != [] {
      var init, op := ops[..|ops| - 1], ops[|ops| - 1];
      assert ops == init + [op];
      RunMeaning(init, u, v, e);
      NodeStep(init, op, u);
      EdgeStep(init, op, u, v, e);
      ApplyEntry(Run(init), op, u, v);
    }
  }
}
