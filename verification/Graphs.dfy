/** Undirected weighted graphs as values: what the adjacency backend stores,
    with every attribute object replaced by what it holds.  Labels are the
    nodes' canonical identifier strings, which sort like the naturals they
    spell. */
module Graphs {
  import opened Dicts

  type Label = nat

  /** A float, without rounding. */
  datatype Weight = Finite(value: real) | PosInf | NegInf | NaN

  datatype Edge = Edge(weight: Weight, edgeType: string)

  /** A dict of dicts: row u holds, for each neighbour v, the attributes of the edge. */
  type Adj<A> = Dict<Label, Dict<Label, A>>

  type Row = Dict<Label, Edge>

  type Graph = Adj<Edge>

  predicate Joined<A>(g: Adj<A>, u: Label, v: Label) {
    u in g.at && v in g.at[u].at
  }

  function EdgeAt<A>(g: Adj<A>, u: Label, v: Label): A
    requires Joined(g, u, v)
  {
    g.at[u].at[v]
  }

  /** The two directions of an edge agree; in particular every neighbour label is itself a row. */
  ghost predicate Undirected<A>(g: Adj<A>) {
    forall u, v :: Joined(g, u, v) ==> Joined(g, v, u) && EdgeAt(g, u, v) == EdgeAt(g, v, u)
  }

  // ---- The three mutations, on values ----

  function AddNode<A>(g: Adj<A>, n: Label): Adj<A> {
    SetDefault(g, n, Empty())
  }

  /** g[u][v] = e, one direction only */
  function PutEntry<A>(g: Adj<A>, u: Label, v: Label, e: A): (r: Adj<A>)
    requires u in g.at
    ensures r.at.Keys == g.at.Keys
  {
    Put(g, u, Put(g.at[u], v, e))
  }

  function AddEdge<A>(g: Adj<A>, u: Label, v: Label, e: A): Adj<A> {
    var g1 := PutEntry(AddNode(AddNode(g, u), v), u, v, e);
    if u == v then g1 else PutEntry(g1, v, u, e)
  }

  /** The node goes away, together with every mention of it in another row. */
  function RemoveNode<A>(g: Adj<A>, n: Label): Adj<A> {
    Dict(Without(g.keys, n), map u | u in g.at && u != n :: Remove(g.at[u], n))
  }

  /** The dicts of a graph are dicts: every key list holds exactly the keys, once each. */
  ghost predicate WfGraph<A>(g: Adj<A>) {
    Wf(g) && forall u :: u in g.at ==> Wf(g.at[u])
  }

  /** The same rows with the same neighbours, in the same orders; the attributes may differ. */
  ghost predicate SameShape<A, B>(g: Adj<A>, h: Adj<B>) {
    && g.keys == h.keys
    && g.at.Keys == h.at.Keys
    && (forall u :: u in g.at ==> g.at[u].keys == h.at[u].keys && g.at[u].at.Keys == h.at[u].at.Keys)
  }

  /** The edge's weight changes in both directions. */
  function SetWeight(g: Graph, u: Label, v: Label, w: Weight): Graph
    requires Joined(g, u, v) && Joined(g, v, u)
  {
    PutEntry(PutEntry(g, u, v, EdgeAt(g, u, v).(weight := w)), v, u, EdgeAt(g, v, u).(weight := w))
  }

  // ---- Removing a node by way of its neighbours ----

  /** `h` is `g` after the rows in `done`, except row n itself, forgot n. */
  ghost predicate Scrubbed<A>(g: Adj<A>, done: seq<Label>, n: Label, h: Adj<A>) {
    && h.keys == g.keys
    && h.at.Keys == g.at.Keys
    && (forall u :: u in g.at ==> h.at[u] == if u in done && u != n then Remove(g.at[u], n) else g.at[u])
  }

  lemma {:induction false} ScrubStart<A>(g: Adj<A>, n: Label)
    ensures Scrubbed(g, [], n, g)
  {
  }

  lemma {:induction false} ScrubStep<A>(g: Adj<A>, row: seq<Label>, i: nat, n: Label, h: Adj<A>)
    requires WfGraph(g) && Undirected(g) && n in g.at && row == g.at[n].keys
    requires i < |row| && Scrubbed(g, row[..i], n, h)
    ensures row[i] in h.at
    ensures Scrubbed(g, row[..i + 1], n, if row[i] == n then h else Put(h, row[i], Remove(h.at[row[i]], n)))
  {
    assert Joined(g, n, row[i]) && Joined(g, row[i], n);
    assert row[i] !in row[..i];
    assert row[..i + 1] == row[..i] + [row[i]];
    hide WfGraph;
    hide Undirected;
  }

  /** Only the neighbours of n mention n, so scrubbing them is enough. */
  lemma {:induction false} ScrubEnd<A>(g: Adj<A>, n: Label, h: Adj<A>)
    requires WfGraph(g) && Undirected(g) && n in g.at
    requires Scrubbed(g, g.at[n].keys, n, h)
    ensures Remove(h, n) == RemoveNode(g, n)
  {
    forall u | u in g.at && u != n
      ensures h.at[u] == Remove(g.at[u], n)
    {
      ScrubbedRow(g, n, h, u);
    }
    DropScrubbedRow(g, n, h);
  }

  lemma {:induction false} DropScrubbedRow<A>(g: Adj<A>, n: Label, h: Adj<A>)
    requires h.keys == g.keys && h.at.Keys == g.at.Keys
    requires forall u :: u in g.at && u != n ==> h.at[u] == Remove(g.at[u], n)
    ensures Remove(h, n) == RemoveNode(g, n)
  {
    assert Remove(h, n).at == RemoveNode(g, n).at;
  }

  lemma {:induction false} ScrubbedRow<A>(g: Adj<A>, n: Label, h: Adj<A>, u: Label)
    requires WfGraph(g) && Undirected(g) && n in g.at && u in g.at && u != n
    requires Scrubbed(g, g.at[n].keys, n, h)
    ensures h.at[u] == Remove(g.at[u], n)
  {
    if u !in g.at[n].keys {
      assert !Joined(g, n, u) && !Joined(g, u, n);
      UnmentionedRow(g, u, n);
    }
  }

  lemma {:induction false} UnmentionedRow<A>(g: Adj<A>, u: Label, n: Label)
    requires WfGraph(g) && u in g.at && !Joined(g, u, n)
    ensures Remove(g.at[u], n) == g.at[u]
  {
    RemoveAbsent(g.at[u].keys, n);
    assert Remove(g.at[u], n).at == g.at[u].at;
  }

  lemma {:induction false} RemoveAbsentNode<A>(g: Adj<A>, n: Label)
    requires WfGraph(g) && Undirected(g) && n !in g.at
    ensures RemoveNode(g, n) == g
  {
    forall u | u in g.at
      ensures Remove(g.at[u], n) == g.at[u]
    {
      assert !Joined(g, u, n);
      UnmentionedRow(g, u, n);
    }
    DropScrubbedRow(g, n, g);
    RemoveAbsent(g.keys, n);
    assert Remove(g, n).at == g.at;
  }

  // ---- What each mutation does to one entry ----

  /** (x, y) is one of the two directions of the edge between u and v. */
  predicate SameEnds(u: Label, v: Label, x: Label, y: Label) {
    (x == u && y == v) || (x == v && y == u)
  }

  lemma {:induction false} PutEntryAt<A>(g: Adj<A>, u: Label, v: Label, e: A, x: Label, y: Label)
    requires u in g.at
    ensures x in PutEntry(g, u, v, e).at <==> x in g.at
    ensures Joined(PutEntry(g, u, v, e), x, y) <==> Joined(g, x, y) || (x == u && y == v)
    ensures Joined(PutEntry(g, u, v, e), x, y) ==>
              EdgeAt(PutEntry(g, u, v, e), x, y) == if x == u && y == v then e else EdgeAt(g, x, y)
  {
  }

  lemma {:induction false} PutEntryWf<A>(g: Adj<A>, u: Label, v: Label, e: A)
    requires WfGraph(g) && u in g.at
    ensures WfGraph(PutEntry(g, u, v, e))
  {
  }

  lemma {:induction false} AddNodeWf<A>(g: Adj<A>, n: Label)
    requires WfGraph(g)
    ensures WfGraph(AddNode(g, n))
  {
  }

  lemma {:induction false} AddEdgeWf<A>(g: Adj<A>, u: Label, v: Label, e: A)
    requires WfGraph(g)
    ensures WfGraph(AddEdge(g, u, v, e))
  {
    AddNodeWf(g, u);
    AddNodeWf(AddNode(g, u), v);
    PutEntryWf(AddNode(AddNode(g, u), v), u, v, e);
    if u != v {
      PutEntryWf(PutEntry(AddNode(AddNode(g, u), v), u, v, e), v, u, e);
    }
  }

  lemma {:induction false} RemoveNodeWf<A>(g: Adj<A>, n: Label)
    requires WfGraph(g)
    ensures WfGraph(RemoveNode(g, n))
  {
    assert Wf(Remove(g, n));
  }

  /** What one write does to the entry (x, y), for any x and y. */
  lemma {:induction false} AddEdgeEntry<A>(g: Adj<A>, u: Label, v: Label, e: A, x: Label, y: Label)
    ensures x in AddEdge(g, u, v, e).at <==> x in g.at || x == u || x == v
    ensures Joined(AddEdge(g, u, v, e), x, y) <==> Joined(g, x, y) || SameEnds(u, v, x, y)
    ensures Joined(AddEdge(g, u, v, e), x, y) ==>
              EdgeAt(AddEdge(g, u, v, e), x, y) == if SameEnds(u, v, x, y) then e else EdgeAt(g, x, y)
  {
    var g0 := AddNode(g, u);
    var g1 := AddNode(g0, v);
    var g2 := PutEntry(g1, u, v, e);
    AddNodeEntry(g, u, x, y);
    AddNodeEntry(g0, v, x, y);
    PutEntryAt(g1, u, v, e, x, y);
    if u != v {
      PutEntryAt(g2, v, u, e, x, y);
    }
  }

  /** What one removal does to the entry (x, y), for any x and y. */
  lemma {:induction false} RemoveNodeEntry<A>(g: Adj<A>, n: Label, x: Label, y: Label)
    ensures RemoveNode(g, n).at.Keys == g.at.Keys - {n}
    ensures Joined(RemoveNode(g, n), x, y) <==> Joined(g, x, y) && x != n && y != n
    ensures Joined(RemoveNode(g, n), x, y) ==> EdgeAt(RemoveNode(g, n), x, y) == EdgeAt(g, x, y)
  {
  }

  lemma {:induction false} AddNodeEntry<A>(g: Adj<A>, n: Label, x: Label, y: Label)
    ensures AddNode(g, n).at.Keys == g.at.Keys + {n}
    ensures Joined(AddNode(g, n), x, y) <==> Joined(g, x, y)
    ensures Joined(g, x, y) ==> EdgeAt(AddNode(g, n), x, y) == EdgeAt(g, x, y)
  {
  }

  lemma {:induction false} AddNodeEntries<A>(g: Adj<A>, n: Label)
    ensures forall x, y :: Joined(AddNode(g, n), x, y) <==> Joined(g, x, y)
    ensures forall x, y :: Joined(g, x, y) ==> EdgeAt(AddNode(g, n), x, y) == EdgeAt(g, x, y)
  {
  }

  lemma {:induction false} RemoveNodeEntries<A>(g: Adj<A>, n: Label)
    ensures forall x, y :: Joined(RemoveNode(g, n), x, y) <==> Joined(g, x, y) && x != n && y != n
    ensures forall x, y :: Joined(RemoveNode(g, n), x, y) ==> EdgeAt(RemoveNode(g, n), x, y) == EdgeAt(g, x, y)
  {
  }

  lemma {:induction false} AddEdgeEntries<A>(g: Adj<A>, u: Label, v: Label, e: A)
    ensures forall x, y :: Joined(AddEdge(g, u, v, e), x, y) <==> Joined(g, x, y) || SameEnds(u, v, x, y)
    ensures forall x, y :: Joined(AddEdge(g, u, v, e), x, y) ==>
              EdgeAt(AddEdge(g, u, v, e), x, y) == if SameEnds(u, v, x, y) then e else EdgeAt(g, x, y)
  {
    forall x, y
      ensures Joined(AddEdge(g, u, v, e), x, y) <==> Joined(g, x, y) || SameEnds(u, v, x, y)
      ensures Joined(AddEdge(g, u, v, e), x, y) ==>
                EdgeAt(AddEdge(g, u, v, e), x, y) == if SameEnds(u, v, x, y) then e else EdgeAt(g, x, y)
    {
      AddEdgeEntry(g, u, v, e, x, y);
    }
  }

  lemma {:induction false} AddEdgeUndirected<A>(g: Adj<A>, u: Label, v: Label, e: A)
    requires Undirected(g)
    ensures Undirected(AddEdge(g, u, v, e))
  {
    AddEdgeEntries(g, u, v, e);
    hide AddEdge;
  }

  lemma {:induction false} ShapeAddNode<A, B>(g: Adj<A>, h: Adj<B>, n: Label)
    requires SameShape(g, h)
    ensures SameShape(AddNode(g, n), AddNode(h, n))
  {
  }

  lemma {:induction false} ShapePutEntry<A, B>(g: Adj<A>, h: Adj<B>, u: Label, v: Label, e: A, f: B)
    requires SameShape(g, h) && u in g.at
    ensures SameShape(PutEntry(g, u, v, e), PutEntry(h, u, v, f))
  {
  }

  lemma {:induction false} ShapeAddEdge<A, B>(g: Adj<A>, h: Adj<B>, u: Label, v: Label, e: A, f: B)
    requires SameShape(g, h)
    ensures SameShape(AddEdge(g, u, v, e), AddEdge(h, u, v, f))
  {
    ShapeAddNode(g, h, u);
    var g0, h0 := AddNode(g, u), AddNode(h, u);
    ShapeAddNode(g0, h0, v);
    var g1, h1 := AddNode(g0, v), AddNode(h0, v);
    ShapePutEntry(g1, h1, u, v, e, f);
    if u != v {
      ShapePutEntry(PutEntry(g1, u, v, e), PutEntry(h1, u, v, f), v, u, e, f);
    }
  }

  lemma {:induction false} ShapeRemoveNode<A, B>(g: Adj<A>, h: Adj<B>, n: Label)
    requires SameShape(g, h)
    ensures SameShape(RemoveNode(g, n), RemoveNode(h, n))
  {
  }

  /** Overwriting an entry moves nothing. */
  lemma {:induction false} ShapeOverwrite<A, B>(g: Adj<A>, h: Adj<B>, u: Label, v: Label, f: B)
    requires SameShape(g, h) && Joined(h, u, v)
    ensures SameShape(g, PutEntry(h, u, v, f))
  {
  }

  lemma {:induction false} SetWeightEntry(g: Graph, u: Label, v: Label, w: Weight, x: Label, y: Label)
    requires Joined(g, u, v) && Joined(g, v, u) && EdgeAt(g, u, v) == EdgeAt(g, v, u)
    ensures Joined(SetWeight(g, u, v, w), x, y) <==> Joined(g, x, y)
    ensures Joined(g, x, y) ==>
              EdgeAt(SetWeight(g, u, v, w), x, y) ==
              if SameEnds(u, v, x, y) then EdgeAt(g, x, y).(weight := w) else EdgeAt(g, x, y)
  {
    var e := EdgeAt(g, u, v).(weight := w);
    PutEntryAt(g, u, v, e, x, y);
    PutEntryAt(PutEntry(g, u, v, e), v, u, e, x, y);
  }

  lemma {:induction false} AddEdgeNodes<A>(g: Adj<A>, u: Label, v: Label, e: A)
    ensures AddEdge(g, u, v, e).at.Keys == g.at.Keys + {u, v}
  {
  }

  // ---- Order ----

  /** A new row is the last, a new neighbour the last of its row; rows and neighbours
      that are there already keep their places, and so do all others. */
  lemma {:induction false} NewGoLast<A>(g: Adj<A>, u: Label, v: Label, e: A)
    ensures AddNode(g, u).keys == if u in g.at then g.keys else g.keys + [u]
    ensures u in g.at ==>
              var r := PutEntry(g, u, v, e);
              && r.keys == g.keys && u in r.at
              && r.at[u].keys == (if Joined(g, u, v) then g.at[u].keys else g.at[u].keys + [v])
              && forall x :: x in g.at && x != u ==> x in r.at && r.at[x] == g.at[x]
  {
  }

  /** Removing a node takes it out of the order of the rows, and of each row it is in. */
  lemma {:induction false} RemovedKeepOrder<A>(g: Adj<A>, n: Label, u: Label, before: seq<Label>, after: seq<Label>)
    ensures g.keys == before + [n] + after && n !in before && n !in after ==> RemoveNode(g, n).keys == before + after
    ensures u in g.at && u != n && g.at[u].keys == before + [n] + after && n !in before && n !in after ==>
              u in RemoveNode(g, n).at && RemoveNode(g, n).at[u].keys == before + after
  {
    if n !in before && n !in after {
      WithoutMiddle(before, n, after);
    }
  }
}
