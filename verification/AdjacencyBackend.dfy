/** The backend of bench/memorygraph_adj_spike.py: a dict of dicts updated in place, whose two
    entries for one edge are the same mutable attribute object. */
module AdjacencyBackend {
  import opened Dicts
  import opened Sorting
  import opened Graphs
  import opened Histories
  import opened Csr
  import opened CsrBuild
  import opened EdgeCounts
  import opened TwoHop

  /** community_id: UUID | None */
  datatype Community = NoCommunity | Community(id: Label)

  class EdgeAttrs {
    var weight: Weight
    const edgeType: string
    ghost const end0: Label
    ghost const end1: Label  // the edge that the object was made for

    constructor (ghost u: Label, ghost v: Label, weight: Weight, edgeType: string)
      ensures this.weight == weight && this.edgeType == edgeType && end0 == u && end1 == v
    {
      this.weight, this.edgeType, end0, end1 := weight, edgeType, u, v;
    }

    ghost function Value(): Edge
      reads this
    {
      Edge(weight, edgeType)
    }
  }

  /** Each entry is an object of the footprint, made for the edge it stands in. */
  ghost predicate Owned(a: Adj<EdgeAttrs>, objects: set<EdgeAttrs>) {
    forall u, v :: Joined(a, u, v) ==>
      EdgeAt(a, u, v) in objects && SameEnds(EdgeAt(a, u, v).end0, EdgeAt(a, u, v).end1, u, v)
  }

  /** Both directions of an edge are one object, and no other edge uses it. */
  ghost predicate Shared(a: Adj<EdgeAttrs>, objects: set<EdgeAttrs>) {
    WfGraph(a) && Undirected(a) && Owned(a, objects)
  }

  lemma {:induction false} SharedObjects(
    a: Adj<EdgeAttrs>, objects: set<EdgeAttrs>, u: Label, v: Label, x: Label, y: Label)
    requires Shared(a, objects) && Joined(a, u, v) && Joined(a, x, y)
    ensures EdgeAt(a, u, v) == EdgeAt(a, x, y) <==> SameEnds(u, v, x, y)
  {
  }

  lemma {:induction false} SharedAddNode(a: Adj<EdgeAttrs>, objects: set<EdgeAttrs>, n: Label)
    requires Shared(a, objects)
    ensures Shared(Graphs.AddNode(a, n), objects)
  {
    AddNodeWf(a, n);
    AddNodeEntries(a, n);
    hide WfGraph;
    hide Graphs.AddNode;
  }

  lemma {:induction false} SharedRemoveNode(a: Adj<EdgeAttrs>, objects: set<EdgeAttrs>, n: Label)
    requires Shared(a, objects)
    ensures Shared(Graphs.RemoveNode(a, n), objects)
  {
    RemoveNodeWf(a, n);
    RemoveNodeEntries(a, n);
    hide WfGraph;
    hide Graphs.RemoveNode;
  }

  lemma {:induction false} SharedAddEdge(a: Adj<EdgeAttrs>, objects: set<EdgeAttrs>, u: Label, v: Label, x: EdgeAttrs)
    requires Shared(a, objects) && x.end0 == u && x.end1 == v
    ensures Shared(Graphs.AddEdge(a, u, v, x), objects + {x})
  {
    AddEdgeWf(a, u, v, x);
    AddEdgeUndirected(a, u, v, x);
    OwnedAddEdge(a, objects, u, v, x);
  }

  lemma {:induction false} OwnedAddEdge(a: Adj<EdgeAttrs>, objects: set<EdgeAttrs>, u: Label, v: Label, x: EdgeAttrs)
    requires Owned(a, objects) && x.end0 == u && x.end1 == v
    ensures Owned(Graphs.AddEdge(a, u, v, x), objects + {x})
  {
    AddEdgeEntries(a, u, v, x);
    hide Graphs.AddEdge;
  }

  // ---- What the objects spell ----

  /** `view` is the dict of dicts with every attribute object replaced by what it holds. */
  ghost predicate Spells(a: Adj<EdgeAttrs>, objects: set<EdgeAttrs>, view: Graph)
    requires Shared(a, objects)
    reads objects
  {
    && SameShape(a, view)
    && (forall u, v :: Joined(a, u, v) ==> Joined(view, u, v) && EdgeAt(view, u, v) == EdgeAt(a, u, v).Value())
  }

  lemma {:induction false} ViewWf(a: Adj<EdgeAttrs>, objects: set<EdgeAttrs>, view: Graph)
    requires Shared(a, objects) && Spells(a, objects, view)
    ensures WfGraph(view) && Undirected(view)
  {
    forall u, v | Joined(view, u, v)
      ensures Joined(view, v, u) && EdgeAt(view, u, v) == EdgeAt(view, v, u)
    {
      assert Joined(a, u, v);
    }
  }

  lemma {:induction false} SpellsAddNode(a: Adj<EdgeAttrs>, objects: set<EdgeAttrs>, view: Graph, n: Label)
    requires Shared(a, objects) && Spells(a, objects, view)
    ensures Shared(Graphs.AddNode(a, n), objects)
    ensures Spells(Graphs.AddNode(a, n), objects, Graphs.AddNode(view, n))
  {
    SharedAddNode(a, objects, n);
    AddNodeEntries(a, n);
    AddNodeEntries(view, n);
    ShapeAddNode(a, view, n);
    hide Graphs.AddNode;
    hide SameShape;
  }

  lemma {:induction false} SpellsAddEdge(
    a: Adj<EdgeAttrs>, objects: set<EdgeAttrs>, view: Graph, u: Label, v: Label, x: EdgeAttrs)
    requires Shared(a, objects) && Spells(a, objects, view) && x.end0 == u && x.end1 == v
    ensures Shared(Graphs.AddEdge(a, u, v, x), objects + {x})
    ensures Spells(Graphs.AddEdge(a, u, v, x), objects + {x}, Graphs.AddEdge(view, u, v, x.Value()))
  {
    SharedAddEdge(a, objects, u, v, x);
    AddEdgeEntries(a, u, v, x);
    AddEdgeEntries(view, u, v, x.Value());
    ShapeAddEdge(a, view, u, v, x, x.Value());
    hide Graphs.AddEdge;
    hide SameShape;
  }

  lemma {:induction false} SpellsRemoveNode(a: Adj<EdgeAttrs>, objects: set<EdgeAttrs>, view: Graph, n: Label)
    requires Shared(a, objects) && Spells(a, objects, view)
    ensures Shared(Graphs.RemoveNode(a, n), objects)
    ensures Spells(Graphs.RemoveNode(a, n), objects, Graphs.RemoveNode(view, n))
  {
    SharedRemoveNode(a, objects, n);
    RemoveNodeEntries(a, n);
    RemoveNodeEntries(view, n);
    ShapeRemoveNode(a, view, n);
    hide Graphs.RemoveNode;
    hide SameShape;
  }

  /** The part of `Valid` that the mutations reason with. */
  lemma {:induction false} SharedBasics(a: Adj<EdgeAttrs>, objects: set<EdgeAttrs>)
    requires Shared(a, objects)
    ensures WfGraph(a) && Undirected(a)
  {
  }

  lemma {:induction false} EntryMeans(
    a: Adj<EdgeAttrs>, objects: set<EdgeAttrs>, view: Graph, u: Label, v: Label, x: Label, y: Label)
    requires Shared(a, objects) && Spells(a, objects, view) && Joined(a, u, v) && Joined(a, x, y)
    ensures EdgeAt(a, x, y) in objects && Joined(view, x, y) && EdgeAt(view, x, y) == EdgeAt(a, x, y).Value()
    ensures EdgeAt(a, x, y) == EdgeAt(a, u, v) ==> SameEnds(u, v, x, y)
  {
  }

  lemma {:induction false} SpellsShape(a: Adj<EdgeAttrs>, objects: set<EdgeAttrs>, view: Graph)
    requires Shared(a, objects) && Spells(a, objects, view)
    ensures SameShape(a, view)
  {
  }

  /** Reading the objects is reading the view. */
  lemma {:induction false} ReadView(a: Adj<EdgeAttrs>, objects: set<EdgeAttrs>, view: Graph)
    requires Shared(a, objects) && Spells(a, objects, view)
    ensures WfGraph(a) && WfGraph(view) && Undirected(view)
    ensures a.keys == view.keys
    ensures forall u :: u in a.at <==> u in view.at
    ensures forall u :: u in a.at ==> a.at[u].keys == view.at[u].keys
    ensures forall u, v :: Joined(a, u, v) ==> Joined(view, u, v) && EdgeAt(view, u, v) == EdgeAt(a, u, v).Value()
  {
    ViewWf(a, objects, view);
  }

  /** Community and embedding are known for the same nodes, all of them rows. */
  ghost predicate Described(attrs: map<Label, Community>, payload: map<Label, seq<real>>, nodes: set<Label>) {
    attrs.Keys == payload.Keys && attrs.Keys <= nodes
  }

  lemma {:induction false} DescribedRemove(
    attrs: map<Label, Community>, payload: map<Label, seq<real>>, nodes: set<Label>, n: Label)
    requires Described(attrs, payload, nodes)
    ensures Described(attrs - {n}, payload - {n}, nodes - {n})
  {
  }

  /** `g` still spells the dict of dicts, except for the weight of the edge {u, v}. */
  ghost predicate SpellsBut(a: Adj<EdgeAttrs>, objects: set<EdgeAttrs>, g: Graph, u: Label, v: Label)
    requires Shared(a, objects)
    reads objects
  {
    && SameShape(a, g)
    && (forall x, y :: Joined(a, x, y) ==>
          && Joined(g, x, y)
          && EdgeAt(g, x, y).edgeType == EdgeAt(a, x, y).edgeType
          && (SameEnds(u, v, x, y) || EdgeAt(g, x, y).weight == EdgeAt(a, x, y).weight))
  }

  /** Writing one attribute object changes the two directions of one edge, and nothing else. */
  lemma {:induction false} SpellsSetWeight(a: Adj<EdgeAttrs>, objects: set<EdgeAttrs>, g: Graph, u: Label, v: Label)
    requires Shared(a, objects) && SpellsBut(a, objects, g, u, v) && Joined(a, u, v) && Undirected(g)
    ensures Joined(g, u, v) && Joined(g, v, u)
    ensures Spells(a, objects, Graphs.SetWeight(g, u, v, EdgeAt(a, u, v).weight))
  {
    var w := EdgeAt(a, u, v).weight;
    var e := EdgeAt(g, u, v).(weight := w);
    ShapeOverwrite(a, g, u, v, e);
    PutEntryAt(g, u, v, e, v, u);
    ShapeOverwrite(a, PutEntry(g, u, v, e), v, u, e);
    forall x, y | Joined(a, x, y)
      ensures Joined(SetWeight(g, u, v, w), x, y)
      ensures EdgeAt(SetWeight(g, u, v, w), x, y) == EdgeAt(a, x, y).Value()
    {
      SetWeightEntry(g, u, v, w, x, y);
      SharedObjects(a, objects, u, v, x, y);
    }
  }

  class Backend {
    var adj: Adj<EdgeAttrs>
    var attrs: map<Label, Community>
    var nodePayload: map<Label, seq<real>>
    var dirtySinceCentrality: bool
    ghost var objects: set<EdgeAttrs>  // the attribute objects made so far
    ghost var view: Graph              // the graph that the backend spells at this moment

    /** The sharing of attribute objects; what they spell; and `_attrs` and
        `_node_payload` describe the same nodes, all of them rows. */
    ghost predicate Valid()
      reads this, objects
    {
      && Shared(adj, objects)
      && Spells(adj, objects, view)
      && Described(attrs, nodePayload, adj.at.Keys)
    }

    constructor ()
      ensures Valid() && view == Empty() && objects == {}
      ensures attrs == map[] && nodePayload == map[] && dirtySinceCentrality
    {
      adj := Empty();
      attrs, nodePayload, dirtySinceCentrality := map[], map[], true;
      objects, view := {}, Empty();
    }

    method AddNode(n: Label, communityId: Community, embedding: seq<real>)
      requires Valid()
      modifies this
      ensures Valid() && objects == old(objects)
      ensures view == Graphs.AddNode(old(view), n)
      ensures attrs == old(attrs)[n := communityId]
      ensures nodePayload == old(nodePayload)[n := embedding]
      ensures dirtySinceCentrality
    {
      hide Shared;
      hide Spells;
      hide Graphs.AddNode;
      SpellsAddNode(adj, objects, view, n);
      AddNodeEntry(adj, n, n, n);
      adj, view := Graphs.AddNode(adj, n), Graphs.AddNode(view, n);
      attrs, nodePayload := attrs[n := communityId], nodePayload[n := embedding];
      dirtySinceCentrality := true;
    }

    method AddEdge(u: Label, v: Label, weight: Weight, edgeType: string)
      requires Valid()
      modifies this
      ensures Valid() && fresh(objects - old(objects))
      ensures view == Graphs.AddEdge(old(view), u, v, Edge(weight, edgeType))
      ensures Joined(adj, u, v) && EdgeAt(adj, u, v) !in old(objects)
      ensures attrs == old(attrs) && nodePayload == old(nodePayload) && dirtySinceCentrality
    {
      hide Shared;
      hide Spells;
      hide Graphs.AddEdge;
      var a := new EdgeAttrs(u, v, weight, edgeType);
      SpellsAddEdge(adj, objects, view, u, v, a);
      AddEdgeNodes(adj, u, v, a);
      AddEdgeEntry(adj, u, v, a, u, v);
      Link(u, v, a);
      dirtySinceCentrality := true;
      objects, view := objects + {a}, Graphs.AddEdge(view, u, v, Edge(weight, edgeType));
    }

    /** Both rows, with the two entries that share one object. */
    method Link(u: Label, v: Label, a: EdgeAttrs)
      modifies `adj
      ensures adj == Graphs.AddEdge(old(adj), u, v, a)
    {
      hide Graphs.AddNode;
      hide PutEntry;
      AddNodeEntry(adj, u, u, v);
      AddNodeEntry(Graphs.AddNode(adj, u), v, u, v);
      adj := Graphs.AddNode(adj, u);
      adj := Graphs.AddNode(adj, v);
      adj := PutEntry(adj, u, v, a);
      if u != v {
        adj := PutEntry(adj, v, u, a);
      }
    }

    method RemoveNode(n: Label)
      requires Valid()
      modifies this
      ensures Valid() && objects == old(objects)
      ensures view == Graphs.RemoveNode(old(view), n)
      ensures attrs == old(attrs) - {n} && nodePayload == old(nodePayload) - {n}
      ensures dirtySinceCentrality
    {
      hide Shared;
      hide Spells;
      hide Graphs.RemoveNode;
      SpellsRemoveNode(adj, objects, view, n);
      SharedBasics(adj, objects);
      hide WfGraph;
      hide Undirected;
      hide Described;
      RemoveNodeEntry(adj, n, n, n);
      DescribedRemove(attrs, nodePayload, adj.at.Keys, n);
      DropRow(n);
      attrs, nodePayload := attrs - {n}, nodePayload - {n};
      dirtySinceCentrality := true;
      view := Graphs.RemoveNode(view, n);
    }

    /** The rows of the neighbours forget n, and then its own row goes. */
    method DropRow(n: Label)
      requires WfGraph(adj) && Undirected(adj)
      modifies this`adj
      ensures adj == Graphs.RemoveNode(old(adj), n)
    {
      hide WfGraph;
      hide Undirected;
      hide Scrubbed;
      hide Graphs.RemoveNode;
      if n in adj.at {
        var neighbours := adj.at[n].keys;
        ScrubStart(adj, n);
        for i := 0 to |neighbours|
          invariant Scrubbed(old(adj), neighbours[..i], n, adj)
        {
          var m := neighbours[i];
          ScrubStep(old(adj), neighbours, i, n, adj);
          if m != n {
            adj := Put(adj, m, Remove(adj.at[m], n));
          }
        }
        assert neighbours[..|neighbours|] == neighbours;
        ScrubEnd(old(adj), n, adj);
        adj := Remove(adj, n);
      } else {
        RemoveAbsentNode(adj, n);
      }
    }

    /** Writing the weight through one direction, as g._adj[u][v]["weight"] = w does. */
    method SetWeight(u: Label, v: Label, w: Weight)
      requires Valid() && Joined(adj, u, v)
      modifies this`view, EdgeAt(adj, u, v)
      ensures Valid()
      ensures Joined(old(view), u, v) && Joined(old(view), v, u)
      ensures view == Graphs.SetWeight(old(view), u, v, w)
    {
      hide Shared;
      hide Spells;
      SharedBasics(adj, objects);
      ViewWf(adj, objects, view);
      forall x, y | Joined(adj, x, y)
        ensures EdgeAt(adj, x, y) in objects && Joined(view, x, y) && EdgeAt(view, x, y) == EdgeAt(adj, x, y).Value()
        ensures EdgeAt(adj, x, y) == EdgeAt(adj, u, v) ==> SameEnds(u, v, x, y)
      {
        EntryMeans(adj, objects, view, u, v, x, y);
      }
      SpellsShape(adj, objects, view);
      adj.at[u].at[v].weight := w;
      SpellsSetWeight(adj, objects, view, u, v);
      view := Graphs.SetWeight(view, u, v, w);
    }

    // ---- Queries ----

    /** Lists each edge at its smaller end. */
    method IterEdgesWithWeight() returns (out: seq<Emitted>)
      requires Valid()
      ensures WfGraph(view) && out == Emit(view, |view.keys|)
    {
      hide Shared;
      hide Spells;
      ReadView(adj, objects, view);
      out := [];
      for i := 0 to |adj.keys|
        invariant out == Emit(view, i)
      {
        var more := EdgesOfRow(adj.keys[i]);
        out := out + more;
      }
    }

    /** The inner loop: the row of u. */
    method EdgesOfRow(u: Label) returns (out: seq<Emitted>)
      requires Valid() && WfGraph(view) && u in adj.at && u in view.at
      ensures out == EmitRow(view, u, |view.at[u].keys|)
    {
      hide Shared;
      hide Spells;
      ReadView(adj, objects, view);
      var row := adj.at[u];
      assert Wf(row);
      hide WfGraph;
      hide Undirected;
      out := [];
      for j := 0 to |row.keys|
        invariant out == EmitRow(view, u, j)
      {
        var v := row.keys[j];
        assert Joined(adj, u, v) && EdgeAt(view, u, v).weight == row.at[v].weight;
        if u <= v {
          out := out + [Emitted(u, v, row.at[v].weight)];
        }
      }
    }

    method Degrees() returns (out: seq<(Label, nat)>)
      requires Valid()
      ensures |out| == |view.keys|
      ensures forall i :: 0 <= i < |out| ==>
                view.keys[i] in view.at && out[i] == (view.keys[i], Degree(view, view.keys[i]))
    {
      hide Shared;
      hide Spells;
      ReadView(adj, objects, view);
      out := [];
      for i := 0 to |adj.keys|
        invariant |out| == i
        invariant forall p :: 0 <= p < i ==> out[p] == (adj.keys[p], Degree(view, adj.keys[p]))
      {
        out := out + [(adj.keys[i], |adj.at[adj.keys[i]].keys|)];
      }
    }

    /** Appends each row's kept neighbours, in dict order, to the list of its rank. */
    method CollectRows(idx: map<Label, nat>, ghost labels: seq<Label>) returns (rows: array<seq<Entry>>)
      requires Valid() && IsIndex(idx, labels) && WfGraph(view)
      requires |labels| == |view.keys| && forall u :: u in labels <==> u in view.at
      ensures fresh(rows) && rows[..] == Collected(view, idx, labels, view.keys)
    {
      hide Shared;
      hide Spells;
      ReadView(adj, objects, view);
      rows := new seq<Entry>[|adj.keys|](i => []);
      assert rows[..] == Collected(view, idx, labels, view.keys[..0]);
      for i := 0 to |adj.keys|
        invariant rows[..] == Collected(view, idx, labels, view.keys[..i])
      {
        var u := adj.keys[i];
        CollectedStep(view, idx, labels, i);
        var kept := KeptRow(idx, u);
        rows[idx[u]] := kept;
      }
      assert view.keys[..|adj.keys|] == view.keys;
    }

    /** The inner loop of `CollectRows`: what row u keeps. */
    method KeptRow(idx: map<Label, nat>, u: Label) returns (kept: seq<Entry>)
      requires Valid() && WfGraph(view) && u in adj.at && u in view.at
      ensures kept == RawRow(view, idx, u, |view.at[u].keys|)
    {
      hide Shared;
      hide Spells;
      ReadRow(u);
      var row := adj.at[u];
      hide RawEntry;
      hide WfGraph;
      kept := [];
      for j := 0 to |row.keys|
        invariant kept == RawRow(view, idx, u, j)
      {
        var v := row.keys[j];
        var more := KeptEntry(idx, u, v, row.at[v].weight);
        kept := kept + more;
      }
    }

    /** Row u of the dict of dicts is row u of the view. */
    lemma {:induction false} ReadRow(u: Label)
      requires Valid() && u in adj.at && u in view.at
      ensures Wf(adj.at[u]) && adj.at[u].keys == view.at[u].keys
      ensures forall v :: v in adj.at[u].at ==>
                Joined(view, u, v) && EdgeAt(view, u, v).weight == adj.at[u].at[v].weight
    {
      ReadView(adj, objects, view);
      hide Shared;
      hide Spells;
      forall v | v in adj.at[u].at
        ensures Joined(view, u, v) && EdgeAt(view, u, v).weight == adj.at[u].at[v].weight
      {
        assert Joined(adj, u, v);
      }
    }

    /** The export: `indptr`, `indices`, `data`. */
    method ToCsrArrays() returns (indptr: array<nat>, indices: array<nat>, data: array<real>)
      requires Valid()
      ensures fresh(indptr) && fresh(indices) && fresh(data)
      ensures IsCsr(Triple(indptr[..], indices[..], data[..]), view)
    {
      ReadView(adj, objects, view);
      hide Shared;
      hide Spells;
      hide WfGraph;
      hide Undirected;
      SortedLabelsFacts(view);
      hide IsIndex;
      hide Collected;
      hide Encodes;
      var labels := StableSort(adj.keys, LabelLess);
      var n := |labels|;
      var idx := IndexMap(labels);
      var rows := CollectRows(idx, labels);
      SortRows(rows);
      indptr := FillIndptr(rows);
      assert rows[..][..n] == rows[..];
      indices, data := FillEntries(rows, indptr[..][n]);
      CollectedEncodes(view, idx, labels);
    }

    /** A row's neighbours sorted by weight, heaviest first, and cut off. */
    method TopOf(u: Label, topK: int) returns (top: seq<Neighbour>)
      requires Valid() && u in adj.at && WfGraph(view)
      ensures u in view.at && top == Top(view, u, topK)
    {
      hide Shared;
      hide Spells;
      ReadView(adj, objects, view);
      var row := adj.at[u];
      var neighbours := [];
      for j := 0 to |row.keys|
        invariant neighbours == Neighbours(view, u, j)
      {
        var v := row.keys[j];
        assert Joined(adj, u, v) && EdgeAt(view, u, v).weight == row.at[v].weight;
        neighbours := neighbours + [Neighbour(v, row.at[v].weight)];
      }
      SortMembers(neighbours, HeavierFirst);
      top := StableSort(neighbours, HeavierFirst)[..SliceLength(|neighbours|, topK)];
    }

    /** One hop, in whatever order the frontier comes. */
    method Hop(frontier: set<Label>, topK: int, visited: set<Label>, collected: set<Label>)
      returns (next: set<Label>, visited': set<Label>, collected': set<Label>)
      requires Valid() && WfGraph(view)
      ensures next == Reach(view, frontier, topK) - visited
      ensures visited' == visited + next && collected' == collected + next
    {
      hide Shared;
      hide Spells;
      hide WfGraph;
      hide Undirected;
      hide Reach;
      hide Labels;
      ReadView(adj, objects, view);
      ReachNothing(view, topK);
      next, visited', collected' := {}, visited, collected;
      var pending := frontier;
      assert frontier - pending == {};
      while pending != {}
        invariant pending <= frontier
        invariant next == Reach(view, frontier - pending, topK) - visited
        invariant visited' == visited + next && collected' == collected + next
      {
        var node :| node in pending;
        ReachInsert(view, frontier - pending, node, topK);
        assert frontier - (pending - {node}) == frontier - pending + {node};
        pending := pending - {node};
        if node !in adj.at {
          continue;
        }
        var top := TopOf(node, topK);
        ghost var before := next;
        LabelsNone(top);
        for j := 0 to |top|
          invariant next == before + (Labels(top[..j]) - visited)
          invariant visited' == visited + next && collected' == collected + next
        {
          var n := top[j].node;
          LabelsStep(top, j);
          if n !in visited' {
            next, collected', visited' := next + {n}, collected' + {n}, visited' + {n};
          }
        }
        assert top[..|top|] == top;
      }
      assert frontier - pending == frontier;
    }

    /** Walks two hops from the seeds; the frontier is a set, walked in any order. */
    method TwoHopNeighborhood(seeds: seq<Label>, topK: int) returns (result: seq<Label>)
      requires Valid()
      ensures WfGraph(view)
      ensures Distinct(result) && Elements(result) == Neighbourhood(view, Elements(seeds), topK)
    {
      hide Shared;
      hide Spells;
      ReadView(adj, objects, view);
      hide WfGraph;
      hide Undirected;
      hide Reach;
      var visited := set s | s in seeds;
      var frontier := set s | s in seeds && s in adj.at;
      var collected: set<Label> := {};
      ghost var seedSet := Elements(seeds);
      ReachInGraph(view, seedSet, topK);
      assert visited == seedSet && frontier == seedSet * view.at.Keys;
      var hop := 0;
      while hop < 2
        invariant 0 <= hop <= 2
        invariant hop == 0 ==> frontier == seedSet * view.at.Keys && visited == seedSet && collected == {}
        invariant hop == 1 ==> frontier == FirstHop(view, seedSet, topK) == collected && visited == seedSet + frontier
        invariant hop == 2 ==> collected == Neighbourhood(view, seedSet, topK)
      {
        frontier, visited, collected := Hop(frontier, topK, visited, collected);
        hop := hop + 1;
        if frontier == {} {
          break;
        }
      }
      if hop == 1 {
        ReachNothing(view, topK);
      }
      result := ListOf(collected);
    }
  }

  /** A fresh backend fed a sequence of calls holds what the history amounts to. */
  method Replay(ops: seq<Op>) returns (b: Backend)
    ensures fresh(b) && b.Valid() && b.view == Run(ops)
  {
    hide Shared;
    hide Spells;
    hide Graphs.AddNode;
    hide Graphs.AddEdge;
    hide Graphs.RemoveNode;
    b := new Backend();
    assert ops[..0] == [];
    for i := 0 to |ops|
      invariant fresh(b) && b.Valid() && fresh(b.objects) && b.view == Run(ops[..i])
    {
      assert ops[..i + 1][..i] == ops[..i];
      match ops[i]
      case OpAddNode(n) => b.AddNode(n, NoCommunity, []);
      case OpAddEdge(u, v, e) => b.AddEdge(u, v, e.weight, e.edgeType);
      case OpRemoveNode(n) => b.RemoveNode(n);
    }
    assert ops[..|ops|] == ops;
  }

  /** Some listing of a set. */
  method ListOf(s: set<Label>) returns (r: seq<Label>)
    ensures Distinct(r) && Elements(r) == s
  {
    r := [];
    var rest := s;
    while rest != {}
      invariant rest <= s && Elements(r) == s - rest && Distinct(r)
    {
      var x :| x in rest;
      assert x !in Elements(r);
      assert Elements(r + [x]) == Elements(r) + {x};
      r, rest := r + [x], rest - {x};
    }
  }
}
