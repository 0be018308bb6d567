/** Reading a triple back into an edge list and building a graph from the list
    (bench/mosaicsigma_centrality_perf.py). */
module CsrRoundTrip {
  import opened Dicts
  import opened Graphs
  import opened Csr
  import opened AdjacencyBackend

  datatype WEdge = WEdge(u: nat, v: nat, w: real)

  /** No two list elements join the same ends, and each is listed smaller end first. */
  ghost predicate OncePerPair(edges: seq<WEdge>) {
    && (forall i :: 0 <= i < |edges| ==> edges[i].u < edges[i].v)
    && (forall i, j :: 0 <= i < j < |edges| ==> edges[i].u != edges[j].u || edges[i].v != edges[j].v)
  }

  ghost predicate InRange(edges: seq<WEdge>, n: nat) {
    forall i :: 0 <= i < |edges| ==> edges[i].u < n && edges[i].v < n
  }

  // ---- Decoding ----

  /** What row u contributes from its first k positions. */
  function DecodeRow(c: Triple, u: nat, k: nat): seq<WEdge>
    requires u + 1 < |c.indptr| && c.indptr[u] + k <= |c.indices| == |c.data|
  {
    if k == 0 then []
    else
      var p := c.indptr[u] + k - 1;
      DecodeRow(c, u, k - 1) + if u >= c.indices[p] then [] else [WEdge(u, c.indices[p], c.data[p])]
  }

  function Decoded(c: Triple, n: nat, i: nat): seq<WEdge>
    requires WellFormed(c, n) && i <= n
  {
    if i == 0 then []
    else
      assert c.indptr[i - 1] <= c.indptr[i] <= c.indptr[n];
      Decoded(c, n, i - 1) + DecodeRow(c, i - 1, c.indptr[i] - c.indptr[i - 1])
  }

  /** The two nested loops over `indptr` and `indices`. */
  method Decode(indptr: seq<nat>, indices: seq<nat>, data: seq<real>) returns (edges: seq<WEdge>)
    requires |indptr| > 0 && WellFormed(Triple(indptr, indices, data), |indptr| - 1)
    ensures edges == Decoded(Triple(indptr, indices, data), |indptr| - 1, |indptr| - 1)
  {
    ghost var c, n := Triple(indptr, indices, data), |indptr| - 1;
    edges := [];
    for u := 0 to |indptr| - 1
      invariant edges == Decoded(c, n, u)
    {
      assert c.indptr[u] <= c.indptr[u + 1] <= c.indptr[n];
      ghost var before := edges;
      for k := indptr[u] to indptr[u + 1]
        invariant edges == before + DecodeRow(c, u, k - indptr[u])
      {
        if u < indices[k] {
          edges := edges + [WEdge(u, indices[k], data[k])];
        }
      }
    }
  }

  lemma {:induction false} DecodeRowMembers(c: Triple, n: nat, u: nat, k: nat, e: WEdge)
    requires WellFormed(c, n) && u < n && k <= |RowOf(c, n, u)|
    ensures c.indptr[u] + k <= |c.indices|
    ensures e in DecodeRow(c, u, k) <==> e.u == u && u < e.v && Entry(e.v, e.w) in RowOf(c, n, u)[..k]
  {
    assert c.indptr[u + 1] <= c.indptr[n];
    if k > 0 {
      DecodeRowMembers(c, n, u, k - 1, e);
      var row := RowOf(c, n, u);
      assert row[..k] == row[..k - 1] + [row[k - 1]];
    }
  }

  lemma {:induction false} DecodedMembers(c: Triple, n: nat, i: nat, e: WEdge)
    requires WellFormed(c, n) && i <= n
    ensures e in Decoded(c, n, i) <==> e.u < i && e.u < e.v && Entry(e.v, e.w) in RowOf(c, n, e.u)
  {
    if i > 0 {
      DecodedMembers(c, n, i - 1, e);
      var row := RowOf(c, n, i - 1);
      DecodeRowMembers(c, n, i - 1, |row|, e);
      assert row[..|row|] == row;
    }
  }

  /** The decoder keeps the upper triangle. */
  lemma {:induction false} DecodeIsUpperTriangle(c: Triple, n: nat, e: WEdge)
    requires WellFormed(c, n)
    ensures e in Decoded(c, n, n) <==> e.u < e.v && HasEntry(c, e.u, e.v, e.w)
  {
    DecodedMembers(c, n, n, e);
  }

  lemma {:induction false} DecodeRowOnce(c: Triple, n: nat, u: nat, k: nat)
    requires WellFormed(c, n) && u < n && k <= |RowOf(c, n, u)| && IncreasingCols(RowOf(c, n, u))
    ensures c.indptr[u] + k <= |c.indices|
    ensures OncePerPair(DecodeRow(c, u, k))
  {
    assert c.indptr[u + 1] <= c.indptr[n];
    if k > 0 {
      DecodeRowOnce(c, n, u, k - 1);
      var row, es := RowOf(c, n, u), DecodeRow(c, u, k - 1);
      forall j | 0 <= j < |es|
        ensures es[j].v != row[k - 1].col
      {
        DecodedEarlier(c, n, u, k - 1, es[j]);
      }
    }
  }

  lemma {:induction false} DecodedEarlier(c: Triple, n: nat, u: nat, k: nat, e: WEdge)
    requires WellFormed(c, n) && u < n && k < |RowOf(c, n, u)| && IncreasingCols(RowOf(c, n, u))
    requires c.indptr[u] + k <= |c.indices| && e in DecodeRow(c, u, k)
    ensures e.v < RowOf(c, n, u)[k].col
  {
    DecodeRowMembers(c, n, u, k, e);
  }

  lemma {:induction false} DecodedOnce(c: Triple, n: nat, i: nat)
    requires WellFormed(c, n) && i <= n
    requires forall a :: 0 <= a < n ==> IncreasingCols(RowOf(c, n, a))
    ensures OncePerPair(Decoded(c, n, i))
  {
    if i > 0 {
      DecodedOnce(c, n, i - 1);
      var row := RowOf(c, n, i - 1);
      DecodeRowOnce(c, n, i - 1, |row|);
      var a, b := Decoded(c, n, i - 1), DecodeRow(c, i - 1, |row|);
      forall p, q | 0 <= p < |a| && 0 <= q < |b|
        ensures a[p].u != b[q].u
      {
        DecodedMembers(c, n, i - 1, a[p]);
        DecodeRowMembers(c, n, i - 1, |row|, b[q]);
        assert a[p] in a && b[q] in b;
      }
    }
  }

  // ---- Building ----

  function Nodes(n: nat): Graph {
    if n == 0 then Empty() else AddNode(Nodes(n - 1), n - 1)
  }

  /** The edges come by ascending first end, and of one first end by ascending second. */
  lemma {:induction false} DecodedOrder(c: Triple, n: nat, i: nat, p: nat, q: nat)
    requires WellFormed(c, n) && i <= n && p < q < |Decoded(c, n, i)|
    requires forall a :: 0 <= a < n ==> IncreasingCols(RowOf(c, n, a))
    ensures var e, f := Decoded(c, n, i)[p], Decoded(c, n, i)[q];
            e.u < f.u || (e.u == f.u && e.v < f.v)
  {
    assert c.indptr[i - 1] <= c.indptr[i] <= c.indptr[n];
    var before, k := Decoded(c, n, i - 1), c.indptr[i] - c.indptr[i - 1];
    var row := DecodeRow(c, i - 1, k);
    if q < |before| {
      DecodedOrder(c, n, i - 1, p, q);
    } else {
      DecodeRowMembers(c, n, i - 1, k, row[q - |before|]);
      assert row[q - |before|] in row;
      if p < |before| {
        DecodedMembers(c, n, i - 1, before[p]);
        assert before[p] in before;
      } else {
        DecodeRowMembers(c, n, i - 1, k, row[p - |before|]);
        assert row[p - |before|] in row;
        DecodedRowOrder(c, n, i - 1, k, p - |before|, q - |before|);
      }
    }
  }

  lemma {:induction false} DecodedRowOrder(c: Triple, n: nat, u: nat, k: nat, p: nat, q: nat)
    requires WellFormed(c, n) && u < n && k <= |RowOf(c, n, u)| && IncreasingCols(RowOf(c, n, u))
    requires c.indptr[u] + k <= |c.indices| && p < q < |DecodeRow(c, u, k)|
    ensures DecodeRow(c, u, k)[p].v < DecodeRow(c, u, k)[q].v
  {
    var before := DecodeRow(c, u, k - 1);
    if q < |before| {
      DecodedRowOrder(c, n, u, k - 1, p, q);
    } else {
      assert before[p] in before;
      DecodedEarlier(c, n, u, k - 1, before[p]);
    }
  }

  /** The graph on 0..n-1 that adding the listed edges in order leaves. */
  function Built(n: nat, edges: seq<WEdge>): Graph {
    if edges == [] then Nodes(n)
    else
      var g, e := Built(n, edges[..|edges| - 1]), edges[|edges| - 1];
      if e.u == e.v then g else AddEdge(g, e.u, e.v, Edge(Finite(e.w), "hebbian"))
  }

  method BuildMemoryGraphFromEdges(n: nat, edges: seq<WEdge>) returns (mg: Backend)
    requires InRange(edges, n)
    ensures fresh(mg) && mg.Valid() && mg.view == Built(n, edges)
  {
    hide Shared;
    hide Spells;
    hide Graphs.AddNode;
    hide Graphs.AddEdge;
    mg := new Backend();
    for i := 0 to n
      invariant fresh(mg) && mg.Valid() && fresh(mg.objects) && mg.view == Nodes(i)
    {
      mg.AddNode(i, NoCommunity, seq(384, k => 0.0));
    }
    assert edges[..0] == [];
    for i := 0 to |edges|
      invariant fresh(mg) && mg.Valid() && fresh(mg.objects) && mg.view == Built(n, edges[..i])
    {
      assert edges[..i + 1][..i] == edges[..i];
      if edges[i].u == edges[i].v {
        continue;
      }
      mg.AddEdge(edges[i].u, edges[i].v, Finite(edges[i].w), "hebbian");
    }
    assert edges[..|edges|] == edges;
  }

  lemma {:induction false} NodesFacts(n: nat)
    ensures WfGraph(Nodes(n)) && Undirected(Nodes(n))
    ensures forall x: Label :: x in Nodes(n).at <==> x < n
  {
    hide AddNode;
    if n == 0 {
      assert Nodes(0) == Empty();
    } else {
      hide WfGraph;
      hide Undirected;
      NodesFacts(n - 1);
      NodesStep(Nodes(n - 1), n - 1);
    }
  }

  lemma {:induction false} NodesUnjoined(n: nat, x: nat, y: nat)
    ensures !Joined(Nodes(n), x, y)
  {
    if n > 0 {
      NodesUnjoined(n - 1, x, y);
      AddNodeEntry(Nodes(n - 1), n - 1, x, y);
    }
  }

  lemma {:induction false} NodesStep(g: Graph, n: nat)
    requires WfGraph(g) && Undirected(g) && forall x: Label :: x in g.at <==> x < n
    ensures WfGraph(AddNode(g, n)) && Undirected(AddNode(g, n))
    ensures forall x: Label :: x in AddNode(g, n).at <==> x < n + 1
  {
    AddNodeWf(g, n);
    AddNodeEntries(g, n);
    AddNodeEntry(g, n, n, n);
    forall x: Label ensures x in AddNode(g, n).at <==> x in g.at || x == n {
      assert x in AddNode(g, n).at.Keys <==> x in g.at.Keys + {n};
    }
    hide AddNode;
    hide WfGraph;
  }

  lemma {:induction false} BuiltGraph(n: nat, edges: seq<WEdge>)
    requires InRange(edges, n)
    ensures WfGraph(Built(n, edges)) && Undirected(Built(n, edges))
    ensures forall x: Label :: x in Built(n, edges).at <==> x < n
  {
    if edges == [] {
      NodesFacts(n);
    } else {
      BuiltGraph(n, edges[..|edges| - 1]);
      BuiltStep(n, edges);
    }
  }

  lemma {:induction false} BuiltStep(n: nat, edges: seq<WEdge>)
    requires InRange(edges, n) && edges != []
    requires var g := Built(n, edges[..|edges| - 1]);
             WfGraph(g) && Undirected(g) && forall x: Label :: x in g.at <==> x < n
    ensures WfGraph(Built(n, edges)) && Undirected(Built(n, edges))
    ensures forall x: Label :: x in Built(n, edges).at <==> x < n
  {
    var g, e := Built(n, edges[..|edges| - 1]), edges[|edges| - 1];
    hide WfGraph;
    hide Undirected;
    if e.u != e.v {
      var x := Edge(Finite(e.w), "hebbian");
      AddEdgeWf(g, e.u, e.v, x);
      AddEdgeUndirected(g, e.u, e.v, x);
      AddEdgeNodes(g, e.u, e.v, x);
      hide AddEdge;
    }
  }

  /** The built graph joins exactly the listed pairs, in both directions. */
  lemma {:induction false} BuiltEntries(n: nat, edges: seq<WEdge>, x: nat, y: nat, w: real)
    requires OncePerPair(edges)
    ensures Joined(Built(n, edges), x, y) && EdgeAt(Built(n, edges), x, y).weight == Finite(w) <==>
            WEdge(x, y, w) in edges || WEdge(y, x, w) in edges
    ensures Joined(Built(n, edges), x, y) ==> EdgeAt(Built(n, edges), x, y).edgeType == "hebbian"
  {
    if edges == [] {
      NodesUnjoined(n, x, y);
    } else {
      var init, e := edges[..|edges| - 1], edges[|edges| - 1];
      assert edges == init + [e];
      BuiltEntries(n, init, x, y, w);
      AddEdgeEntry(Built(n, init), e.u, e.v, Edge(Finite(e.w), "hebbian"), x, y);
      assert WEdge(e.u, e.v, w) !in init;
      assert WEdge(e.v, e.u, w) !in init;
    }
  }

  // ---- Round trip ----

  function Upto(n: nat): (s: seq<nat>)
    ensures |s| == n && forall i :: 0 <= i < n ==> s[i] == i
  {
    seq(n, i => i)
  }

  lemma {:induction false} BuiltLabels(n: nat, edges: seq<WEdge>)
    requires InRange(edges, n)
    ensures SortedLabels(Built(n, edges)) == Upto(n)
  {
    BuiltGraph(n, edges);
    SortedLabelsFacts(Built(n, edges));
    forall x: nat ensures x in Upto(n) <==> x < n {
      if x < n {
        assert Upto(n)[x] == x;
      }
    }
    IncreasingUnique(SortedLabels(Built(n, edges)), Upto(n));
  }

  lemma {:induction false} ExportFacts(c: Triple, g: Graph, a: nat, b: nat, w: real)
    requires WfGraph(g) && Undirected(g) && IsCsr(c, g) && HasEntry(c, a, b, w)
    ensures a != b && a < |g.keys| && b < |g.keys| && w >= 0.0 && HasEntry(c, b, a, w)
  {
    CsrFaithful(c, g, a, b, w);
    CsrSymmetric(c, g, a, b, w);
    SortedLabelsFacts(g);
  }

  lemma {:induction false} DecodedFacts(c: Triple, g: Graph)
    requires WfGraph(g) && Undirected(g) && IsCsr(c, g)
    ensures WellFormed(c, |g.keys|)
    ensures OncePerPair(Decoded(c, |g.keys|, |g.keys|)) && InRange(Decoded(c, |g.keys|, |g.keys|), |g.keys|)
  {
    SortedLabelsFacts(g);
    var n := |g.keys|;
    forall a | 0 <= a < n
      ensures IncreasingCols(RowOf(c, n, a))
    {
      assert RowEncodes(RowOf(c, n, a), SortedLabels(g), a, g);
    }
    DecodedOnce(c, n, n);
    var edges := Decoded(c, n, n);
    forall i | 0 <= i < |edges|
      ensures edges[i].u < n && edges[i].v < n
    {
      DecodeIsUpperTriangle(c, n, edges[i]);
      assert edges[i] in edges;
      ExportFacts(c, g, edges[i].u, edges[i].v, edges[i].w);
    }
  }

  /** The rebuilt graph has, on 0..n-1, exactly the entries of the triple. */
  lemma {:induction false} RebuiltExports(c: Triple, g: Graph, x: nat, y: nat, w: real)
    requires WfGraph(g) && Undirected(g) && IsCsr(c, g)
    ensures WellFormed(c, |g.keys|)
    ensures Exported(Built(|g.keys|, Decoded(c, |g.keys|, |g.keys|)), x, y, w) <==> HasEntry(c, x, y, w)
  {
    DecodedFacts(c, g);
    var n := |g.keys|;
    var edges := Decoded(c, n, n);
    BuiltEntries(n, edges, x, y, w);
    DecodeIsUpperTriangle(c, n, WEdge(x, y, w));
    DecodeIsUpperTriangle(c, n, WEdge(y, x, w));
    if HasEntry(c, x, y, w) {
      ExportFacts(c, g, x, y, w);
    }
    if HasEntry(c, y, x, w) {
      ExportFacts(c, g, y, x, w);
    }
  }

  /** Decoding the export of any graph on n nodes, rebuilding on 0..n-1 and
      exporting again gives the identical triple. */
  lemma {:induction false} RoundTrip(g: Graph, c: Triple, d: Triple)
    requires WfGraph(g) && Undirected(g) && IsCsr(c, g)
    requires WellFormed(c, |g.keys|) && IsCsr(d, Built(|g.keys|, Decoded(c, |g.keys|, |g.keys|)))
    ensures d == c
  {
    var n := |g.keys|;
    var edges := Decoded(c, n, n);
    var h := Built(n, edges);
    SortedLabelsFacts(g);
    DecodedFacts(c, g);
    BuiltLabels(n, edges);
    BuiltGraph(n, edges);
    forall i | 0 <= i < n
      ensures RowEncodes(RowOf(c, n, i), Upto(n), i, h)
    {
      RebuiltRow(c, g, i);
    }
    assert Encodes(c, Upto(n), h);
    CsrCanonical(c, h, d, h);
  }

  lemma {:induction false} RebuiltRow(c: Triple, g: Graph, i: nat)
    requires WfGraph(g) && Undirected(g) && IsCsr(c, g) && i < |g.keys|
    ensures WellFormed(c, |g.keys|)
    ensures RowEncodes(RowOf(c, |g.keys|, i), Upto(|g.keys|), i, Built(|g.keys|, Decoded(c, |g.keys|, |g.keys|)))
  {
    SortedLabelsFacts(g);
    var n := |g.keys|;
    var row := RowOf(c, n, i);
    var h := Built(n, Decoded(c, n, n));
    assert RowEncodes(row, SortedLabels(g), i, g);
    forall b: nat, w: real
      ensures Entry(b, w) in row <==> Exported(h, i, b, w)
      ensures Entry(b, w) in row ==> b < n
    {
      RebuiltExports(c, g, i, b, w);
      assert HasEntry(c, i, b, w) <==> Entry(b, w) in row;
    }
    forall e | e in row
      ensures e.col < n && Exported(h, Upto(n)[i], Upto(n)[e.col], e.weight)
    {
      assert e == Entry(e.col, e.weight);
    }
  }
}
