/** Enumerating edges and counting them three ways: by emission, by degree and
    by stored matrix entry. */
module EdgeCounts {
  import opened Dicts
  import opened Graphs
  import opened Csr

  datatype Emitted = Emitted(u: Label, v: Label, weight: Weight)

  // ---- What the two iterators yield ----

  /** What the row of u yields for its first k neighbours: each edge at its smaller end. */
  function EmitRow(g: Graph, u: Label, k: nat): seq<Emitted>
    requires u in g.at && Wf(g.at[u]) && k <= |g.at[u].keys|
  {
    if k == 0 then []
    else
      var v := g.at[u].keys[k - 1];
      EmitRow(g, u, k - 1) + (if u <= v then [Emitted(u, v, EdgeAt(g, u, v).weight)] else [])
  }

  /** What the first i rows yield. */
  function Emit(g: Graph, i: nat): seq<Emitted>
    requires WfGraph(g) && i <= |g.keys|
  {
    if i == 0 then []
    else Emit(g, i - 1) + EmitRow(g, g.keys[i - 1], |g.at[g.keys[i - 1]].keys|)
  }

  function Degree(g: Graph, u: Label): nat
    requires u in g.at
  {
    |g.at[u].keys|
  }

  function SumDegrees(g: Graph, i: nat): nat
    requires WfGraph(g) && i <= |g.keys|
  {
    if i == 0 then 0 else SumDegrees(g, i - 1) + Degree(g, g.keys[i - 1])
  }

  // ---- Every edge is emitted exactly once ----

  lemma {:induction false} EmitRowMembers(g: Graph, u: Label, k: nat, e: Emitted)
    requires u in g.at && Wf(g.at[u]) && k <= |g.at[u].keys|
    ensures e in EmitRow(g, u, k) <==>
            && e.u == u && u <= e.v && e.v in g.at[u].keys[..k]
            && Joined(g, u, e.v) && e.weight == EdgeAt(g, u, e.v).weight
  {
    if k > 0 {
      EmitRowMembers(g, u, k - 1, e);
      assert g.at[u].keys[..k] == g.at[u].keys[..k - 1] + [g.at[u].keys[k - 1]];
    }
  }

  lemma {:induction false} EmitRowDistinct(g: Graph, u: Label, k: nat)
    requires u in g.at && Wf(g.at[u]) && k <= |g.at[u].keys|
    ensures Distinct(EmitRow(g, u, k))
  {
    if k > 0 {
      EmitRowDistinct(g, u, k - 1);
      var v := g.at[u].keys[k - 1];
      var e := Emitted(u, v, EdgeAt(g, u, v).weight);
      EmitRowMembers(g, u, k - 1, e);
      assert v !in g.at[u].keys[..k - 1];
    }
  }

  lemma {:induction false} EmitMembers(g: Graph, i: nat, e: Emitted)
    requires WfGraph(g) && i <= |g.keys|
    ensures e in Emit(g, i) <==>
            e.u in g.keys[..i] && e.u <= e.v && Joined(g, e.u, e.v) && e.weight == EdgeAt(g, e.u, e.v).weight
  {
    if i > 0 {
      var u := g.keys[i - 1];
      var row := g.at[u].keys;
      EmitMembers(g, i - 1, e);
      EmitRowMembers(g, u, |row|, e);
      assert row[..|row|] == row;
      assert g.keys[..i] == g.keys[..i - 1] + [u];
    }
  }

  lemma {:induction false} EmitDistinct(g: Graph, i: nat)
    requires WfGraph(g) && i <= |g.keys|
    ensures Distinct(Emit(g, i))
  {
    if i > 0 {
      var u := g.keys[i - 1];
      var a, b := Emit(g, i - 1), EmitRow(g, u, |g.at[u].keys|);
      EmitDistinct(g, i - 1);
      EmitRowDistinct(g, u, |g.at[u].keys|);
      forall p, q | 0 <= p < |a| && 0 <= q < |b|
        ensures a[p] != b[q]
      {
        EmitMembers(g, i - 1, a[p]);
        EmitRowMembers(g, u, |g.at[u].keys|, b[q]);
        assert a[p] in a && b[q] in b;
        assert u !in g.keys[..i - 1];
      }
    }
  }

  /** Once each, and nothing else: the emission lists the edges {u, v}, self-loops
      included, by their smaller end. */
  lemma {:induction false} EmitsEachEdgeOnce(g: Graph)
    requires WfGraph(g)
    ensures Distinct(Emit(g, |g.keys|))
    ensures forall e :: e in Emit(g, |g.keys|) <==>
              e.u <= e.v && Joined(g, e.u, e.v) && e.weight == EdgeAt(g, e.u, e.v).weight
  {
    EmitDistinct(g, |g.keys|);
    forall e
      ensures e in Emit(g, |g.keys|) <==>
              e.u <= e.v && Joined(g, e.u, e.v) && e.weight == EdgeAt(g, e.u, e.v).weight
    {
      EmitMembers(g, |g.keys|, e);
      assert g.keys[..|g.keys|] == g.keys;
    }
  }

  // ---- Directed entries, by which everything is counted ----

  type Arc = (Label, Label)

  ghost function Arcs(g: Graph): set<Arc> {
    set u, v | u in g.at && v in g.at[u].at :: (u, v)
  }

  ghost function Up(s: set<Arc>): set<Arc> {
    set a | a in s && a.0 < a.1
  }

  ghost function Down(s: set<Arc>): set<Arc> {
    set a | a in s && a.0 > a.1
  }

  ghost function Loops(s: set<Arc>): set<Arc> {
    set a | a in s && a.0 == a.1
  }

  ghost function Swap(s: set<Arc>): set<Arc> {
    set a | a in s :: (a.1, a.0)
  }

  /** e is listed before f: in an earlier row, or earlier in the same. */
  ghost predicate Before(g: Graph, e: Emitted, f: Emitted) {
    exists a, b ::
      && 0 <= a <= b < |g.keys| && g.keys[a] == e.u && g.keys[b] == f.u
      && (a == b ==> e.u in g.at && RowBefore(g.at[e.u].keys, e.v, f.v))
  }

  ghost predicate RowBefore(row: seq<Label>, v: Label, w: Label) {
    exists x, y :: 0 <= x < y < |row| && row[x] == v && row[y] == w
  }

  lemma {:induction false} EmitRowOrder(g: Graph, u: Label, k: nat, p: nat, q: nat)
    requires u in g.at && Wf(g.at[u]) && k <= |g.at[u].keys| && p < q < |EmitRow(g, u, k)|
    ensures RowBefore(g.at[u].keys, EmitRow(g, u, k)[p].v, EmitRow(g, u, k)[q].v)
  {
    var before, row := EmitRow(g, u, k - 1), g.at[u].keys;
    if q < |before| {
      EmitRowOrder(g, u, k - 1, p, q);
    } else {
      EmitRowMembers(g, u, k - 1, before[p]);
      assert before[p] in before;
      var x :| 0 <= x < k - 1 && row[..k - 1][x] == before[p].v;
      assert row[x] == before[p].v && row[k - 1] == EmitRow(g, u, k)[q].v;
    }
  }

  /** Edges are emitted row by row, and within a row neighbour by neighbour. */
  lemma {:induction false} EmitOrder(g: Graph, i: nat, p: nat, q: nat)
    requires WfGraph(g) && i <= |g.keys| && p < q < |Emit(g, i)|
    ensures Before(g, Emit(g, i)[p], Emit(g, i)[q])
  {
    var u := g.keys[i - 1];
    var before, row := Emit(g, i - 1), EmitRow(g, u, |g.at[u].keys|);
    if q < |before| {
      EmitOrder(g, i - 1, p, q);
    } else {
      var f := row[q - |before|];
      EmitRowMembers(g, u, |g.at[u].keys|, f);
      assert f in row;
      if p < |before| {
        EmitMembers(g, i - 1, before[p]);
        assert before[p] in before;
        var a :| 0 <= a < i - 1 && g.keys[..i - 1][a] == before[p].u;
        assert g.keys[a] == before[p].u && g.keys[i - 1] == f.u;
      } else {
        var e := row[p - |before|];
        EmitRowMembers(g, u, |g.at[u].keys|, e);
        assert e in row;
        EmitRowOrder(g, u, |g.at[u].keys|, p - |before|, q - |before|);
      }
    }
  }

  lemma {:induction false} SwapCard(s: set<Arc>)
    ensures |Swap(s)| == |s|
  {
    if s != {} {
      var a :| a in s;
      SwapCard(s - {a});
      assert Swap(s) == Swap(s - {a}) + {(a.1, a.0)};
      assert (a.1, a.0) !in Swap(s - {a});
    }
  }

  /** A symmetric set of arcs has two arcs for each ascending one, plus the loops. */
  lemma {:induction false} SymmetricCount(s: set<Arc>)
    requires forall a :: a in s ==> (a.1, a.0) in s
    ensures |s| == 2 * |Up(s)| + |Loops(s)|
  {
    assert Down(s) == Swap(Up(s)) by {
      forall a | a in Down(s) ensures a in Swap(Up(s)) {
        assert (a.1, a.0) in Up(s);
        assert a == ((a.1, a.0).1, (a.1, a.0).0);
      }
    }
    SwapCard(Up(s));
    assert s == Up(s) + Loops(s) + Down(s);
    assert Up(s) !! Loops(s) && (Up(s) + Loops(s)) !! Down(s);
  }

  lemma {:induction false} ArcsSymmetric(g: Graph, a: Arc)
    requires Undirected(g) && a in Arcs(g)
    ensures (a.1, a.0) in Arcs(g)
  {
    assert Joined(g, a.0, a.1);
    assert Joined(g, a.1, a.0);
  }

  /** The arcs that leave the first i rows. */
  ghost function ArcsFrom(g: Graph, i: nat): set<Arc>
    requires i <= |g.keys|
  {
    set a | a in Arcs(g) && a.0 in g.keys[..i]
  }

  ghost function Leaving(u: Label, s: set<Label>): set<Arc> {
    set v | v in s :: (u, v)
  }

  lemma {:induction false} LeavingCard(u: Label, s: set<Label>)
    ensures |Leaving(u, s)| == |s|
  {
    if s != {} {
      var v :| v in s;
      LeavingCard(u, s - {v});
      assert Leaving(u, s) == Leaving(u, s - {v}) + {(u, v)};
    }
  }

  lemma {:induction false} ArcsFromStep(g: Graph, i: nat, u: Label)
    requires WfGraph(g) && 0 < i <= |g.keys| && u == g.keys[i - 1]
    ensures u in g.at
    ensures ArcsFrom(g, i) == ArcsFrom(g, i - 1) + Leaving(u, Elements(g.at[u].keys))
    ensures ArcsFrom(g, i - 1) !! Leaving(u, Elements(g.at[u].keys))
  {
    assert g.keys[..i] == g.keys[..i - 1] + [u];
    assert u !in g.keys[..i - 1];
    forall a ensures a in ArcsFrom(g, i) <==> a in ArcsFrom(g, i - 1) || a in Leaving(u, Elements(g.at[u].keys)) {
      assert a in Leaving(u, Elements(g.at[u].keys)) <==> a.0 == u && a.1 in g.at[u].keys;
    }
  }

  lemma {:induction false} ArcsFromStepCard(g: Graph, i: nat, u: Label)
    requires WfGraph(g) && 0 < i <= |g.keys| && u == g.keys[i - 1]
    ensures u in g.at
    ensures |ArcsFrom(g, i)| == |ArcsFrom(g, i - 1)| + Degree(g, u)
  {
    ArcsFromStep(g, i, u);
    LeavingRow(g, u);
  }

  lemma {:induction false} DegreesCountArcs(g: Graph, i: nat)
    requires WfGraph(g) && i <= |g.keys|
    ensures SumDegrees(g, i) == |ArcsFrom(g, i)|
  {
    if i == 0 {
      assert ArcsFrom(g, 0) == {};
    } else {
      DegreesCountArcs(g, i - 1);
      ArcsFromStepCard(g, i, g.keys[i - 1]);
    }
  }

  lemma {:induction false} LeavingRow(g: Graph, u: Label)
    requires WfGraph(g) && u in g.at
    ensures |Leaving(u, Elements(g.at[u].keys))| == Degree(g, u)
  {
    DistinctCard(g.at[u].keys);
    LeavingCard(u, Elements(g.at[u].keys));
  }

  ghost function ArcOf(e: Emitted): Arc {
    (e.u, e.v)
  }

  ghost function ArcsOf(es: set<Emitted>): set<Arc> {
    set e | e in es :: ArcOf(e)
  }

  /** Distinct emissions have distinct ends. */
  lemma {:induction false} ArcsOfCard(es: set<Emitted>)
    requires forall e, f :: e in es && f in es && ArcOf(e) == ArcOf(f) ==> e == f
    ensures |ArcsOf(es)| == |es|
  {
    if es != {} {
      var e :| e in es;
      ArcsOfCard(es - {e});
      assert ArcsOf(es) == ArcsOf(es - {e}) + {ArcOf(e)};
    }
  }

  /** The self-loops among the emissions. */
  ghost function EmittedLoops(g: Graph): set<Emitted>
    requires WfGraph(g)
  {
    set e | e in Emit(g, |g.keys|) && e.u == e.v
  }

  /** The emissions that the matrix keeps: no self-loop, finite and non-negative weight. */
  ghost function EmittedKept(g: Graph): set<Emitted>
    requires WfGraph(g)
  {
    set e | e in Emit(g, |g.keys|) && e.u != e.v && e.weight.Finite? && e.weight.value >= 0.0
  }

  /** Each ascending arc or loop of the graph is emitted, and nothing else is. */
  lemma {:induction false} EmittedArc(g: Graph, a: Arc)
    requires WfGraph(g)
    ensures a in ArcsOf(Elements(Emit(g, |g.keys|))) <==> a.0 <= a.1 && Joined(g, a.0, a.1)
    ensures a in ArcsOf(EmittedLoops(g)) <==> a.0 == a.1 && Joined(g, a.0, a.1)
    ensures a in ArcsOf(EmittedKept(g)) <==> a.0 <= a.1 && Stored(g, a)
  {
    EmitsEachEdgeOnce(g);
    hide Emit;
    hide WfGraph;
    if a.0 <= a.1 && Joined(g, a.0, a.1) {
      var e := Emitted(a.0, a.1, EdgeAt(g, a.0, a.1).weight);
      assert e in Emit(g, |g.keys|) && ArcOf(e) == a;
    }
  }

  lemma {:induction false} EmissionArcs(g: Graph)
    requires WfGraph(g)
    ensures ArcsOf(Elements(Emit(g, |g.keys|))) == Up(Arcs(g)) + Loops(Arcs(g))
    ensures ArcsOf(EmittedLoops(g)) == Loops(Arcs(g))
    ensures ArcsOf(EmittedKept(g)) == Up(StoredArcs(g))
  {
    hide Emit;
    hide WfGraph;
    hide ArcsOf;
    forall a: Arc
      ensures a in ArcsOf(Elements(Emit(g, |g.keys|))) <==> a.0 <= a.1 && Joined(g, a.0, a.1)
      ensures a in ArcsOf(EmittedLoops(g)) <==> a.0 == a.1 && Joined(g, a.0, a.1)
      ensures a in ArcsOf(EmittedKept(g)) <==> a.0 <= a.1 && Stored(g, a)
    {
      EmittedArc(g, a);
    }
  }

  /** Handshaking: the degrees add up to twice the edges emitted, less one for each self-loop. */
  lemma {:induction false} Handshake(g: Graph)
    requires WfGraph(g) && Undirected(g)
    ensures SumDegrees(g, |g.keys|) == 2 * |Emit(g, |g.keys|)| - |EmittedLoops(g)|
  {
    var out := Emit(g, |g.keys|);
    EmitsEachEdgeOnce(g);
    EmissionArcs(g);
    ArcsSymmetricCount(g);
    DistinctCard(out);
    hide Emit;
    hide WfGraph;
    hide Undirected;
    ArcsOfCard(Elements(out));
    ArcsOfCard(EmittedLoops(g));
    assert Up(Arcs(g)) !! Loops(Arcs(g));
  }

  lemma {:induction false} ArcsSymmetricCount(g: Graph)
    requires WfGraph(g) && Undirected(g)
    ensures SumDegrees(g, |g.keys|) == 2 * |Up(Arcs(g))| + |Loops(Arcs(g))|
  {
    DegreesCountArcs(g, |g.keys|);
    assert g.keys[..|g.keys|] == g.keys;
    assert ArcsFrom(g, |g.keys|) == Arcs(g);
    forall a | a in Arcs(g) ensures (a.1, a.0) in Arcs(g) {
      ArcsSymmetric(g, a);
    }
    SymmetricCount(Arcs(g));
  }

  // ---- Stored entries ----

  /** The arcs that the matrix stores. */
  ghost function StoredArcs(g: Graph): set<Arc> {
    set a | a in Arcs(g) && Stored(g, a)
  }

  ghost predicate Stored(g: Graph, a: Arc) {
    && a.0 != a.1
    && Joined(g, a.0, a.1)
    && EdgeAt(g, a.0, a.1).weight.Finite?
    && EdgeAt(g, a.0, a.1).weight.value >= 0.0
  }

  /** The stored arcs that leave the first i labels. */
  ghost function StoredFrom(g: Graph, labels: seq<Label>, i: nat): set<Arc>
    requires i <= |labels|
  {
    set a | a in StoredArcs(g) && a.0 in labels[..i]
  }

  /** The stored arcs that leave u. */
  ghost function ArcsOut(g: Graph, u: Label): set<Arc> {
    set a | a in StoredArcs(g) && a.0 == u
  }

  ghost function ColumnLabels(row: seq<Entry>, labels: seq<Label>): seq<Label>
    requires forall e :: e in row ==> e.col < |labels|
  {
    seq(|row|, k requires 0 <= k < |row| => assert row[k] in row; labels[row[k].col])
  }

  /** Row i stores the arcs that leave label i. */
  lemma {:induction false} RowStores(row: seq<Entry>, labels: seq<Label>, i: nat, g: Graph)
    requires WfGraph(g) && Undirected(g) && Increasing(labels) && i < |labels|
    requires forall x :: x in labels <==> x in g.at
    requires RowEncodes(row, labels, i, g)
    ensures Leaving(labels[i], Elements(ColumnLabels(row, labels))) == ArcsOut(g, labels[i])
    ensures |Elements(ColumnLabels(row, labels))| == |row|
  {
    var u, cols := labels[i], ColumnLabels(row, labels);
    DistinctCard(cols);
    forall v ensures v in cols <==> Stored(g, (u, v)) {
      ColumnStored(row, labels, i, g, v);
    }
    hide RowEncodes;
    hide WfGraph;
    hide Undirected;
    hide ColumnLabels;
    forall a ensures a in Leaving(u, Elements(cols)) <==> a in StoredArcs(g) && a.0 == u {
      assert a in Leaving(u, Elements(cols)) <==> a.0 == u && a.1 in cols;
      assert Stored(g, a) ==> Joined(g, a.0, a.1);
    }
  }

  lemma {:induction false} ColumnStored(row: seq<Entry>, labels: seq<Label>, i: nat, g: Graph, v: Label)
    requires WfGraph(g) && Undirected(g) && i < |labels|
    requires forall x :: x in labels <==> x in g.at
    requires RowEncodes(row, labels, i, g)
    ensures v in ColumnLabels(row, labels) <==> Stored(g, (labels[i], v))
  {
    var u, cols := labels[i], ColumnLabels(row, labels);
    if Stored(g, (u, v)) {
      assert Joined(g, v, u) && v in labels;
      var b :| 0 <= b < |labels| && labels[b] == v;
      var w := EdgeAt(g, u, v).weight.value;
      assert Exported(g, labels[i], labels[b], w);
      assert Entry(b, w) in row;
      var k :| 0 <= k < |row| && row[k] == Entry(b, w);
      assert cols[k] == v;
    }
    if v in cols {
      var k :| 0 <= k < |cols| && cols[k] == v;
      assert row[k] in row && Exported(g, labels[i], labels[row[k].col], row[k].weight);
    }
  }

  lemma {:induction false} StoredFromStep(g: Graph, labels: seq<Label>, i: nat)
    requires Increasing(labels) && 0 < i <= |labels|
    ensures StoredFrom(g, labels, i) == StoredFrom(g, labels, i - 1) + ArcsOut(g, labels[i - 1])
    ensures StoredFrom(g, labels, i - 1) !! ArcsOut(g, labels[i - 1])
  {
    assert labels[..i] == labels[..i - 1] + [labels[i - 1]];
    assert labels[i - 1] !in labels[..i - 1];
  }

  lemma {:induction false} StoredFromCard(g: Graph, labels: seq<Label>, i: nat)
    requires Increasing(labels) && 0 < i <= |labels|
    ensures |StoredFrom(g, labels, i)| == |StoredFrom(g, labels, i - 1)| + |ArcsOut(g, labels[i - 1])|
  {
    StoredFromStep(g, labels, i);
  }

  lemma {:induction false} IndptrStep(c: Triple, g: Graph, labels: seq<Label>, i: nat)
    requires WfGraph(g) && Undirected(g) && Increasing(labels) && Encodes(c, labels, g)
    requires forall x :: x in labels <==> x in g.at
    requires i < |labels|
    ensures c.indptr[i + 1] - c.indptr[i] == |ArcsOut(g, labels[i])|
  {
    var row := RowOf(c, |labels|, i);
    assert RowEncodes(row, labels, i, g);
    RowStores(row, labels, i, g);
    LeavingCard(labels[i], Elements(ColumnLabels(row, labels)));
  }

  lemma {:induction false} IndptrCounts(c: Triple, g: Graph, labels: seq<Label>, i: nat)
    requires WfGraph(g) && Undirected(g) && Increasing(labels) && Encodes(c, labels, g)
    requires forall x :: x in labels <==> x in g.at
    requires i <= |labels|
    ensures c.indptr[i] == |StoredFrom(g, labels, i)|
  {
    if i == 0 {
      assert StoredFrom(g, labels, 0) == {};
    } else {
      IndptrCounts(c, g, labels, i - 1);
      IndptrStep(c, g, labels, i - 1);
      StoredFromCard(g, labels, i);
    }
  }

  /** The matrix stores exactly two entries for each edge emitted with a finite
      non-negative weight and two different ends. */
  lemma {:induction false} CsrEntryCount(c: Triple, g: Graph)
    requires WfGraph(g) && Undirected(g) && IsCsr(c, g)
    ensures |c.indices| == |c.data| == 2 * |EmittedKept(g)|
  {
    StoredCount(c, g);
    forall a | a in StoredArcs(g) ensures (a.1, a.0) in StoredArcs(g) {
    }
    SymmetricCount(StoredArcs(g));
    assert Loops(StoredArcs(g)) == {};
    EmitsEachEdgeOnce(g);
    EmissionArcs(g);
    hide Emit;
    hide WfGraph;
    hide Undirected;
    hide IsCsr;
    ArcsOfCard(EmittedKept(g));
  }

  lemma {:induction false} StoredCount(c: Triple, g: Graph)
    requires WfGraph(g) && Undirected(g) && IsCsr(c, g)
    ensures |c.indices| == |c.data| == |StoredArcs(g)|
  {
    var labels := SortedLabels(g);
    var n := |labels|;
    SortedLabelsFacts(g);
    IndptrCounts(c, g, labels, n);
    assert labels[..n] == labels;
    forall a | a in StoredArcs(g) ensures a.0 in labels {
      assert a.0 in g.at;
    }
    assert StoredFrom(g, labels, n) == StoredArcs(g);
  }
}
