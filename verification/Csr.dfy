/** Compressed sparse rows: what the exported triple must be, and why there is
    only one such triple for a graph. */
module Csr {
  import opened Dicts
  import opened Sorting
  import opened Graphs
  import opened Histories

  datatype Entry = Entry(col: nat, weight: real)

  datatype Triple = Triple(indptr: seq<nat>, indices: seq<nat>, data: seq<real>)

  // ---- What the triple means ----

  predicate LabelLess(x: Label, y: Label) {
    x < y
  }

  /** sorted(self._adj) */
  function SortedLabels(g: Graph): seq<Label> {
    StableSort(g.keys, LabelLess)
  }

  /** The edge {u, v} is one that the export keeps, with weight w. */
  predicate Exported(g: Graph, u: Label, v: Label, w: real) {
    u != v && Joined(g, u, v) && EdgeAt(g, u, v).weight == Finite(w) && w >= 0.0
  }

  ghost predicate Increasing(s: seq<nat>) {
    forall i, j :: 0 <= i < j < |s| ==> s[i] < s[j]
  }

  ghost predicate IncreasingCols(row: seq<Entry>) {
    forall i, j :: 0 <= i < j < |row| ==> row[i].col < row[j].col
  }

  /** indptr starts at 0, never decreases and ends at the length of both other arrays. */
  ghost predicate WellFormed(c: Triple, n: nat) {
    && |c.indptr| == n + 1
    && c.indptr[0] == 0
    && (forall i, j :: 0 <= i <= j <= n ==> c.indptr[i] <= c.indptr[j])
    && c.indptr[n] == |c.indices| == |c.data|
  }

  ghost function RowOf(c: Triple, n: nat, i: nat): (r: seq<Entry>)
    requires WellFormed(c, n) && i < n
    ensures |r| == c.indptr[i + 1] - c.indptr[i]
  {
    assert c.indptr[i] <= c.indptr[i + 1] <= c.indptr[n];
    seq(c.indptr[i + 1] - c.indptr[i],
        k requires 0 <= k < c.indptr[i + 1] - c.indptr[i] =>
          Entry(c.indices[c.indptr[i] + k], c.data[c.indptr[i] + k]))
  }

  /** `row` lists, by increasing column, exactly the exported edges of the i-th label. */
  ghost predicate RowEncodes(row: seq<Entry>, labels: seq<Label>, i: nat, g: Graph)
    requires i < |labels|
  {
    && IncreasingCols(row)
    && (forall e :: e in row ==> e.col < |labels| && Exported(g, labels[i], labels[e.col], e.weight))
    && (forall b, w :: 0 <= b < |labels| && Exported(g, labels[i], labels[b], w) ==> Entry(b, w) in row)
  }

  ghost predicate Encodes(c: Triple, labels: seq<Label>, g: Graph) {
    && WellFormed(c, |labels|)
    && (forall i :: 0 <= i < |labels| ==> RowEncodes(RowOf(c, |labels|, i), labels, i, g))
  }

  /** `c` is the export of `g`. */
  ghost predicate IsCsr(c: Triple, g: Graph) {
    Encodes(c, SortedLabels(g), g)
  }

  // ---- Sorted labels ----

  lemma {:induction false} BothEmpty<T(!new)>(s: seq<T>, t: seq<T>)
    requires forall x :: x in s <==> x in t
    ensures s == [] <==> t == []
  {
    if s != [] {
      assert s[0] in t;
    }
    if t != [] {
      assert t[0] in s;
    }
  }

  lemma {:induction false} IncreasingUnique(s: seq<nat>, t: seq<nat>)
    requires Increasing(s) && Increasing(t)
    requires forall x :: x in s <==> x in t
    ensures s == t
  {
    BothEmpty(s, t);
    if s != [] {
      assert s[|s| - 1] in t;
      var a, b := s[|s| - 1], t[|t| - 1];
      assert b in s;
      assert a == b;
      var s', t' := s[..|s| - 1], t[..|t| - 1];
      assert s == s' + [a] && t == t' + [b];
      assert a !in s' && b !in t';
      forall x ensures x in s' <==> x in t' {
        assert x in s <==> x in s' || x == a;
        assert x in t <==> x in t' || x == b;
      }
      IncreasingUnique(s', t');
    }
  }

  lemma {:induction false} SortedDistinct<T(!new)>(s: seq<T>, lt: (T, T) -> bool)
    requires Distinct(s)
    ensures Distinct(StableSort(s, lt))
  {
    SortMembers(s, lt);
    DistinctCard(s);
    var t := StableSort(s, lt);
    assert Elements(t) == Elements(s);
    CardDistinct(t);
  }

  lemma {:induction false} SortedLabelsFacts(g: Graph)
    requires WfGraph(g)
    ensures |SortedLabels(g)| == |g.keys|
    ensures Increasing(SortedLabels(g))
    ensures forall x :: x in SortedLabels(g) <==> x in g.at
  {
    SortMembers(g.keys, LabelLess);
    SortSorts(g.keys, LabelLess);
    SortedDistinct(g.keys, LabelLess);
  }

  // ---- There is only one such triple ----

  lemma {:induction false} RowsUnique(r: seq<Entry>, s: seq<Entry>)
    requires IncreasingCols(r) && IncreasingCols(s)
    requires forall e :: e in r <==> e in s
    ensures r == s
  {
    BothEmpty(r, s);
    if r != [] {
      assert r[|r| - 1] in s;
      var a, b := r[|r| - 1], s[|s| - 1];
      assert b in r;
      assert a == b;
      var r', s' := r[..|r| - 1], s[..|s| - 1];
      assert r == r' + [a] && s == s' + [b];
      assert a !in r' && b !in s';
      forall e ensures e in r' <==> e in s' {
        assert e in r <==> e in r' || e == a;
        assert e in s <==> e in s' || e == b;
      }
      RowsUnique(r', s');
    }
  }

  lemma {:induction false} EncodedRowsAgree(c: Triple, d: Triple, labels: seq<Label>, g: Graph, h: Graph, i: nat)
    requires Encodes(c, labels, g) && Encodes(d, labels, h) && i < |labels|
    requires forall u, v, w :: Exported(g, u, v, w) <==> Exported(h, u, v, w)
    ensures RowOf(c, |labels|, i) == RowOf(d, |labels|, i)
  {
    var r, s := RowOf(c, |labels|, i), RowOf(d, |labels|, i);
    assert RowEncodes(r, labels, i, g) && RowEncodes(s, labels, i, h);
    forall e ensures e in r <==> e in s {
      if e in r {
        assert Exported(h, labels[i], labels[e.col], e.weight);
        assert Entry(e.col, e.weight) in s;
      }
      if e in s {
        assert Exported(g, labels[i], labels[e.col], e.weight);
        assert Entry(e.col, e.weight) in r;
      }
    }
    RowsUnique(r, s);
  }

  lemma {:induction false} SameRowsSameIndptr(c: Triple, d: Triple, n: nat, i: nat)
    requires WellFormed(c, n) && WellFormed(d, n) && i <= n
    requires forall j :: 0 <= j < n ==> RowOf(c, n, j) == RowOf(d, n, j)
    ensures c.indptr[i] == d.indptr[i]
  {
    if i > 0 {
      SameRowsSameIndptr(c, d, n, i - 1);
      assert |RowOf(c, n, i - 1)| == |RowOf(d, n, i - 1)|;
    }
  }

  /** Every position of the arrays lies in some row. */
  lemma {:induction false} RowAt(c: Triple, n: nat, k: nat) returns (i: nat)
    requires WellFormed(c, n) && k < |c.indices|
    ensures i < n && c.indptr[i] <= k < c.indptr[i + 1]
    ensures RowOf(c, n, i)[k - c.indptr[i]] == Entry(c.indices[k], c.data[k])
  {
    i := 0;
    while c.indptr[i + 1] <= k
      invariant i < n && c.indptr[i] <= k
      decreases n - i
    {
      i := i + 1;
    }
  }

  lemma {:induction false} SameRowsSameTriple(c: Triple, d: Triple, n: nat)
    requires WellFormed(c, n) && WellFormed(d, n)
    requires forall i :: 0 <= i < n ==> RowOf(c, n, i) == RowOf(d, n, i)
    ensures c == d
  {
    forall i | 0 <= i <= n
      ensures c.indptr[i] == d.indptr[i]
    {
      SameRowsSameIndptr(c, d, n, i);
    }
    assert c.indptr == d.indptr;
    forall k | 0 <= k < |c.indices|
      ensures c.indices[k] == d.indices[k] && c.data[k] == d.data[k]
    {
      var i := RowAt(c, n, k);
      assert RowOf(c, n, i)[k - c.indptr[i]] == RowOf(d, n, i)[k - c.indptr[i]];
    }
  }

  /** The export is a canonical form: graphs with the same nodes and the same
      exported edges have the same triple, however they were built. */
  lemma {:induction false} CsrCanonical(c: Triple, g: Graph, d: Triple, h: Graph)
    requires WfGraph(g) && WfGraph(h)
    requires IsCsr(c, g) && IsCsr(d, h)
    requires g.at.Keys == h.at.Keys
    requires forall u, v, w :: Exported(g, u, v, w) <==> Exported(h, u, v, w)
    ensures c == d
  {
    SortedLabelsFacts(g);
    SortedLabelsFacts(h);
    assert forall x :: x in g.at <==> x in g.at.Keys;
    assert forall x :: x in h.at <==> x in h.at.Keys;
    var labels := SortedLabels(g);
    IncreasingUnique(labels, SortedLabels(h));
    forall i | 0 <= i < |labels|
      ensures RowOf(c, |labels|, i) == RowOf(d, |labels|, i)
    {
      EncodedRowsAgree(c, d, labels, g, h, i);
    }
    SameRowsSameTriple(c, d, |labels|);
  }

  /** The two histories leave the same nodes and the same edge weights behind. */
  ghost predicate SameOutcome(ops: seq<Op>, others: seq<Op>) {
    && (forall n :: NodeSurvives(ops, n) <==> NodeSurvives(others, n))
    && (forall u, v, w :: WeightSurvives(ops, u, v, w) <==> WeightSurvives(others, u, v, w))
  }

  ghost predicate WeightSurvives(ops: seq<Op>, u: Label, v: Label, w: Weight) {
    exists t :: EdgeSurvives(ops, u, v, Edge(w, t))
  }

  lemma {:induction false} RunExported(ops: seq<Op>, u: Label, v: Label, w: real)
    ensures Exported(Run(ops), u, v, w) <==>
            u != v && w >= 0.0 && WeightSurvives(ops, u, v, Finite(w))
  {
    if Joined(Run(ops), u, v) {
      var e := EdgeAt(Run(ops), u, v);
      RunMeaning(ops, u, v, e);
      if Exported(Run(ops), u, v, w) {
        assert EdgeSurvives(ops, u, v, Edge(Finite(w), e.edgeType));
      }
    }
    forall t
      ensures EdgeSurvives(ops, u, v, Edge(Finite(w), t)) ==>
                Joined(Run(ops), u, v) && EdgeAt(Run(ops), u, v).weight == Finite(w)
    {
      RunMeaning(ops, u, v, Edge(Finite(w), t));
    }
  }

  /** Insertion order and intermediate removals leave no trace in the export. */
  lemma {:induction false} HistoriesCanonical(ops: seq<Op>, others: seq<Op>, c: Triple, d: Triple)
    requires SameOutcome(ops, others)
    requires IsCsr(c, Run(ops)) && IsCsr(d, Run(others))
    ensures c == d
  {
    RunUndirected(ops);
    RunUndirected(others);
    forall n ensures n in Run(ops).at.Keys <==> n in Run(others).at.Keys {
      RunMeaning(ops, n, n, Edge(NaN, ""));
      RunMeaning(others, n, n, Edge(NaN, ""));
    }
    forall u, v, w ensures Exported(Run(ops), u, v, w) <==> Exported(Run(others), u, v, w) {
      RunExported(ops, u, v, w);
      RunExported(others, u, v, w);
    }
    CsrCanonical(c, Run(ops), d, Run(others));
  }

  // ---- The encoded matrix ----

  /** The matrix entry (a, b) is present with weight w. */
  ghost predicate HasEntry(c: Triple, a: nat, b: nat, w: real) {
    a + 1 < |c.indptr| && WellFormed(c, |c.indptr| - 1) && Entry(b, w) in RowOf(c, |c.indptr| - 1, a)
  }

  /** Faithfulness: entry (a, b, w) is there exactly when the a-th and the b-th label
      are distinct, joined, and joined by a finite non-negative weight w. */
  lemma {:induction false} CsrFaithful(c: Triple, g: Graph, a: nat, b: nat, w: real)
    requires WfGraph(g) && IsCsr(c, g)
    ensures HasEntry(c, a, b, w) <==>
            a < |SortedLabels(g)| && b < |SortedLabels(g)| && Exported(g, SortedLabels(g)[a], SortedLabels(g)[b], w)
    ensures HasEntry(c, a, b, w) <==>
            exists u, v ::
              && a < |SortedLabels(g)| && b < |SortedLabels(g)| && SortedLabels(g)[a] == u && SortedLabels(g)[b] == v
              && u != v && Joined(g, u, v) && EdgeAt(g, u, v).weight == Finite(w) && w >= 0.0
  {
    SortedLabelsFacts(g);
    if a < |g.keys| {
      assert RowEncodes(RowOf(c, |g.keys|, a), SortedLabels(g), a, g);
    }
  }

  lemma {:induction false} CsrSymmetric(c: Triple, g: Graph, a: nat, b: nat, w: real)
    requires WfGraph(g) && Undirected(g) && IsCsr(c, g)
    ensures HasEntry(c, a, b, w) <==> HasEntry(c, b, a, w)
  {
    CsrFaithful(c, g, a, b, w);
    CsrFaithful(c, g, b, a, w);
  }
}
