/** How the export is put together: rows collected in dict order, each sorted
    by column, then laid end to end.  The functions say what each loop makes;
    the lemmas, that what they make in the end is an export in the sense of
    module Csr. */
module CsrBuild {
  import opened Dicts
  import opened Sorting
  import opened Graphs
  import opened Csr

  /** idx maps each label to its rank among the sorted labels. */
  ghost predicate IsIndex(idx: map<Label, nat>, labels: seq<Label>) {
    && (forall i :: 0 <= i < |labels| ==> labels[i] in idx && idx[labels[i]] == i)
    && (forall v :: v in idx ==> v in labels)
  }

  /** {label: i for i, label in enumerate(labels)} */
  function IndexMap(labels: seq<Label>): (idx: map<Label, nat>)
    requires Increasing(labels)
    ensures IsIndex(idx, labels)
  {
    map i | 0 <= i < |labels| :: labels[i] := i
  }

  /** What row u collects from its first k neighbours. */
  function RawRow(g: Graph, idx: map<Label, nat>, u: Label, k: nat): seq<Entry>
    requires u in g.at && Wf(g.at[u]) && k <= |g.at[u].keys|
  {
    if k == 0 then []
    else
      var v := g.at[u].keys[k - 1];
      RawRow(g, idx, u, k - 1) + RawEntry(idx, u, v, EdgeAt(g, u, v).weight)
  }

  /** The entry of one neighbour, if it is kept. */
  function RawEntry(idx: map<Label, nat>, u: Label, v: Label, w: Weight): seq<Entry> {
    if u == v || !w.Finite? || w.value < 0.0 || v !in idx then [] else [Entry(idx[v], w.value)]
  }

  lemma {:induction false} RawRowMembers(g: Graph, idx: map<Label, nat>, labels: seq<Label>, u: Label, k: nat, e: Entry)
    requires u in g.at && Wf(g.at[u]) && k <= |g.at[u].keys| && IsIndex(idx, labels)
    ensures e in RawRow(g, idx, u, k) <==>
            e.col < |labels| && labels[e.col] in g.at[u].keys[..k] && Exported(g, u, labels[e.col], e.weight)
  {
    if k > 0 {
      var v := g.at[u].keys[k - 1];
      RawRowMembers(g, idx, labels, u, k - 1, e);
      assert g.at[u].keys[..k] == g.at[u].keys[..k - 1] + [v];
      if v in idx {
        assert v in labels;
      }
    }
  }

  lemma {:induction false} RawRowDistinct(g: Graph, idx: map<Label, nat>, labels: seq<Label>, u: Label, k: nat)
    requires u in g.at && Wf(g.at[u]) && k <= |g.at[u].keys| && IsIndex(idx, labels)
    ensures Distinct(RawRow(g, idx, u, k))
  {
    if k > 0 {
      var v := g.at[u].keys[k - 1];
      RawRowDistinct(g, idx, labels, u, k - 1);
      var more := RawEntry(idx, u, v, EdgeAt(g, u, v).weight);
      if more != [] {
        RawRowMembers(g, idx, labels, u, k - 1, more[0]);
        assert v in labels;
        assert labels[more[0].col] == v;
        assert v !in g.at[u].keys[..k - 1];
      }
    }
  }

  predicate ColLess(x: Entry, y: Entry) {
    x.col < y.col
  }

  /** rows[i].sort(key=lambda pair: pair[0]) */
  function SortRow(row: seq<Entry>): seq<Entry> {
    StableSort(row, ColLess)
  }

  lemma {:induction false} SortedRowIncreasing(row: seq<Entry>)
    requires Distinct(row)
    requires forall e, f :: e in row && f in row && e.col == f.col ==> e == f
    ensures IncreasingCols(SortRow(row))
    ensures forall e :: e in SortRow(row) <==> e in row
  {
    var s := SortRow(row);
    SortSorts(row, ColLess);
    SortMembers(row, ColLess);
    SortedDistinct(row, ColLess);
    forall i, j | 0 <= i < j < |s|
      ensures s[i].col < s[j].col
    {
      assert s[i] in s && s[j] in s && s[i] != s[j];
      assert !ColLess(s[j], s[i]);
    }
  }

  lemma {:induction false} SortedRowEncodes(g: Graph, idx: map<Label, nat>, labels: seq<Label>, i: nat)
    requires WfGraph(g) && Undirected(g) && i < |labels| && IsIndex(idx, labels)
    requires forall x :: x in labels <==> x in g.at
    ensures labels[i] in g.at && Wf(g.at[labels[i]])
    ensures RowEncodes(SortRow(RawRow(g, idx, labels[i], |g.at[labels[i]].keys|)), labels, i, g)
  {
    var u := labels[i];
    assert u in labels;
    var keys := g.at[u].keys;
    var row := RawRow(g, idx, u, |keys|);
    forall e ensures e in row <==> e.col < |labels| && Exported(g, u, labels[e.col], e.weight) {
      RawRowMembers(g, idx, labels, u, |keys|, e);
      assert keys[..|keys|] == keys;
    }
    RawRowDistinct(g, idx, labels, u, |keys|);
    SortedRowIncreasing(row);
  }

  // ---- Laying rows end to end ----

  function Flat(rows: seq<seq<Entry>>): seq<Entry> {
    if rows == [] then [] else Flat(rows[..|rows| - 1]) + rows[|rows| - 1]
  }

  ghost function Cols(es: seq<Entry>): seq<nat> {
    seq(|es|, k requires 0 <= k < |es| => es[k].col)
  }

  ghost function Weights(es: seq<Entry>): seq<real> {
    seq(|es|, k requires 0 <= k < |es| => es[k].weight)
  }

  ghost function Offsets(rows: seq<seq<Entry>>): seq<nat> {
    seq(|rows| + 1, i requires 0 <= i <= |rows| => |Flat(rows[..i])|)
  }

  ghost function Assemble(rows: seq<seq<Entry>>): Triple {
    Triple(Offsets(rows), Cols(Flat(rows)), Weights(Flat(rows)))
  }

  lemma {:induction false} FlatStep(rows: seq<seq<Entry>>, i: nat)
    requires i < |rows|
    ensures Flat(rows[..i + 1]) == Flat(rows[..i]) + rows[i]
  {
    assert rows[..i + 1][..i] == rows[..i];
  }

  lemma {:induction false} FlatPrefix(rows: seq<seq<Entry>>, i: nat, j: nat)
    requires i <= j <= |rows|
    ensures |Flat(rows[..i])| <= |Flat(rows[..j])|
    ensures Flat(rows[..j])[..|Flat(rows[..i])|] == Flat(rows[..i])
  {
    if i < j {
      FlatPrefix(rows, i, j - 1);
      FlatStep(rows, j - 1);
    }
  }

  lemma {:induction false} AssembledRow(rows: seq<seq<Entry>>, i: nat)
    requires i < |rows| && WellFormed(Assemble(rows), |rows|)
    ensures RowOf(Assemble(rows), |rows|, i) == rows[i]
  {
    assert rows[..|rows|] == rows;
    FlatStep(rows, i);
    FlatPrefix(rows, i + 1, |rows|);
    var c, flat := Assemble(rows), Flat(rows);
    assert c.indptr[i] == |Flat(rows[..i])| && c.indptr[i + 1] == c.indptr[i] + |rows[i]|;
    forall k | 0 <= k < |rows[i]|
      ensures flat[c.indptr[i] + k] == rows[i][k]
    {
      assert flat[c.indptr[i] + k] == Flat(rows[..i + 1])[c.indptr[i] + k];
    }
  }

  lemma {:induction false} AssembledWellFormed(rows: seq<seq<Entry>>)
    ensures WellFormed(Assemble(rows), |rows|)
  {
    assert rows[..|rows|] == rows;
    forall i, j | 0 <= i <= j <= |rows|
      ensures Assemble(rows).indptr[i] <= Assemble(rows).indptr[j]
    {
      FlatPrefix(rows, i, j);
    }
  }

  lemma {:induction false} AssembleEncodes(rows: seq<seq<Entry>>, labels: seq<Label>, g: Graph)
    requires |rows| == |labels|
    requires forall i :: 0 <= i < |labels| ==> RowEncodes(rows[i], labels, i, g)
    ensures Encodes(Assemble(rows), labels, g)
  {
    AssembledWellFormed(rows);
    forall i | 0 <= i < |labels|
      ensures RowEncodes(RowOf(Assemble(rows), |labels|, i), labels, i, g)
    {
      AssembledRow(rows, i);
    }
  }

  // ---- Collecting the rows in dict order ----

  /** The row lists once the rows in `done` are collected. */
  ghost function Collected(g: Graph, idx: map<Label, nat>, labels: seq<Label>, done: seq<Label>): seq<seq<Entry>>
    requires WfGraph(g) && forall u :: u in labels <==> u in g.at
  {
    seq(|labels|, i requires 0 <= i < |labels| =>
      assert labels[i] in labels;
      if labels[i] in done then RawRow(g, idx, labels[i], |g.at[labels[i]].keys|) else [])
  }

  lemma {:induction false} CollectedStep(g: Graph, idx: map<Label, nat>, labels: seq<Label>, i: nat)
    requires WfGraph(g) && IsIndex(idx, labels) && forall u :: u in labels <==> u in g.at
    requires i < |g.keys|
    ensures var u := g.keys[i];
            && u in g.at && u in idx && idx[u] < |labels|
            && Collected(g, idx, labels, g.keys[..i])[idx[u]] == []
            && Collected(g, idx, labels, g.keys[..i + 1]) ==
               Collected(g, idx, labels, g.keys[..i])[idx[u] := RawRow(g, idx, u, |g.at[u].keys|)]
  {
    var u := g.keys[i];
    assert u in labels;
    assert u !in g.keys[..i];
    assert g.keys[..i + 1] == g.keys[..i] + [u];
  }

  ghost function SortedRows(rows: seq<seq<Entry>>): seq<seq<Entry>> {
    seq(|rows|, i requires 0 <= i < |rows| => SortRow(rows[i]))
  }

  lemma {:induction false} CollectedEncodes(g: Graph, idx: map<Label, nat>, labels: seq<Label>)
    requires WfGraph(g) && Undirected(g) && IsIndex(idx, labels)
    requires forall u :: u in labels <==> u in g.at
    ensures Encodes(Assemble(SortedRows(Collected(g, idx, labels, g.keys))), labels, g)
  {
    var rows := SortedRows(Collected(g, idx, labels, g.keys));
    forall i | 0 <= i < |labels|
      ensures RowEncodes(rows[i], labels, i, g)
    {
      SortedRowEncodes(g, idx, labels, i);
    }
    AssembleEncodes(rows, labels, g);
  }

  // ---- The loops that fill the arrays ----

  /** The tests that one neighbour has to pass. */
  method KeptEntry(idx: map<Label, nat>, u: Label, v: Label, w: Weight) returns (kept: seq<Entry>)
    ensures kept == RawEntry(idx, u, v, w)
  {
    kept := [];
    if u == v {
      return;
    }
    if !w.Finite? || w.value < 0.0 {
      return;
    }
    if v !in idx {
      return;
    }
    kept := kept + [Entry(idx[v], w.value)];
  }

  method SortRows(rows: array<seq<Entry>>)
    modifies rows
    ensures rows[..] == SortedRows(old(rows[..]))
  {
    for i := 0 to rows.Length
      invariant forall p :: 0 <= p < rows.Length ==> rows[p] == if p < i then SortRow(old(rows[p])) else old(rows[p])
    {
      rows[i] := SortRow(rows[i]);
    }
  }

  method FillIndptr(rows: array<seq<Entry>>) returns (indptr: array<nat>)
    ensures fresh(indptr) && indptr[..] == Offsets(rows[..])
  {
    var n := rows.Length;
    indptr := new nat[n + 1](i => 0);
    for i := 0 to n
      invariant forall j :: 0 <= j <= i ==> indptr[j] == |Flat(rows[..][..j])|
    {
      FlatStep(rows[..], i);
      indptr[i + 1] := indptr[i] + |rows[i]|;
    }
    assert indptr[..] == Offsets(rows[..]);
  }

  method FillEntries(rows: array<seq<Entry>>, nnz: nat) returns (indices: array<nat>, data: array<real>)
    requires nnz == |Flat(rows[..])|
    ensures fresh(indices) && fresh(data)
    ensures indices[..] == Cols(Flat(rows[..])) && data[..] == Weights(Flat(rows[..]))
  {
    indices, data := new nat[nnz](i => 0), new real[nnz](i => 0.0);
    ghost var all := rows[..];
    ghost var flat := Flat(all);
    assert all[..|all|] == all;
    var cursor := 0;
    for i := 0 to rows.Length
      invariant cursor == |Flat(all[..i])| <= nnz
      invariant forall p :: 0 <= p < cursor ==> indices[p] == flat[p].col && data[p] == flat[p].weight
    {
      FlatStep(all, i);
      FlatPrefix(all, i, |all|);
      FlatPrefix(all, i + 1, |all|);
      for k := 0 to |rows[i]|
        invariant cursor == |Flat(all[..i])| + k
        invariant forall p :: 0 <= p < cursor ==> indices[p] == flat[p].col && data[p] == flat[p].weight
      {
        assert flat[cursor] == Flat(all[..i + 1])[cursor] == rows[i][k];
        indices[cursor], data[cursor] := rows[i][k].col, rows[i][k].weight;
        cursor := cursor + 1;
      }
    }
  }
}
