/** The BM25 index of bench/longmemeval_blind.py and the brute-force score it must agree with. */
module Bm25 {

  type Token = string

  type Doc = seq<Token>

  /** math.log, of which only this much is used. */
  type Log = ln: real -> real | forall x: real :: x > 1.0 ==> ln(x) > 0.0
    witness (x: real) => 1.0

  const K1 := 1.5
  const B := 0.75

  // ---- The brute-force definition ----

  function Count(t: Token, d: Doc): (c: nat)
    ensures c > 0 <==> t in d
    ensures c <= |d|
  {
    if d == [] then 0
    else
      assert d == d[..|d| - 1] + [d[|d| - 1]];
      Count(t, d[..|d| - 1]) + if d[|d| - 1] == t then 1 else 0
  }

  /** In how many of the documents t occurs. */
  function DocFreq(docs: seq<Doc>, t: Token): (c: nat)
    ensures c <= |docs|
    ensures c > 0 <==> exists i :: 0 <= i < |docs| && t in docs[i]
  {
    if docs == [] then 0
    else
      assert docs == docs[..|docs| - 1] + [docs[|docs| - 1]];
      DocFreq(docs[..|docs| - 1], t) + if t in docs[|docs| - 1] then 1 else 0
  }

  function TotalLength(docs: seq<Doc>): (c: nat)
    ensures forall i :: 0 <= i < |docs| ==> |docs[i]| <= c
  {
    if docs == [] then 0
    else TotalLength(docs[..|docs| - 1]) + |docs[|docs| - 1]|
  }

  function AverageLength(docs: seq<Doc>): real {
    if docs == [] then 1.0 else TotalLength(docs) as real / |docs| as real
  }

  function Idf(ln: Log, n: nat, df: nat): (r: real)
    requires df <= n
    ensures r > 0.0
  {
    var x := ((n - df) as real + 0.5) / (df as real + 0.5) + 1.0;
    assert x > 1.0;
    ln(x)
  }

  /** How far the length of a document stretches its term frequencies. */
  function LengthNorm(docs: seq<Doc>, i: nat): (r: real)
    requires i < |docs| && docs[i] != []
    ensures r > 0.0
  {
    Norm(|docs[i]|, AverageLength(docs))
  }

  function Norm(dl: nat, avgdl: real): real
    requires avgdl > 0.0
  {
    K1 * (1.0 - B + B * dl as real / avgdl)
  }

  /** The weight of a term that occurs tf times, before summing. */
  function Weigh(idf: real, tf: nat, norm: real): real
    requires norm > 0.0
  {
    idf * (tf as real * (K1 + 1.0)) / (tf as real + norm)
  }

  /** What one query token is worth to document i. */
  function Term(ln: Log, docs: seq<Doc>, t: Token, i: nat): real
    requires i < |docs|
  {
    var tf := Count(t, docs[i]);
    if tf == 0 then 0.0
    else Weigh(Idf(ln, |docs|, DocFreq(docs, t)), tf, LengthNorm(docs, i))
  }

  /** The sum over the query, repeated tokens counting each time. */
  function Score(ln: Log, docs: seq<Doc>, q: Doc, i: nat): real
    requires i < |docs|
  {
    if q == [] then 0.0
    else Score(ln, docs, q[..|q| - 1], i) + Term(ln, docs, q[|q| - 1], i)
  }

  /** The summed idf of the query tokens that occur anywhere. */
  function SummedIdf(ln: Log, docs: seq<Doc>, q: Doc): real {
    if q == [] then 0.0
    else
      var t := q[|q| - 1];
      SummedIdf(ln, docs, q[..|q| - 1]) +
      if DocFreq(docs, t) == 0 then 0.0 else Idf(ln, |docs|, DocFreq(docs, t))
  }

  // ---- What the scores mean ----

  lemma {:induction false} WeighBounds(idf: real, tf: nat, norm: real)
    requires idf > 0.0 && tf > 0 && norm > 0.0
    ensures 0.0 < Weigh(idf, tf, norm) < (K1 + 1.0) * idf
  {
    var x, y, f := Weigh(idf, tf, norm), (K1 + 1.0) * idf, tf as real;
    assert x * (f + norm) == idf * (f * (K1 + 1.0)) == y * f;
    assert y * f > 0.0 && y * norm > 0.0;
    assert y * (f + norm) == y * f + y * norm;
  }

  lemma {:induction false} TermBounds(ln: Log, docs: seq<Doc>, t: Token, i: nat)
    requires i < |docs|
    ensures Term(ln, docs, t, i) >= 0.0
    ensures Term(ln, docs, t, i) > 0.0 <==> t in docs[i]
    ensures t in docs[i] ==> Term(ln, docs, t, i) < (K1 + 1.0) * Idf(ln, |docs|, DocFreq(docs, t))
  {
    if t in docs[i] {
      WeighBounds(Idf(ln, |docs|, DocFreq(docs, t)), Count(t, docs[i]), LengthNorm(docs, i));
    }
    hide Weigh;
    hide Idf;
    hide LengthNorm;
  }

  /** Scores are never negative, and positive exactly when the query and the
      document share a token. */
  lemma {:induction false} ScorePositiveExactly(ln: Log, docs: seq<Doc>, q: Doc, i: nat)
    requires i < |docs|
    ensures Score(ln, docs, q, i) >= 0.0
    ensures Score(ln, docs, q, i) > 0.0 <==> exists t :: t in q && t in docs[i]
  {
    if q != [] {
      var init, t := q[..|q| - 1], q[|q| - 1];
      ScorePositiveExactly(ln, docs, init, i);
      TermBounds(ln, docs, t, i);
      assert q == init + [t];
    }
  }

  /** A score never exceeds k1 + 1 times the summed idf, and stays below it once positive. */
  lemma {:induction false} ScoreBound(ln: Log, docs: seq<Doc>, q: Doc, i: nat)
    requires i < |docs|
    ensures Score(ln, docs, q, i) <= (K1 + 1.0) * SummedIdf(ln, docs, q)
    ensures Score(ln, docs, q, i) > 0.0 ==> Score(ln, docs, q, i) < (K1 + 1.0) * SummedIdf(ln, docs, q)
  {
    if q != [] {
      var t := q[|q| - 1];
      ScoreBound(ln, docs, q[..|q| - 1], i);
      TermBounds(ln, docs, t, i);
      ScorePositiveExactly(ln, docs, q[..|q| - 1], i);
    }
  }

  // ---- Term frequency rows ----

  /** The sum of a row's counts over a set of tokens. */
  ghost function CountsOver(s: set<Token>, d: Doc): nat {
    if d == [] then 0
    else CountsOver(s, d[..|d| - 1]) + if d[|d| - 1] in s then 1 else 0
  }

  lemma {:induction false} CountsOverOne(s: set<Token>, t: Token, d: Doc)
    requires t in s
    ensures CountsOver(s, d) == CountsOver(s - {t}, d) + Count(t, d)
  {
    if d != [] {
      CountsOverOne(s, t, d[..|d| - 1]);
    }
  }

  lemma {:induction false} CountsOverAll(s: set<Token>, d: Doc)
    requires forall t :: t in d ==> t in s
    ensures CountsOver(s, d) == |d|
  {
    if d != [] {
      assert d == d[..|d| - 1] + [d[|d| - 1]];
      CountsOverAll(s, d[..|d| - 1]);
    }
  }

  lemma {:induction false} CountsOverNone(d: Doc)
    ensures CountsOver({}, d) == 0
  {
    if d != [] {
      CountsOverNone(d[..|d| - 1]);
    }
  }

  // ---- The index ----

  ghost predicate RowCounts(row: map<Token, nat>, d: Doc) {
    && (forall t :: t in row <==> t in d)
    && (forall t :: t in row ==> row[t] == Count(t, d))
  }

  ghost predicate CountsDocs(df: map<Token, nat>, docs: seq<Doc>) {
    && (forall t :: t in df ==> df[t] == DocFreq(docs, t) > 0)
    && (forall t, i :: 0 <= i < |docs| && t in docs[i] ==> t in df)
  }

  /** The values of a row, added up. */
  ghost function RowTotal(row: map<Token, nat>, keys: set<Token>): nat
    requires keys <= row.Keys
  {
    if keys == {} then 0
    else
      var t :| t in keys;
      row[t] + RowTotal(row, keys - {t})
  }

  lemma {:induction false} RowTotalCounts(row: map<Token, nat>, keys: set<Token>, d: Doc)
    requires RowCounts(row, d) && keys <= row.Keys
    ensures RowTotal(row, keys) == CountsOver(keys, d)
  {
    if keys == {} {
      CountsOverNone(d);
    } else {
      var t :| t in keys && RowTotal(row, keys) == row[t] + RowTotal(row, keys - {t});
      RowTotalCounts(row, keys - {t}, d);
      CountsOverOne(keys, t, d);
    }
  }

  /** Each term frequency row adds up to the document's length. */
  lemma {:induction false} RowSumsToLength(row: map<Token, nat>, d: Doc)
    requires RowCounts(row, d)
    ensures RowTotal(row, row.Keys) == |d|
  {
    RowTotalCounts(row, row.Keys, d);
    CountsOverAll(row.Keys, d);
  }

  class BM25Index {
    var n: nat
    var avgdl: real
    var tf: seq<map<Token, nat>>
    var df: map<Token, nat>
    var dl: seq<nat>

    /** The index describes these documents. */
    ghost predicate Indexes(docs: seq<Doc>)
      reads this
    {
      && n == |docs| == |tf| == |dl|
      && avgdl == AverageLength(docs)
      && (forall i :: 0 <= i < n ==> RowCounts(tf[i], docs[i]) && dl[i] == |docs[i]|)
      && CountsDocs(df, docs)
    }

    constructor (docs: seq<Doc>)
      ensures Indexes(docs)
    {
      n := |docs|;
      var total := 0;
      var rows: seq<map<Token, nat>> := [];
      var freqs: map<Token, nat> := map[];
      var lengths: seq<nat> := [];
      for i := 0 to |docs|
        invariant total == TotalLength(docs[..i])
        invariant |rows| == |lengths| == i
        invariant forall j :: 0 <= j < i ==> RowCounts(rows[j], docs[j]) && lengths[j] == |docs[j]|
        invariant CountsDocs(freqs, docs[..i])
      {
        assert docs[..i + 1][..i] == docs[..i];
        var counts := CountTokens(docs[i]);
        rows := rows + [counts];
        freqs := AddDocument(freqs, counts, docs[..i], docs[i]);
        assert docs[..i + 1] == docs[..i] + [docs[i]];
        lengths := lengths + [|docs[i]|];
        total := total + |docs[i]|;
      }
      assert docs[..|docs|] == docs;
      avgdl := if |docs| > 0 then total as real / |docs| as real else 1.0;
      tf, df, dl := rows, freqs, lengths;
    }

    /** out[idx] accumulates over the query tokens. */
    method Scores(ln: Log, q: Doc, ghost docs: seq<Doc>) returns (out: array<real>)
      requires Indexes(docs)
      ensures fresh(out) && out.Length == |docs|
      ensures forall i :: 0 <= i < |docs| ==> out[i] == Score(ln, docs, q, i)
    {
      out := new real[n](i => 0.0);
      assert q[..0] == [];
      for k := 0 to |q|
        invariant forall i :: 0 <= i < |docs| ==> out[i] == Score(ln, docs, q[..k], i)
      {
        assert q[..k + 1][..k] == q[..k];
        AddToken(ln, q[k], out, docs);
      }
      assert q[..|q|] == q;
    }

    /** One query token: what it adds to the score of every document. */
    method AddToken(ln: Log, tok: Token, out: array<real>, ghost docs: seq<Doc>)
      requires Indexes(docs) && out.Length == |docs|
      modifies out
      ensures forall i :: 0 <= i < |docs| ==> out[i] == old(out[i]) + Term(ln, docs, tok, i)
    {
      var dfT := if tok in df then df[tok] else 0;
      if dfT == 0 {
        NowhereScoresNothing(ln, docs, tok);
        return;
      }
      var idf := Idf(ln, n, dfT);
      hide DocFreq;
      for idx := 0 to n
        invariant forall i :: 0 <= i < |docs| ==>
                    out[i] == if i < idx then old(out[i]) + Term(ln, docs, tok, i) else old(out[i])
      {
        var tfI := if tok in tf[idx] then tf[idx][tok] else 0;
        if tfI == 0 {
          continue;
        }
        var share := Share(idf, tfI, dl[idx], docs, idx);
        out[idx] := out[idx] + share;
      }
    }

    method Share(idf: real, tfI: nat, dlI: nat, ghost docs: seq<Doc>, ghost i: nat) returns (share: real)
      requires Indexes(docs) && i < |docs| && tfI > 0 && dlI == |docs[i]| > 0
      ensures share == Weigh(idf, tfI, LengthNorm(docs, i))
    {
      var numerator := tfI as real * (K1 + 1.0);
      var denominator := tfI as real + K1 * (1.0 - B + B * dlI as real / avgdl);
      share := idf * numerator / denominator;
    }
  }

  lemma {:induction false} NowhereScoresNothing(ln: Log, docs: seq<Doc>, t: Token)
    requires DocFreq(docs, t) == 0
    ensures forall i :: 0 <= i < |docs| ==> Term(ln, docs, t, i) == 0.0
  {
  }

  /** counts[tok] = counts.get(tok, 0) + 1 */
  method CountTokens(d: Doc) returns (counts: map<Token, nat>)
    ensures RowCounts(counts, d)
  {
    counts := map[];
    for i := 0 to |d|
      invariant RowCounts(counts, d[..i])
    {
      assert d[..i + 1][..i] == d[..i] && d[..i + 1] == d[..i] + [d[i]];
      counts := counts[d[i] := (if d[i] in counts then counts[d[i]] else 0) + 1];
    }
    assert d[..|d|] == d;
  }

  /** df[tok] = df.get(tok, 0) + 1, for each distinct token of the document */
  method AddDocument(freqs: map<Token, nat>, counts: map<Token, nat>, ghost before: seq<Doc>, ghost d: Doc)
    returns (df: map<Token, nat>)
    requires CountsDocs(freqs, before) && RowCounts(counts, d)
    ensures CountsDocs(df, before + [d])
  {
    df := freqs;
    var rest := counts.Keys;
    while rest != {}
      invariant rest <= counts.Keys
      invariant forall t :: t in df <==> t in freqs || (t in counts && t !in rest)
      invariant forall t :: t in df ==>
                  df[t] == (if t in freqs then freqs[t] else 0) + if t in counts && t !in rest then 1 else 0
    {
      var tok :| tok in rest;
      df := df[tok := (if tok in df then df[tok] else 0) + 1];
      rest := rest - {tok};
    }
    forall t ensures DocFreq(before + [d], t) == DocFreq(before, t) + if t in d then 1 else 0 {
      assert (before + [d])[..|before|] == before;
    }
  }

  // ---- What the parts of a score are ----

  lemma {:induction false} CountMeaning(t: Token, d: Doc)
    ensures Count(t, d) == multiset(d)[t]
  {
    if d != [] {
      CountMeaning(t, d[..|d| - 1]);
      assert d == d[..|d| - 1] + [d[|d| - 1]];
    }
  }

  lemma {:induction false} DocFreqMeaning(docs: seq<Doc>, t: Token)
    ensures DocFreq(docs, t) == |set i | 0 <= i < |docs| && t in docs[i]|
  {
    if docs != [] {
      var n := |docs| - 1;
      DocFreqMeaning(docs[..n], t);
      var before := set i | 0 <= i < n && t in docs[..n][i];
      assert (set i | 0 <= i < |docs| && t in docs[i]) == before + if t in docs[n] then {n} else {};
    }
  }

  ghost function Joint(docs: seq<Doc>): Doc {
    if docs == [] then [] else Joint(docs[..|docs| - 1]) + docs[|docs| - 1]
  }

  /** The average length, times the number of documents, is that of all of them end to end. */
  lemma {:induction false} AverageMeaning(docs: seq<Doc>)
    requires docs != []
    ensures AverageLength(docs) * |docs| as real == |Joint(docs)| as real
  {
    TotalMeaning(docs);
    assert TotalLength(docs) as real / |docs| as real * |docs| as real == TotalLength(docs) as real;
  }

  lemma {:induction false} TotalMeaning(docs: seq<Doc>)
    ensures TotalLength(docs) == |Joint(docs)|
  {
    if docs != [] {
      TotalMeaning(docs[..|docs| - 1]);
    }
  }

  /** The argument of the logarithm, in lowest terms. */
  lemma {:induction false} IdfMeaning(ln: Log, n: nat, df: nat)
    requires df <= n
    ensures Idf(ln, n, df) == ln((n as real + 1.0) / (df as real + 0.5))
  {
    OverPlusOne((n - df) as real + 0.5, df as real + 0.5);
  }

  lemma {:induction false} OverPlusOne(x: real, d: real)
    requires d > 0.0
    ensures x / d + 1.0 == (x + d) / d
  {
    Divided(x + d, d, x / d + 1.0);
  }

  lemma {:induction false} Divided(y: real, d: real, q: real)
    requires d > 0.0 && q * d == y
    ensures y / d == q
  {
  }

  /** With an increasing logarithm, rarer tokens weigh more. */
  lemma {:induction false} RarerWeighsMore(ln: Log, n: nat, a: nat, b: nat)
    requires a < b <= n && forall x, y :: 0.0 < x < y ==> ln(x) < ln(y)
    ensures Idf(ln, n, a) > Idf(ln, n, b)
  {
    IdfMeaning(ln, n, a);
    IdfMeaning(ln, n, b);
    SmallerShare(n as real + 1.0, a as real + 0.5, b as real + 0.5);
  }

  lemma {:induction false} SmallerShare(x: real, a: real, b: real)
    requires x > 0.0 && 0.0 < a < b
    ensures 0.0 < x / b < x / a
  {
    var p, q := x / a, x / b;
    assert p * a == x && q * b == x && q > 0.0;
    assert q * (b - a) > 0.0;
    Cancel(p, q, a);
  }

  lemma {:induction false} Cancel(p: real, q: real, a: real)
    requires a > 0.0 && p * a > q * a
    ensures p > q
  {
  }

  /** w is idf times 2.5 tf over tf + norm, without dividing. */
  ghost predicate Worth(w: real, tf: nat, norm: real, idf: real) {
    w * (tf as real + norm) == idf * (tf as real * 2.5)
  }

  /** A token that occurs tf times is worth idf times 2.5 tf over tf + norm. */
  lemma {:induction false} TermMeaning(ln: Log, docs: seq<Doc>, t: Token, i: nat, tf: nat, idf: real, norm: real)
    requires i < |docs| && t in docs[i]
    requires tf == Count(t, docs[i]) && idf == Idf(ln, |docs|, DocFreq(docs, t)) && norm == LengthNorm(docs, i)
    ensures Worth(Term(ln, docs, t, i), tf, norm, idf)
  {
    WeighMeaning(idf, tf, norm);
    hide Worth;
    hide Weigh;
    hide LengthNorm;
    hide Idf;
    hide Count;
    hide DocFreq;
  }

  /** The norm in numbers: 1.5 for a document of average length, and more for longer ones. */
  lemma {:induction false} LengthNormMeaning(docs: seq<Doc>, i: nat)
    requires i < |docs| && docs[i] != []
    ensures AverageLength(docs) > 0.0
    ensures LengthNorm(docs, i) == 1.5 * (0.25 + 0.75 * (|docs[i]| as real / AverageLength(docs)))
  {
    AveragePositive(docs, i);
    NormMeaning(|docs[i]|, AverageLength(docs));
    hide Norm;
  }

  lemma {:induction false} AveragePositive(docs: seq<Doc>, i: nat)
    requires i < |docs| && docs[i] != []
    ensures AverageLength(docs) > 0.0
  {
    assert TotalLength(docs) > 0;
  }

  lemma {:induction false} NormMeaning(dl: nat, avg: real)
    requires avg > 0.0
    ensures Norm(dl, avg) == 1.5 * (0.25 + 0.75 * (dl as real / avg))
  {
    assert B * dl as real / avg == 0.75 * (dl as real / avg);
  }

  lemma {:induction false} WeighMeaning(idf: real, tf: nat, norm: real)
    requires norm > 0.0
    ensures Worth(Weigh(idf, tf, norm), tf, norm, idf)
  {
    Undivided(idf * (tf as real * 2.5), tf as real + norm);
  }

  lemma {:induction false} Undivided(x: real, y: real)
    requires y > 0.0
    ensures x / y * y == x
  {
  }

  /** Scores add up over the parts of a query, token by token. */
  lemma {:induction false} ScoreMeaning(ln: Log, docs: seq<Doc>, q: Doc, r: Doc, i: nat)
    requires i < |docs|
    ensures Score(ln, docs, q + r, i) == Score(ln, docs, q, i) + Score(ln, docs, r, i)
    ensures |q| == 1 ==> Score(ln, docs, q, i) == Term(ln, docs, q[0], i)
    ensures SummedIdf(ln, docs, q + r) == SummedIdf(ln, docs, q) + SummedIdf(ln, docs, r)
    ensures |q| == 1 && DocFreq(docs, q[0]) == 0 ==> SummedIdf(ln, docs, q) == 0.0
    ensures |q| == 1 && DocFreq(docs, q[0]) > 0 ==> SummedIdf(ln, docs, q) == Idf(ln, |docs|, DocFreq(docs, q[0]))
  {
    hide Term;
    hide Idf;
    assert |q| == 1 ==> q[..0] == [];
    if r == [] {
      assert q + r == q;
    } else {
      ScoreMeaning(ln, docs, q, r[..|r| - 1], i);
      assert (q + r)[..|q + r| - 1] == q + r[..|r| - 1];
    }
  }
}
