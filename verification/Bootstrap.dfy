/** The seeded bootstrap bound and its two-sided form (bench/proc_corpus_census.py). */
module Bootstrap {
  import opened Options
  import opened Sorting

  /** The indices that `iters` resamplings of n values draw. */
  ghost predicate IsTable(table: seq<seq<nat>>, n: nat, iters: nat) {
    && |table| == iters
    && forall i :: 0 <= i < iters ==> |table[i]| == n && forall j :: 0 <= j < n ==> table[i][j] < n
  }

  /** The table of a generator that always draws the first value. */
  function FirstOnly(n: nat, iters: nat): (table: seq<seq<nat>>)
    ensures n > 0 ==> IsTable(table, n, iters)
  {
    var draw := seq(n, j => 0);
    seq(iters, i => draw)
  }

  /** random.Random(seed), of which only this is used: seed, n and iters fix the table. */
  type Rng = rng: (int, nat, nat) -> seq<seq<nat>> |
      forall seed: int, n: nat, iters: nat :: n > 0 ==> IsTable(rng(seed, n, iters), n, iters)
    witness (seed: int, n: nat, iters: nat) => FirstOnly(n, iters)

  const DEFAULT_ALPHA := 0.05

  function DrawSum(values: seq<real>, draw: seq<nat>): real
    requires forall j :: 0 <= j < |draw| ==> draw[j] < |values|
  {
    if draw == [] then 0.0
    else DrawSum(values, draw[..|draw| - 1]) + values[draw[|draw| - 1]]
  }

  function DrawMean(values: seq<real>, draw: seq<nat>): real
    requires |draw| == |values| > 0
    requires forall j :: 0 <= j < |draw| ==> draw[j] < |values|
  {
    DrawSum(values, draw) / |values| as real
  }

  function BootMeans(values: seq<real>, table: seq<seq<nat>>): (r: seq<real>)
    requires |values| > 0 && IsTable(table, |values|, |table|)
    ensures |r| == |table| && forall i :: 0 <= i < |r| ==> r[i] == DrawMean(values, table[i])
  {
    seq(|table|, i requires 0 <= i < |table| => DrawMean(values, table[i]))
  }

  predicate Less(x: real, y: real) {
    x < y
  }

  function Ascending(s: seq<real>): (r: seq<real>)
    ensures |r| == |s|
  {
    SortPermutes(s, Less);
    StableSort(s, Less)
  }

  /** int(x) */
  function Trunc(x: real): int {
    if x >= 0.0 then x.Floor else -(-x).Floor
  }

  /** min(max(int(alpha * iters), 0), iters - 1) */
  function Index(alpha: real, iters: nat): (i: nat)
    requires iters > 0
    ensures i < iters
  {
    var t := Trunc(alpha * iters as real);
    if t < 0 then 0 else if t > iters - 1 then iters - 1 else t
  }

  /** The bound; None where the source raises IndexError, with no resampling to pick from. */
  function LowerCi(rng: Rng, values: seq<real>, iters: int, seed: int, alpha: real): Option<real> {
    if values == [] then Some(0.0)
    else if iters <= 0 then None
    else Some(Ascending(BootMeans(values, rng(seed, |values|, iters)))[Index(alpha, iters)])
  }

  /** bootstrap_lower_ci, with its resampling loops. */
  method BootstrapLowerCi(rng: Rng, values: seq<real>, iters: int, seed: int, alpha: real) returns (r: Option<real>)
    ensures r == LowerCi(rng, values, iters, seed, alpha)
  {
    if values == [] {
      return Some(0.0);
    }
    var n := |values|;
    var rounds: nat := if iters < 0 then 0 else iters;
    var table := rng(seed, n, rounds);
    var bootMeans: seq<real> := [];
    for i := 0 to rounds
      invariant |bootMeans| == i
      invariant forall j :: 0 <= j < i ==> bootMeans[j] == DrawMean(values, table[j])
    {
      var total := 0.0;
      for j := 0 to n
        invariant total == DrawSum(values, table[i][..j])
      {
        assert table[i][..j + 1][..j] == table[i][..j];
        total := total + values[table[i][j]];
      }
      assert table[i][..n] == table[i];
      bootMeans := bootMeans + [total / n as real];
    }
    assert bootMeans == BootMeans(values, table);
    bootMeans := Ascending(bootMeans);
    if iters <= 0 {
      return None;
    }
    return Some(bootMeans[Index(alpha, iters)]);
  }

  // ---- Order statistics by counting ----

  function AtMost(x: real): real -> bool {
    (y: real) => y <= x
  }

  function AtLeast(x: real): real -> bool {
    (y: real) => y >= x
  }

  function Under(x: real): real -> bool {
    (y: real) => y < x
  }

  function Over(x: real): real -> bool {
    (y: real) => y > x
  }

  lemma {:induction false} InsertCount(p: real -> bool, x: real, s: seq<real>)
    ensures |Filter(p, Insert(x, s, Less))| == |Filter(p, s)| + if p(x) then 1 else 0
  {
    if s == [] || !Less(s[0], x) {
      assert Insert(x, s, Less)[1..] == s;
    } else {
      InsertCount(p, x, s[1..]);
      assert Insert(x, s, Less)[1..] == Insert(x, s[1..], Less);
    }
  }

  /** Sorting does not change how many elements satisfy p. */
  lemma {:induction false} SortCount(p: real -> bool, s: seq<real>)
    ensures |Filter(p, StableSort(s, Less))| == |Filter(p, s)|
  {
    if s != [] {
      SortCount(p, s[1..]);
      InsertCount(p, s[0], StableSort(s[1..], Less));
    }
  }

  lemma {:induction false} AllCount(p: real -> bool, s: seq<real>)
    requires forall i :: 0 <= i < |s| ==> p(s[i])
    ensures |Filter(p, s)| == |s|
  {
    if s != [] {
      AllCount(p, s[1..]);
    }
  }

  lemma {:induction false} SplitCount(p: real -> bool, s: seq<real>, k: nat)
    requires k <= |s|
    ensures |Filter(p, s)| == |Filter(p, s[..k])| + |Filter(p, s[k..])|
  {
    if k > 0 {
      SplitCount(p, s[1..], k - 1);
      assert s[..k][1..] == s[1..][..k - 1];
      assert s[k..] == s[1..][k - 1..];
    }
  }

  lemma {:induction false} NoneCount(p: real -> bool, s: seq<real>)
    requires forall i :: 0 <= i < |s| ==> !p(s[i])
    ensures |Filter(p, s)| == 0
  {
    if s != [] {
      NoneCount(p, s[1..]);
    }
  }

  lemma {:induction false} AscendingSorted(s: seq<real>)
    ensures forall i, j :: 0 <= i <= j < |s| ==> Ascending(s)[i] <= Ascending(s)[j]
  {
    SortSorts(s, Less);
    forall i, j | 0 <= i <= j < |s|
      ensures Ascending(s)[i] <= Ascending(s)[j]
    {
      assert i < j ==> !Less(Ascending(s)[j], Ascending(s)[i]);
    }
  }

  /** The k-th smallest is at most x exactly if more than k elements are. */
  lemma {:induction false} KthAtMost(s: seq<real>, k: nat, x: real)
    requires k < |s|
    ensures Ascending(s)[k] <= x <==> |Filter(AtMost(x), s)| > k
  {
    var a := Ascending(s);
    AscendingSorted(s);
    SortCount(AtMost(x), s);
    if a[k] <= x {
      SplitCount(AtMost(x), a, k + 1);
      AllCount(AtMost(x), a[..k + 1]);
    } else {
      SplitCount(AtMost(x), a, k);
      NoneCount(AtMost(x), a[k..]);
    }
  }

  /** At least |s| - k elements are at least the k-th smallest. */
  lemma {:induction false} KthAtLeast(s: seq<real>, k: nat)
    requires k < |s|
    ensures |Filter(AtLeast(Ascending(s)[k]), s)| >= |s| - k
  {
    var a := Ascending(s);
    AscendingSorted(s);
    SortCount(AtLeast(a[k]), s);
    SplitCount(AtLeast(a[k]), a, k);
    AllCount(AtLeast(a[k]), a[k..]);
  }

  /** Above the k-th smallest there are at most |s| - 1 - k elements. */
  lemma {:induction false} KthAbove(s: seq<real>, k: nat, z: real)
    requires k < |s| && z > Ascending(s)[k]
    ensures |Filter(AtLeast(z), s)| <= |s| - 1 - k
  {
    var a := Ascending(s);
    AscendingSorted(s);
    SortCount(AtLeast(z), s);
    SplitCount(AtLeast(z), a, k + 1);
    NoneCount(AtLeast(z), a[..k + 1]);
  }

  // ---- Monotone and translation-equivariant ----

  ghost predicate Below(v: seq<real>, w: seq<real>) {
    |v| == |w| && forall i :: 0 <= i < |v| ==> v[i] <= w[i]
  }

  lemma {:induction false} BelowCount(v: seq<real>, w: seq<real>, x: real)
    requires Below(v, w)
    ensures |Filter(AtMost(x), w)| <= |Filter(AtMost(x), v)|
  {
    if v != [] {
      BelowCount(v[1..], w[1..], x);
    }
  }

  /** Sorting preserves the pointwise order. */
  lemma {:induction false} SortBelow(v: seq<real>, w: seq<real>)
    requires Below(v, w)
    ensures Below(Ascending(v), Ascending(w))
  {
    forall k | 0 <= k < |v|
      ensures Ascending(v)[k] <= Ascending(w)[k]
    {
      var x := Ascending(w)[k];
      KthAtMost(w, k, x);
      BelowCount(v, w, x);
      KthAtMost(v, k, x);
    }
  }

  lemma {:induction false} DrawBelow(v: seq<real>, w: seq<real>, draw: seq<nat>)
    requires Below(v, w) && forall j :: 0 <= j < |draw| ==> draw[j] < |v|
    ensures DrawSum(v, draw) <= DrawSum(w, draw)
  {
    if draw != [] {
      DrawBelow(v, w, draw[..|draw| - 1]);
    }
  }

  lemma {:induction false} DivMonotone(a: real, b: real, n: real)
    requires a <= b && n > 0.0
    ensures a / n <= b / n
  {
  }

  /** The bound is monotone in the values. */
  lemma {:induction false} LowerCiMonotone(rng: Rng, v: seq<real>, w: seq<real>, iters: nat, seed: int, alpha: real)
    requires Below(v, w) && (v == [] || iters > 0)
    ensures LowerCi(rng, v, iters, seed, alpha).Some? && LowerCi(rng, w, iters, seed, alpha).Some?
    ensures LowerCi(rng, v, iters, seed, alpha).value <= LowerCi(rng, w, iters, seed, alpha).value
  {
    if v != [] {
      var table := rng(seed, |v|, iters);
      forall i | 0 <= i < iters
        ensures BootMeans(v, table)[i] <= BootMeans(w, table)[i]
      {
        DrawBelow(v, w, table[i]);
        DivMonotone(DrawSum(v, table[i]), DrawSum(w, table[i]), |v| as real);
      }
      SortBelow(BootMeans(v, table), BootMeans(w, table));
    }
  }

  function Shifted(v: seq<real>, c: real): (r: seq<real>)
    ensures |r| == |v| && forall i :: 0 <= i < |v| ==> r[i] == v[i] + c
  {
    seq(|v|, i requires 0 <= i < |v| => v[i] + c)
  }

  lemma {:induction false} ShiftCount(v: seq<real>, c: real, x: real)
    ensures |Filter(AtMost(x + c), Shifted(v, c))| == |Filter(AtMost(x), v)|
  {
    if v != [] {
      ShiftCount(v[1..], c, x);
      assert Shifted(v, c)[1..] == Shifted(v[1..], c);
    }
  }

  lemma {:induction false} SortShifted(v: seq<real>, c: real, k: nat)
    requires k < |v|
    ensures Ascending(Shifted(v, c))[k] == Ascending(v)[k] + c
  {
    var x, y := Ascending(v)[k], Ascending(Shifted(v, c))[k];
    ShiftAtMost(v, c, k, x);
    ShiftAtMost(v, c, k, y - c);
  }

  lemma {:induction false} ShiftAtMost(v: seq<real>, c: real, k: nat, x: real)
    requires k < |v|
    ensures Ascending(Shifted(v, c))[k] <= x + c <==> Ascending(v)[k] <= x
  {
    KthAtMost(v, k, x);
    ShiftCount(v, c, x);
    KthAtMost(Shifted(v, c), k, x + c);
  }

  lemma {:induction false} DrawShifted(v: seq<real>, c: real, draw: seq<nat>)
    requires forall j :: 0 <= j < |draw| ==> draw[j] < |v|
    ensures DrawSum(Shifted(v, c), draw) == DrawSum(v, draw) + c * |draw| as real
  {
    if draw != [] {
      DrawShifted(v, c, draw[..|draw| - 1]);
    }
  }

  lemma {:induction false} DivShift(a: real, c: real, n: real)
    requires n > 0.0
    ensures (a + c * n) / n == a / n + c
  {
    assert (a / n + c) * n == a + c * n;
  }

  /** Adding c to every value adds c to the bound. */
  lemma {:induction false} LowerCiTranslates(rng: Rng, v: seq<real>, c: real, iters: nat, seed: int, alpha: real)
    requires v != [] && iters > 0
    ensures LowerCi(rng, v, iters, seed, alpha).Some? && LowerCi(rng, Shifted(v, c), iters, seed, alpha).Some?
    ensures LowerCi(rng, Shifted(v, c), iters, seed, alpha).value == LowerCi(rng, v, iters, seed, alpha).value + c
  {
    var table := rng(seed, |v|, iters);
    var means := BootMeans(v, table);
    forall i | 0 <= i < iters
      ensures BootMeans(Shifted(v, c), table)[i] == means[i] + c
    {
      DrawShifted(v, c, table[i]);
      DivShift(DrawSum(v, table[i]), c, |v| as real);
    }
    assert BootMeans(Shifted(v, c), table) == Shifted(means, c);
    SortShifted(means, c, Index(alpha, iters));
  }

  // ---- Range ----

  ghost predicate Within(v: seq<real>, lo: real, hi: real) {
    forall i :: 0 <= i < |v| ==> lo <= v[i] <= hi
  }

  lemma {:induction false} DrawWithin(v: seq<real>, draw: seq<nat>, lo: real, hi: real)
    requires Within(v, lo, hi) && forall j :: 0 <= j < |draw| ==> draw[j] < |v|
    ensures lo * |draw| as real <= DrawSum(v, draw) <= hi * |draw| as real
  {
    if draw != [] {
      DrawWithin(v, draw[..|draw| - 1], lo, hi);
    }
  }

  lemma {:induction false} DivWithin(a: real, lo: real, hi: real, n: real)
    requires n > 0.0 && lo * n <= a <= hi * n
    ensures lo <= a / n <= hi
  {
    assert a / n * n == a;
  }

  lemma {:induction false} BootMeansWithin(v: seq<real>, table: seq<seq<nat>>, lo: real, hi: real)
    requires |v| > 0 && IsTable(table, |v|, |table|) && Within(v, lo, hi)
    ensures Within(BootMeans(v, table), lo, hi)
  {
    forall i | 0 <= i < |table|
      ensures lo <= BootMeans(v, table)[i] <= hi
    {
      DrawMeanWithin(v, table[i], lo, hi);
    }
  }

  lemma {:induction false} DrawMeanWithin(v: seq<real>, draw: seq<nat>, lo: real, hi: real)
    requires |draw| == |v| > 0 && Within(v, lo, hi) && forall j :: 0 <= j < |draw| ==> draw[j] < |v|
    ensures lo <= DrawMean(v, draw) <= hi
  {
    DrawWithin(v, draw, lo, hi);
    DivWithin(DrawSum(v, draw), lo, hi, |v| as real);
  }

  lemma {:induction false} SortWithin(s: seq<real>, lo: real, hi: real)
    requires Within(s, lo, hi)
    ensures Within(Ascending(s), lo, hi)
  {
    SortMembers(s, Less);
    forall i | 0 <= i < |s|
      ensures lo <= Ascending(s)[i] <= hi
    {
      assert Ascending(s)[i] in s;
    }
  }

  // ---- The two-sided floor ----

  function Negated(v: seq<real>): (r: seq<real>)
    ensures |r| == |v| && forall i :: 0 <= i < |v| ==> r[i] == -v[i]
  {
    seq(|v|, i requires 0 <= i < |v| => -v[i])
  }

  /** two_sided_aa_floor: the same bound on the deltas and on the negated deltas, negated back. */
  function TwoSidedFloor(rng: Rng, values: seq<real>, iters: int, seed: int): Option<(real, real)> {
    var low := LowerCi(rng, values, iters, seed, DEFAULT_ALPHA);
    var high := LowerCi(rng, Negated(values), iters, seed, DEFAULT_ALPHA);
    if low.None? || high.None? then None else Some((low.value, -high.value))
  }

  lemma {:induction false} NegateCount(v: seq<real>, x: real)
    ensures |Filter(AtMost(-x), Negated(v))| == |Filter(AtLeast(x), v)|
  {
    if v != [] {
      NegateCount(v[1..], x);
      assert Negated(v)[1..] == Negated(v[1..]);
    }
  }

  lemma {:induction false} HalfMirror(s: seq<real>, k: nat)
    requires k < |s|
    ensures Ascending(Negated(s))[k] <= -Ascending(s)[|s| - 1 - k]
  {
    var m := |s| - 1 - k;
    KthAtLeast(s, m);
    NegateCount(s, Ascending(s)[m]);
    KthAtMost(Negated(s), k, -Ascending(s)[m]);
  }

  /** The k-th smallest of the negated values is the k-th largest value, negated. */
  lemma {:induction false} Mirror(s: seq<real>, k: nat)
    requires k < |s|
    ensures Ascending(Negated(s))[k] == -Ascending(s)[|s| - 1 - k]
  {
    HalfMirror(s, k);
    OtherHalf(s, k, Ascending(Negated(s))[k]);
  }

  lemma {:induction false} OtherHalf(s: seq<real>, k: nat, y: real)
    requires k < |s| && y == Ascending(Negated(s))[k]
    ensures -y <= Ascending(s)[|s| - 1 - k]
  {
    hide Filter;
    KthAtMost(Negated(s), k, y);
    NegateCount(s, -y);
    hide Ascending;
    if -y > Ascending(s)[|s| - 1 - k] {
      KthAbove(s, |s| - 1 - k, -y);
      assert false;
    }
  }

  lemma {:induction false} DrawNegated(v: seq<real>, draw: seq<nat>)
    requires forall j :: 0 <= j < |draw| ==> draw[j] < |v|
    ensures DrawSum(Negated(v), draw) == -DrawSum(v, draw)
  {
    if draw != [] {
      DrawNegated(v, draw[..|draw| - 1]);
    }
  }

  lemma {:induction false} DivNegated(a: real, n: real)
    requires n > 0.0
    ensures (-a) / n == -(a / n)
  {
    assert -(a / n) * n == -a;
  }

  lemma {:induction false} DefaultIndexLow(iters: nat)
    requires iters > 0
    ensures 2 * Index(DEFAULT_ALPHA, iters) <= iters - 1
  {
    var x := DEFAULT_ALPHA * iters as real;
    assert x.Floor as real <= x;
  }

  /** With the same seed the negated call resamples the same indices: the floor is
      two mirrored order statistics of one sorted bootstrap vector. */
  lemma {:induction false} MirrorLaw(rng: Rng, values: seq<real>, iters: nat, seed: int)
    requires values != [] && iters > 0
    ensures var sorted := Ascending(BootMeans(values, rng(seed, |values|, iters)));
            var idx := Index(DEFAULT_ALPHA, iters);
            TwoSidedFloor(rng, values, iters, seed) == Some((sorted[idx], sorted[iters - 1 - idx]))
  {
    var table := rng(seed, |values|, iters);
    var means := BootMeans(values, table);
    forall i | 0 <= i < iters
      ensures BootMeans(Negated(values), table)[i] == -means[i]
    {
      DrawNegated(values, table[i]);
      DivNegated(DrawSum(values, table[i]), |values| as real);
    }
    assert BootMeans(Negated(values), table) == Negated(means);
    Mirror(means, Index(DEFAULT_ALPHA, iters));
  }

  /** The floor is an interval, and it lies within the range of the values. */
  lemma {:induction false} FloorIsInterval(rng: Rng, values: seq<real>, iters: nat, seed: int, lo: real, hi: real)
    requires values != [] && iters > 0 && Within(values, lo, hi)
    ensures TwoSidedFloor(rng, values, iters, seed).Some?
    ensures var (low, high) := TwoSidedFloor(rng, values, iters, seed).value; lo <= low <= high <= hi
  {
    var table := rng(seed, |values|, iters);
    MirrorLaw(rng, values, iters, seed);
    DefaultIndexLow(iters);
    AscendingSorted(BootMeans(values, table));
    BootMeansWithin(values, table, lo, hi);
    SortWithin(BootMeans(values, table), lo, hi);
  }

  // ---- Which mean the bound is ----

  /** For alpha in [0, 1), at most alpha * iters of the bootstrap means are below the
      bound, and more than alpha * iters are at or below it. */
  lemma {:induction false} LowerCiRank(rng: Rng, values: seq<real>, iters: nat, seed: int, alpha: real, b: real)
    requires values != [] && iters > 0 && 0.0 <= alpha < 1.0
    requires LowerCi(rng, values, iters, seed, alpha) == Some(b)
    ensures var means := BootMeans(values, rng(seed, |values|, iters));
            && |Filter(Under(b), means)| as real <= alpha * iters as real
            && |Filter(AtMost(b), means)| as real > alpha * iters as real
  {
    var means := BootMeans(values, rng(seed, |values|, iters));
    FloorIndex(alpha, iters);
    RankOfKth(means, Index(alpha, iters), b);
  }

  lemma {:induction false} FloorIndex(alpha: real, iters: nat)
    requires iters > 0 && 0.0 <= alpha < 1.0
    ensures Index(alpha, iters) as real <= alpha * iters as real < Index(alpha, iters) as real + 1.0
  {
    var n := iters as real;
    assert 0.0 <= alpha * n && (1.0 - alpha) * n > 0.0;
    assert alpha * n < n;
    var x := alpha * n;
    assert x.Floor as real <= x < x.Floor as real + 1.0;
    assert 0 <= x.Floor < iters;
  }

  /** At most k elements are below the k-th smallest, and more than k are at or below it. */
  lemma {:induction false} RankOfKth(s: seq<real>, k: nat, b: real)
    requires k < |s| && b == Ascending(s)[k]
    ensures |Filter(Under(b), s)| <= k < |Filter(AtMost(b), s)|
  {
    var a := Ascending(s);
    var below, upTo := Under(b), AtMost(b);
    AscendingSorted(s);
    SortCount(below, s);
    SortCount(upTo, s);
    SplitCount(below, a, k);
    NoneCount(below, a[k..]);
    SplitCount(upTo, a, k + 1);
    AllCount(upTo, a[..k + 1]);
  }

  /** The same from the other end. */
  lemma {:induction false} RankFromAbove(s: seq<real>, k: nat, b: real)
    requires k < |s| && b == Ascending(s)[|s| - 1 - k]
    ensures |Filter(Over(b), s)| <= k < |Filter(AtLeast(b), s)|
  {
    var a := Ascending(s);
    var m := |s| - 1 - k;
    var above, fromOn := Over(b), AtLeast(b);
    AscendingSorted(s);
    SortCount(above, s);
    SortCount(fromOn, s);
    SplitCount(above, a, m + 1);
    NoneCount(above, a[..m + 1]);
    SplitCount(fromOn, a, m);
    AllCount(fromOn, a[m..]);
  }

  /** An alpha of 0 or less gives the smallest mean, one of 1 or more the largest. */
  lemma {:induction false} LowerCiEnds(rng: Rng, values: seq<real>, iters: nat, seed: int, alpha: real, b: real, i: nat)
    requires values != [] && i < iters
    requires LowerCi(rng, values, iters, seed, alpha) == Some(b)
    ensures var means := BootMeans(values, rng(seed, |values|, iters));
            && (alpha <= 0.0 ==> b <= means[i])
            && (alpha >= 1.0 ==> means[i] <= b)
            && b in means
  {
    var means := BootMeans(values, rng(seed, |values|, iters));
    EndIndex(alpha, iters);
    AscendingSorted(means);
    SortMembers(means, Less);
    assert means[i] in Ascending(means) && Ascending(means)[Index(alpha, iters)] in Ascending(means);
    var j :| 0 <= j < iters && Ascending(means)[j] == means[i];
  }

  lemma {:induction false} EndIndex(alpha: real, iters: nat)
    requires iters > 0
    ensures alpha <= 0.0 ==> Index(alpha, iters) == 0
    ensures alpha >= 1.0 ==> Index(alpha, iters) == iters - 1
  {
    var n := iters as real;
    if alpha <= 0.0 {
      assert alpha * n <= 0.0;
    } else if alpha >= 1.0 {
      assert (alpha - 1.0) * n >= 0.0;
      assert alpha * n >= n;
    }
  }

  /** A twentieth of the bootstrap means at most lies below the floor's low end, and
      more than that lies at or below it; and so at its high end. */
  lemma {:induction false} FloorRanks(rng: Rng, values: seq<real>, iters: nat, seed: int, low: real, high: real)
    requires values != [] && iters > 0
    requires TwoSidedFloor(rng, values, iters, seed) == Some((low, high))
    ensures var means := BootMeans(values, rng(seed, |values|, iters));
            && 20 * |Filter(Under(low), means)| <= iters < 20 * |Filter(AtMost(low), means)|
            && 20 * |Filter(Over(high), means)| <= iters < 20 * |Filter(AtLeast(high), means)|
  {
    var means := BootMeans(values, rng(seed, |values|, iters));
    var idx := Index(DEFAULT_ALPHA, iters);
    MirrorLaw(rng, values, iters, seed);
    TwentiethIndex(iters);
    RankOfKth(means, idx, low);
    RankFromAbove(means, idx, high);
  }

  lemma {:induction false} TwentiethIndex(iters: nat)
    requires iters > 0
    ensures 20 * Index(DEFAULT_ALPHA, iters) <= iters < 20 * (Index(DEFAULT_ALPHA, iters) + 1)
  {
    FloorIndex(DEFAULT_ALPHA, iters);
    var k := Index(DEFAULT_ALPHA, iters);
    assert DEFAULT_ALPHA * iters as real * 20.0 == iters as real;
    assert k as real * 20.0 <= iters as real < (k as real + 1.0) * 20.0;
  }

  // ---- What is averaged ----

  function Times(c: nat, v: real): real {
    c as real * v
  }

  lemma {:induction false} OnceMore(c: nat, v: real)
    ensures Times(c + 1, v) == Times(c, v) + v
  {
  }

  /** Each of the first n values, times how often it was drawn. */
  ghost function Weighted(values: seq<real>, draw: seq<nat>, n: nat): real
    requires n <= |values|
  {
    if n == 0 then 0.0 else Weighted(values, draw, n - 1) + Times(multiset(draw)[n - 1], values[n - 1])
  }

  lemma {:induction false} WeightedSnoc(values: seq<real>, draw: seq<nat>, d: nat, n: nat)
    requires n <= |values|
    ensures Weighted(values, draw + [d], n) == Weighted(values, draw, n) + if d < n then values[d] else 0.0
  {
    hide Times;
    if n > 0 {
      WeightedSnoc(values, draw, d, n - 1);
      var c := multiset(draw)[n - 1];
      assert multiset(draw + [d])[n - 1] == c + if d == n - 1 then 1 else 0;
      OnceMore(c, values[n - 1]);
    }
  }

  /** The mean of a resampling is that of the values, each weighed by how often it was drawn. */
  lemma {:induction false} DrawMeanWeighs(values: seq<real>, draw: seq<nat>)
    requires |draw| == |values| > 0
    requires forall j :: 0 <= j < |draw| ==> draw[j] < |values|
    ensures DrawMean(values, draw) * |values| as real == Weighted(values, draw, |values|)
  {
    DrawSumWeighs(values, draw);
  }

  lemma {:induction false} DrawSumWeighs(values: seq<real>, draw: seq<nat>)
    requires forall j :: 0 <= j < |draw| ==> draw[j] < |values|
    ensures DrawSum(values, draw) == Weighted(values, draw, |values|)
  {
    if draw == [] {
      NothingDrawn(values, |values|);
    } else {
      var n := |draw| - 1;
      DrawSumWeighs(values, draw[..n]);
      WeightedSnoc(values, draw[..n], draw[n], |values|);
      assert draw == draw[..n] + [draw[n]];
    }
  }

  lemma {:induction false} NothingDrawn(values: seq<real>, n: nat)
    requires n <= |values|
    ensures Weighted(values, [], n) == 0.0
  {
    if n > 0 {
      NothingDrawn(values, n - 1);
    }
  }
}
