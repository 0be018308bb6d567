/** The cluster-stratified bootstrap bound (bench/fhrr_verdict_recall_delta.py):
    whole clusters are resampled, the bound is a quantile of the deltas of the
    resamplings, and a caller makes it two-sided by turning signs. */
module ClusterBootstrap {
  import opened Dicts
  import opened Bootstrap

  type Cluster = nat

  /** (baseline_served, arm_served) of one query. */
  datatype Paired = Paired(baseline: real, arm: real)

  datatype Result = Bound(value: real) | ValueError | IndexError

  function BaselineSum(ps: seq<Paired>): real {
    if ps == [] then 0.0 else BaselineSum(ps[..|ps| - 1]) + ps[|ps| - 1].baseline
  }

  function ArmSum(ps: seq<Paired>): real {
    if ps == [] then 0.0 else ArmSum(ps[..|ps| - 1]) + ps[|ps| - 1].arm
  }

  /** conditional_recall_delta: mean of the arm minus mean of the baseline. */
  function RecallDelta(ps: seq<Paired>): real {
    if ps == [] then 0.0 else ArmSum(ps) / |ps| as real - BaselineSum(ps) / |ps| as real
  }

  /** The pairs of one cluster, in order. */
  function RowsOf(ps: seq<Paired>, clusters: seq<Cluster>, c: Cluster): seq<Paired>
    requires |ps| == |clusters|
  {
    if ps == [] then []
    else
      var n := |ps| - 1;
      RowsOf(ps[..n], clusters[..n], c) + if clusters[n] == c then [ps[n]] else []
  }

  /** The rows of the chosen clusters, laid end to end. */
  function Resampled(groups: seq<seq<Paired>>, chosen: seq<nat>): seq<Paired>
    requires forall i :: 0 <= i < |chosen| ==> chosen[i] < |groups|
  {
    if chosen == [] then [] else Resampled(groups, chosen[..|chosen| - 1]) + groups[chosen[|chosen| - 1]]
  }

  /** Where the alpha-quantile falls among the order statistics. */
  function Position(s: seq<real>, alpha: real): real {
    alpha * (|s| - 1) as real
  }

  lemma {:induction false} PositionWithin(s: seq<real>, alpha: real)
    requires s != [] && 0.0 <= alpha <= 1.0
    ensures 0.0 <= Position(s, alpha) <= (|s| - 1) as real
  {
    Part(alpha, (|s| - 1) as real);
  }

  lemma {:induction false} Part(alpha: real, n: real)
    requires n >= 0.0 && 0.0 <= alpha <= 1.0
    ensures 0.0 <= alpha * n <= n
  {
    assert (1.0 - alpha) * n >= 0.0;
  }

  /** Linear interpolation in `a` at the position h. */
  function Interpolated(a: seq<real>, h: real): real
    requires 0.0 <= h <= (|a| - 1) as real
  {
    var i := h.Floor;
    if i + 1 < |a| then a[i] + (h - i as real) * (a[i + 1] - a[i]) else a[|a| - 1]
  }

  /** np.quantile: between the neighbouring order statistics. */
  function Quantile(s: seq<real>, alpha: real): real
    requires s != [] && 0.0 <= alpha <= 1.0
  {
    PositionWithin(s, alpha);
    Interpolated(Ascending(s), Position(s, alpha))
  }

  /** The row lists of the clusters, in order of first appearance. */
  function Groups(ps: seq<Paired>, clusters: seq<Cluster>): (r: seq<seq<Paired>>)
    requires |ps| == |clusters|
    ensures |r| == |FirstSeen(clusters)|
    ensures forall i :: 0 <= i < |r| ==> r[i] == RowsOf(ps, clusters, FirstSeen(clusters)[i])
  {
    var keys := FirstSeen(clusters);
    seq(|keys|, i requires 0 <= i < |keys| => RowsOf(ps, clusters, keys[i]))
  }

  function BootDeltas(groups: seq<seq<Paired>>, table: seq<seq<nat>>): (r: seq<real>)
    requires IsTable(table, |groups|, |table|)
    ensures |r| == |table| && forall i :: 0 <= i < |r| ==> r[i] == RecallDelta(Resampled(groups, table[i]))
  {
    seq(|table|, i requires 0 <= i < |table| => RecallDelta(Resampled(groups, table[i])))
  }

  // ---- The method ----

  ghost predicate GroupedBy(byCluster: Dict<Cluster, seq<Paired>>, ps: seq<Paired>, clusters: seq<Cluster>)
    requires |ps| == |clusters|
  {
    && Wf(byCluster)
    && byCluster.keys == FirstSeen(clusters)
    && (forall c :: c in byCluster.at ==> byCluster.at[c] == RowsOf(ps, clusters, c))
  }

  lemma {:induction false} GroupedSnoc(
    byCluster: Dict<Cluster, seq<Paired>>, ps: seq<Paired>, clusters: seq<Cluster>, p: Paired, c: Cluster)
    requires |ps| == |clusters| && GroupedBy(byCluster, ps, clusters)
    ensures GroupedBy(Put(byCluster, c, GetOr(byCluster, c, []) + [p]), ps + [p], clusters + [c])
  {
    assert (ps + [p])[..|ps|] == ps && (clusters + [c])[..|ps|] == clusters;
    FirstSeenSnoc(clusters, c);
    assert c in byCluster.at <==> c in byCluster.keys;
    if c !in clusters {
      NoRows(ps, clusters, c);
    }
    forall d ensures RowsOf(ps + [p], clusters + [c], d) == RowsOf(ps, clusters, d) + if c == d then [p] else [] {
    }
    hide FirstSeen;
    hide RowsOf;
  }

  lemma {:induction false} NoRows(ps: seq<Paired>, clusters: seq<Cluster>, c: Cluster)
    requires |ps| == |clusters| && c !in clusters
    ensures RowsOf(ps, clusters, c) == []
  {
    if ps != [] {
      NoRows(ps[..|ps| - 1], clusters[..|ps| - 1], c);
      assert clusters[|ps| - 1] in clusters;
    }
  }

  method ClusterStratifiedBootstrapCi(
    rng: Rng, ps: seq<Paired>, clusters: seq<Cluster>, iters: int, alpha: real, seed: int) returns (r: Result)
    ensures r.ValueError? <==> |ps| != |clusters| || (ps != [] && (iters < 0 || !(0.0 <= alpha <= 1.0)))
    ensures r.IndexError? <==> |ps| == |clusters| && ps != [] && iters == 0 && 0.0 <= alpha <= 1.0
    ensures |ps| == |clusters| && ps == [] ==> r == Bound(0.0)
    ensures r.Bound? && ps != [] ==>
              var groups := Groups(ps, clusters);
              r.value == Quantile(BootDeltas(groups, rng(seed, |groups|, iters)), alpha)
  {
    hide FirstSeen;
    hide RowsOf;
    hide Quantile;
    hide BootDeltas;
    if |ps| != |clusters| {
      return ValueError;
    }
    if ps == [] {
      return Bound(0.0);
    }
    var byCluster := GroupByCluster(ps, clusters);
    SomeCluster(ps, clusters);
    var nClusters := |byCluster.keys|;
    if iters < 0 {
      return ValueError;
    }
    var table := rng(seed, nClusters, iters);
    var bootDeltas := Redraw(byCluster, table, ps, clusters);
    if !(0.0 <= alpha <= 1.0) {
      return ValueError;
    }
    if iters == 0 {
      return IndexError;  // np.quantile, of no values
    }
    return Bound(Quantile(bootDeltas, alpha));
  }

  /** The resampling loop. */
  method Redraw(
    byCluster: Dict<Cluster, seq<Paired>>, table: seq<seq<nat>>, ghost ps: seq<Paired>, ghost clusters: seq<Cluster>)
    returns (deltas: seq<real>)
    requires |ps| == |clusters| && GroupedBy(byCluster, ps, clusters)
    requires IsTable(table, |byCluster.keys|, |table|)
    ensures deltas == BootDeltas(Groups(ps, clusters), table)
  {
    hide FirstSeen;
    hide RowsOf;
    hide Resampled;
    hide RecallDelta;
    hide Groups;
    ghost var groups := Groups(ps, clusters);
    var bootDeltas := new real[|table|](i => 0.0);
    for i := 0 to |table|
      invariant forall j :: 0 <= j < i ==> bootDeltas[j] == RecallDelta(Resampled(groups, table[j]))
    {
      var resampled := Resample(byCluster, table[i], ps, clusters);
      bootDeltas[i] := RecallDelta(resampled);
    }
    deltas := bootDeltas[..];
  }

  /** by_cluster.setdefault(cid, []).append(pair) */
  method GroupByCluster(ps: seq<Paired>, clusters: seq<Cluster>) returns (byCluster: Dict<Cluster, seq<Paired>>)
    requires |ps| == |clusters|
    ensures GroupedBy(byCluster, ps, clusters)
  {
    hide FirstSeen;
    hide RowsOf;
    byCluster := Dicts.Empty();
    NothingGrouped();
    for i := 0 to |ps|
      invariant GroupedBy(byCluster, ps[..i], clusters[..i])
    {
      GroupedSnoc(byCluster, ps[..i], clusters[..i], ps[i], clusters[i]);
      TakeNext(ps, i);
      TakeNext(clusters, i);
      byCluster := Put(byCluster, clusters[i], GetOr(byCluster, clusters[i], []) + [ps[i]]);
    }
    TakeAll(ps);
    TakeAll(clusters);
  }

  lemma {:induction false} TakeAll<T>(s: seq<T>)
    ensures s[..|s|] == s
  {
  }

  lemma {:induction false} TakeNext<T>(s: seq<T>, i: nat)
    requires i < |s|
    ensures s[..i + 1] == s[..i] + [s[i]]
  {
  }

  lemma {:induction false} NothingGrouped()
    ensures GroupedBy(Dicts.Empty(), [], [])
  {
  }

  /** resampled.extend(...) over the chosen clusters */
  method Resample(
    byCluster: Dict<Cluster, seq<Paired>>, chosen: seq<nat>, ghost ps: seq<Paired>, ghost clusters: seq<Cluster>)
    returns (resampled: seq<Paired>)
    requires |ps| == |clusters| && GroupedBy(byCluster, ps, clusters)
    requires forall i :: 0 <= i < |chosen| ==> chosen[i] < |byCluster.keys|
    ensures resampled == Resampled(Groups(ps, clusters), chosen)
  {
    resampled := [];
    for i := 0 to |chosen|
      invariant resampled == Resampled(Groups(ps, clusters), chosen[..i])
    {
      assert chosen[..i + 1][..i] == chosen[..i];
      var key := byCluster.keys[chosen[i]];
      assert key in byCluster.keys;
      resampled := resampled + byCluster.at[key];
    }
    assert chosen[..|chosen|] == chosen;
  }

  // ---- Every group has rows, and every row is in a group ----

  lemma {:induction false} SomeCluster(ps: seq<Paired>, clusters: seq<Cluster>)
    requires |ps| == |clusters| && ps != []
    ensures |FirstSeen(clusters)| > 0
  {
    assert clusters[0] in FirstSeen(clusters);
  }

  lemma {:induction false} RowsNonempty(ps: seq<Paired>, clusters: seq<Cluster>, c: Cluster)
    requires |ps| == |clusters| && c in clusters
    ensures RowsOf(ps, clusters, c) != []
  {
    var n := |ps| - 1;
    if clusters[n] != c {
      assert clusters == clusters[..n] + [clusters[n]];
      RowsNonempty(ps[..n], clusters[..n], c);
    }
  }

  // ---- The bound ----

  /** Row by row, arm minus baseline, added up. */
  function Gain(ps: seq<Paired>): real {
    if ps == [] then 0.0
    else
      var last := ps[|ps| - 1];
      Gain(ps[..|ps| - 1]) + (last.arm - last.baseline)
  }

  lemma {:induction false} GainIsSums(ps: seq<Paired>)
    ensures Gain(ps) == ArmSum(ps) - BaselineSum(ps)
  {
    if ps != [] {
      GainIsSums(ps[..|ps| - 1]);
    }
  }

  /** The difference of the two means is the mean of the differences. */
  lemma {:induction false} DeltaIsMeanGain(ps: seq<Paired>)
    requires ps != []
    ensures RecallDelta(ps) * |ps| as real == Gain(ps)
    ensures RecallDelta(ps) == Gain(ps) / |ps| as real
  {
    var n := |ps| as real;
    GainIsSums(ps);
    assert ArmSum(ps) / n * n == ArmSum(ps) && BaselineSum(ps) / n * n == BaselineSum(ps);
    DivMinus(ArmSum(ps), BaselineSum(ps), n);
  }

  lemma {:induction false} DivMinus(a: real, b: real, n: real)
    requires n > 0.0
    ensures a / n - b / n == (a - b) / n
  {
    assert (a / n - b / n) * n == a - b;
  }

  lemma {:induction false} GainAppend(a: seq<Paired>, b: seq<Paired>)
    ensures Gain(a + b) == Gain(a) + Gain(b)
  {
    if b == [] {
      assert a + b == a;
    } else {
      GainAppend(a, b[..|b| - 1]);
      assert (a + b)[..|a + b| - 1] == a + b[..|b| - 1];
    }
  }

  /** Each cluster's mean lies between lo and hi. */
  ghost predicate MeansWithin(groups: seq<seq<Paired>>, lo: real, hi: real) {
    forall i :: 0 <= i < |groups| ==> groups[i] != [] && lo <= RecallDelta(groups[i]) <= hi
  }

  lemma {:induction false} GroupGain(group: seq<Paired>, lo: real, hi: real)
    requires group != [] && lo <= RecallDelta(group) <= hi
    ensures lo * |group| as real <= Gain(group) <= hi * |group| as real
  {
    DeltaIsMeanGain(group);
  }

  /** The mean of arm minus baseline is within lo and hi, without dividing. */
  ghost predicate GainWithin(ps: seq<Paired>, lo: real, hi: real) {
    lo * |ps| as real <= Gain(ps) <= hi * |ps| as real
  }

  lemma {:induction false} ResampledGain(groups: seq<seq<Paired>>, chosen: seq<nat>, lo: real, hi: real)
    requires MeansWithin(groups, lo, hi) && forall i :: 0 <= i < |chosen| ==> chosen[i] < |groups|
    ensures GainWithin(Resampled(groups, chosen), lo, hi)
    ensures chosen != [] ==> Resampled(groups, chosen) != []
  {
    if chosen == [] {
      NothingWithin(lo, hi);
    } else {
      hide GainWithin;
      hide RecallDelta;
      var init, g := Resampled(groups, chosen[..|chosen| - 1]), groups[chosen[|chosen| - 1]];
      ResampledGain(groups, chosen[..|chosen| - 1], lo, hi);
      JoinGain(init, g, lo, hi);
    }
  }

  lemma {:induction false} NothingWithin(lo: real, hi: real)
    ensures GainWithin([], lo, hi)
  {
  }

  lemma {:induction false} JoinGain(init: seq<Paired>, g: seq<Paired>, lo: real, hi: real)
    requires GainWithin(init, lo, hi) && g != [] && lo <= RecallDelta(g) <= hi
    ensures GainWithin(init + g, lo, hi)
  {
    GroupGain(g, lo, hi);
    GainAppend(init, g);
    hide Gain;
    Distribute(lo, |init|, |g|);
    Distribute(hi, |init|, |g|);
  }

  lemma {:induction false} Distribute(x: real, a: nat, b: nat)
    ensures x * (a + b) as real == x * a as real + x * b as real
  {
  }

  /** A resampling of clusters averages to a convex combination of their means. */
  lemma {:induction false} ResampledDelta(groups: seq<seq<Paired>>, chosen: seq<nat>, lo: real, hi: real)
    requires MeansWithin(groups, lo, hi) && chosen != []
    requires forall i :: 0 <= i < |chosen| ==> chosen[i] < |groups|
    ensures lo <= RecallDelta(Resampled(groups, chosen)) <= hi
  {
    hide RecallDelta;
    hide GainWithin;
    ResampledGain(groups, chosen, lo, hi);
    MeanWithin(Resampled(groups, chosen), lo, hi);
  }

  lemma {:induction false} MeanWithin(r: seq<Paired>, lo: real, hi: real)
    requires r != [] && GainWithin(r, lo, hi)
    ensures lo <= RecallDelta(r) <= hi
  {
    DeltaIsMeanGain(r);
    DivWithin(Gain(r), lo, hi, |r| as real);
  }

  lemma {:induction false} QuantileWithin(s: seq<real>, alpha: real, lo: real, hi: real)
    requires s != [] && 0.0 <= alpha <= 1.0 && Within(s, lo, hi)
    ensures lo <= Quantile(s, alpha) <= hi
  {
    SortWithin(s, lo, hi);
    AscendingSorted(s);
    PositionWithin(s, alpha);
    InterpolatedWithin(Ascending(s), Position(s, alpha), lo, hi);
  }

  lemma {:induction false} InterpolatedWithin(a: seq<real>, h: real, lo: real, hi: real)
    requires 0.0 <= h <= (|a| - 1) as real && Within(a, lo, hi)
    requires forall i, j :: 0 <= i <= j < |a| ==> a[i] <= a[j]
    ensures lo <= Interpolated(a, h) <= hi
  {
    var i := h.Floor;
    if i + 1 < |a| {
      assert lo <= a[i] <= a[i + 1] <= hi;
      Between(a[i], a[i + 1], h - i as real, Interpolated(a, h));
    } else {
      assert Interpolated(a, h) == a[|a| - 1];
    }
  }

  lemma {:induction false} Between(x: real, y: real, f: real, v: real)
    requires x <= y && 0.0 <= f <= 1.0 && v == x + f * (y - x)
    ensures x <= v <= y
  {
    var d := y - x;
    Part(f, d);
    assert v == x + f * d;
  }

  /** If every cluster's mean of arm minus baseline lies between lo and hi, so does the
      resampled bound, for any cluster sizes and any resampling. */
  lemma {:induction false} BoundBetweenClusterMeans(
    ps: seq<Paired>, clusters: seq<Cluster>, table: seq<seq<nat>>, alpha: real, lo: real, hi: real)
    requires |ps| == |clusters| && ps != [] && table != [] && 0.0 <= alpha <= 1.0
    requires IsTable(table, |FirstSeen(clusters)|, |table|)
    requires forall c :: c in clusters ==> GainWithin(RowsOf(ps, clusters, c), lo, hi)
    ensures lo <= Quantile(BootDeltas(Groups(ps, clusters), table), alpha) <= hi
  {
    hide GainWithin;
    hide RecallDelta;
    hide Quantile;
    var groups := Groups(ps, clusters);
    SomeCluster(ps, clusters);
    forall i | 0 <= i < |groups|
      ensures groups[i] != [] && lo <= RecallDelta(groups[i]) <= hi
    {
      assert FirstSeen(clusters)[i] in clusters;
      RowsNonempty(ps, clusters, FirstSeen(clusters)[i]);
      MeanWithin(groups[i], lo, hi);
    }
    var deltas := BootDeltas(groups, table);
    forall i | 0 <= i < |deltas|
      ensures lo <= deltas[i] <= hi
    {
      ResampledDelta(groups, table[i], lo, hi);
    }
    QuantileWithin(deltas, alpha, lo, hi);
  }

  lemma {:induction false} OneClusterRows(ps: seq<Paired>, clusters: seq<Cluster>, c: Cluster)
    requires |ps| == |clusters| && forall i :: 0 <= i < |clusters| ==> clusters[i] == c
    ensures RowsOf(ps, clusters, c) == ps
  {
    if ps != [] {
      OneClusterRows(ps[..|ps| - 1], clusters[..|ps| - 1], c);
    }
  }

  lemma {:induction false} OwnMean(ps: seq<Paired>)
    requires ps != []
    ensures GainWithin(ps, RecallDelta(ps), RecallDelta(ps)) && RecallDelta(ps) * |ps| as real == Gain(ps)
  {
    DeltaIsMeanGain(ps);
  }

  /** With a single cluster the bound is the plain delta. */
  lemma {:induction false} OneClusterBound(
    ps: seq<Paired>, clusters: seq<Cluster>, table: seq<seq<nat>>, alpha: real, c: Cluster)
    requires |ps| == |clusters| && ps != [] && table != [] && 0.0 <= alpha <= 1.0
    requires forall i :: 0 <= i < |clusters| ==> clusters[i] == c
    requires IsTable(table, |FirstSeen(clusters)|, |table|)
    ensures Quantile(BootDeltas(Groups(ps, clusters), table), alpha) == RecallDelta(ps)
    ensures RecallDelta(ps) * |ps| as real == Gain(ps)
  {
    OneClusterRows(ps, clusters, c);
    OwnMean(ps);
    hide RecallDelta;
    hide GainWithin;
    hide Gain;
    hide Quantile;
    hide BootDeltas;
    BoundBetweenClusterMeans(ps, clusters, table, alpha, RecallDelta(ps), RecallDelta(ps));
  }

  // ---- What is grouped, laid end to end, and interpolated ----

  /** Where the rows of a cluster stand. */
  ghost function Places(clusters: seq<Cluster>, c: Cluster): seq<nat> {
    if clusters == [] then []
    else
      var n := |clusters| - 1;
      Places(clusters[..n], c) + if clusters[n] == c then [n] else []
  }

  lemma {:induction false} PlacesMembers(clusters: seq<Cluster>, c: Cluster, i: nat)
    ensures i in Places(clusters, c) <==> i < |clusters| && clusters[i] == c
  {
    if clusters != [] {
      PlacesMembers(clusters[..|clusters| - 1], c, i);
    }
  }

  lemma {:induction false} PlacesIncrease(clusters: seq<Cluster>, c: Cluster)
    ensures forall i, j :: 0 <= i < j < |Places(clusters, c)| ==> Places(clusters, c)[i] < Places(clusters, c)[j]
  {
    if clusters != [] {
      var n := |clusters| - 1;
      var before := Places(clusters[..n], c);
      PlacesIncrease(clusters[..n], c);
      forall i | 0 <= i < |before|
        ensures before[i] < n
      {
        PlacesMembers(clusters[..n], c, before[i]);
      }
    }
  }

  lemma {:induction false} RowsAtPlaces(ps: seq<Paired>, clusters: seq<Cluster>, c: Cluster, k: nat)
    requires |ps| == |clusters|
    ensures |RowsOf(ps, clusters, c)| == |Places(clusters, c)|
    ensures k < |Places(clusters, c)| ==>
              Places(clusters, c)[k] < |ps| && RowsOf(ps, clusters, c)[k] == ps[Places(clusters, c)[k]]
  {
    if ps != [] {
      RowsAtPlaces(ps[..|ps| - 1], clusters[..|ps| - 1], c, k);
    }
  }

  /** The rows of a cluster are those at its places, in order, and no others. */
  lemma {:induction false} RowsMeaning(ps: seq<Paired>, clusters: seq<Cluster>, c: Cluster) returns (places: seq<nat>)
    requires |ps| == |clusters|
    ensures forall i: nat :: i in places <==> i < |clusters| && clusters[i] == c
    ensures forall i, j :: 0 <= i < j < |places| ==> places[i] < places[j]
    ensures |places| == |RowsOf(ps, clusters, c)|
    ensures forall k :: 0 <= k < |places| ==> places[k] < |ps| && RowsOf(ps, clusters, c)[k] == ps[places[k]]
  {
    places := Places(clusters, c);
    PlacesIncrease(clusters, c);
    forall i: nat ensures i in places <==> i < |clusters| && clusters[i] == c {
      PlacesMembers(clusters, c, i);
    }
    RowsAtPlaces(ps, clusters, c, 0);
    forall k: nat | k < |places|
      ensures places[k] < |ps| && RowsOf(ps, clusters, c)[k] == ps[places[k]]
    {
      RowsAtPlaces(ps, clusters, c, k);
    }
  }

  /** A resampling is the chosen clusters' rows, one after the other. */
  lemma {:induction false} ResampledMeaning(groups: seq<seq<Paired>>, a: seq<nat>, b: seq<nat>)
    requires forall i :: 0 <= i < |a + b| ==> (a + b)[i] < |groups|
    ensures forall i :: 0 <= i < |a| ==> a[i] == (a + b)[i]
    ensures forall i :: 0 <= i < |b| ==> b[i] == (a + b)[|a| + i]
    ensures Resampled(groups, a + b) == Resampled(groups, a) + Resampled(groups, b)
    ensures |a| == 1 ==> Resampled(groups, a) == groups[a[0]]
  {
    assert |a| == 1 ==> a[..0] == [];
    if b == [] {
      assert a + b == a;
    } else {
      assert (a + b)[..|a + b| - 1] == a + b[..|b| - 1];
      ResampledMeaning(groups, a, b[..|b| - 1]);
    }
  }

  /** The quantile at (k + f) / (n - 1) is the fraction f of the way from the k-th of n
      order statistics to the next; at f = 0 it is the k-th. */
  lemma {:induction false} QuantileMeaning(s: seq<real>, k: nat, f: real, alpha: real)
    requires k < |s| && 0.0 <= f < 1.0 && (f > 0.0 ==> k + 1 < |s|)
    requires 0.0 <= alpha <= 1.0 && alpha * (|s| - 1) as real == k as real + f
    ensures Quantile(s, alpha) ==
            if f == 0.0 then Ascending(s)[k] else (1.0 - f) * Ascending(s)[k] + f * Ascending(s)[k + 1]
  {
    PositionWithin(s, alpha);
    InterpolatedMeaning(Ascending(s), k, f);
  }

  lemma {:induction false} InterpolatedMeaning(a: seq<real>, k: nat, f: real)
    requires k < |a| && 0.0 <= f < 1.0 && (f > 0.0 ==> k + 1 < |a|)
    ensures Interpolated(a, k as real + f) == if f == 0.0 then a[k] else (1.0 - f) * a[k] + f * a[k + 1]
  {
    var h := k as real + f;
    assert h.Floor == k;
    if k + 1 < |a| {
      OnTheWay(a[k], a[k + 1], f);
    }
  }

  lemma {:induction false} OnTheWay(x: real, y: real, f: real)
    ensures x + f * (y - x) == (1.0 - f) * x + f * y
  {
  }

  // ---- The two-sided interval a caller derives ----

  /** Both columns with their signs turned. */
  function Signed(ps: seq<Paired>): (r: seq<Paired>)
    ensures |r| == |ps| && forall i :: 0 <= i < |r| ==> r[i] == Paired(-ps[i].baseline, -ps[i].arm)
  {
    seq(|ps|, i requires 0 <= i < |ps| => Paired(-ps[i].baseline, -ps[i].arm))
  }

  lemma {:induction false} SignedAppend(a: seq<Paired>, b: seq<Paired>)
    ensures Signed(a + b) == Signed(a) + Signed(b)
  {
  }

  lemma {:induction false} SignedInit(ps: seq<Paired>)
    requires ps != []
    ensures Signed(ps)[..|ps| - 1] == Signed(ps[..|ps| - 1])
  {
  }

  lemma {:induction false} SignedSums(ps: seq<Paired>)
    ensures ArmSum(Signed(ps)) == -ArmSum(ps) && BaselineSum(Signed(ps)) == -BaselineSum(ps)
  {
    if ps != [] {
      SignedInit(ps);
      SignedSums(ps[..|ps| - 1]);
    }
  }

  lemma {:induction false} SignedDelta(ps: seq<Paired>)
    ensures RecallDelta(Signed(ps)) == -RecallDelta(ps)
  {
    if ps != [] {
      SignedSums(ps);
      DivNegated(ArmSum(ps), |ps| as real);
      DivNegated(BaselineSum(ps), |ps| as real);
    }
  }

  lemma {:induction false} SignedRows(ps: seq<Paired>, clusters: seq<Cluster>, c: Cluster)
    requires |ps| == |clusters|
    ensures RowsOf(Signed(ps), clusters, c) == Signed(RowsOf(ps, clusters, c))
  {
    if ps != [] {
      var n := |ps| - 1;
      SignedInit(ps);
      SignedRows(ps[..n], clusters[..n], c);
      SignedAppend(RowsOf(ps[..n], clusters[..n], c), if clusters[n] == c then [ps[n]] else []);
    }
  }

  lemma {:induction false} SignedResampled(g: seq<seq<Paired>>, h: seq<seq<Paired>>, chosen: seq<nat>)
    requires |g| == |h| && forall i :: 0 <= i < |g| ==> h[i] == Signed(g[i])
    requires forall i :: 0 <= i < |chosen| ==> chosen[i] < |g|
    ensures Resampled(h, chosen) == Signed(Resampled(g, chosen))
  {
    if chosen != [] {
      SignedResampled(g, h, chosen[..|chosen| - 1]);
      SignedAppend(Resampled(g, chosen[..|chosen| - 1]), g[chosen[|chosen| - 1]]);
    }
  }

  /** Signed outcomes, resampled alike, give the negated deltas. */
  lemma {:induction false} SignedDeltas(g: seq<seq<Paired>>, h: seq<seq<Paired>>, table: seq<seq<nat>>)
    requires |g| == |h| && forall i :: 0 <= i < |g| ==> h[i] == Signed(g[i])
    requires IsTable(table, |g|, |table|)
    ensures BootDeltas(h, table) == Negated(BootDeltas(g, table))
  {
    forall i | 0 <= i < |table|
      ensures BootDeltas(h, table)[i] == -BootDeltas(g, table)[i]
    {
      SignedResampled(g, h, table[i]);
      SignedDelta(Resampled(g, table[i]));
    }
  }

  /** Reading the mirrored list at h is reading the list as far from its other end. */
  lemma {:induction false} InterpolatedMirror(a: seq<real>, b: seq<real>, h: real)
    requires |a| == |b| && 0.0 <= h <= (|a| - 1) as real
    requires forall k :: 0 <= k < |a| ==> b[k] == -a[|a| - 1 - k]
    ensures Interpolated(b, h) == -Interpolated(a, (|a| - 1) as real - h)
  {
    var i, n := h.Floor, |a|;
    var f := h - i as real;
    InterpolatedMeaning(b, i, f);
    if f == 0.0 {
      InterpolatedMeaning(a, n - 1 - i, 0.0);
    } else {
      InterpolatedMeaning(a, n - 2 - i, 1.0 - f);
      Across(a[n - 2 - i], a[n - 1 - i], f);
      assert (n - 2 - i) as real + (1.0 - f) == (n - 1) as real - h;
    }
    hide Interpolated;
  }

  lemma {:induction false} Across(x: real, y: real, f: real)
    ensures (1.0 - f) * -y + f * -x == -((1.0 - (1.0 - f)) * x + (1.0 - f) * y)
  {
  }

  lemma {:induction false} InterpolatedMonotone(a: seq<real>, h: real, g: real)
    requires 0.0 <= h <= g <= (|a| - 1) as real
    requires forall i, j :: 0 <= i <= j < |a| ==> a[i] <= a[j]
    ensures Interpolated(a, h) <= Interpolated(a, g)
  {
    var i, j := h.Floor, g.Floor;
    if i + 1 < |a| {
      Between(a[i], a[i + 1], h - i as real, Interpolated(a, h));
      if j + 1 < |a| {
        Between(a[j], a[j + 1], g - j as real, Interpolated(a, g));
      }
      if i == j {
        Further(a[i + 1] - a[i], h - i as real, g - i as real);
      } else {
        assert a[i + 1] <= a[j];
      }
    }
  }

  lemma {:induction false} Further(d: real, f: real, g: real)
    requires d >= 0.0 && f <= g
    ensures f * d <= g * d
  {
  }

  /** The alpha-quantile of the negated values is the negated (1 - alpha)-quantile. */
  lemma {:induction false} QuantileMirror(s: seq<real>, alpha: real)
    requires s != [] && 0.0 <= alpha <= 1.0
    ensures Quantile(Negated(s), alpha) == -Quantile(s, 1.0 - alpha)
  {
    hide Interpolated;
    PositionWithin(s, alpha);
    PositionMirror(alpha, (|s| - 1) as real);
    AscendingMirror(s);
    var h := Position(s, alpha);
    assert Position(Negated(s), alpha) == h;
    assert Position(s, 1.0 - alpha) == (|s| - 1) as real - h;
    InterpolatedMirror(Ascending(s), Ascending(Negated(s)), h);
  }

  lemma {:induction false} AscendingMirror(s: seq<real>)
    ensures forall k :: 0 <= k < |s| ==> Ascending(Negated(s))[k] == -Ascending(s)[|s| - 1 - k]
  {
    forall k | 0 <= k < |s|
      ensures Ascending(Negated(s))[k] == -Ascending(s)[|s| - 1 - k]
    {
      Mirror(s, k);
    }
  }

  lemma {:induction false} PositionMirror(alpha: real, n: real)
    ensures (1.0 - alpha) * n == n - alpha * n
  {
  }

  /** The caller's [ci(outcomes), -ci(signed outcomes)] runs from the alpha- to the
      (1 - alpha)-quantile of the same resampled deltas; up to alpha = 1/2 it is an interval. */
  lemma {:induction false} TwoSidedInterval(ps: seq<Paired>, clusters: seq<Cluster>, table: seq<seq<nat>>, alpha: real)
    requires |ps| == |clusters| && ps != [] && table != [] && 0.0 <= alpha <= 1.0
    requires IsTable(table, |FirstSeen(clusters)|, |table|)
    ensures var low := Quantile(BootDeltas(Groups(ps, clusters), table), alpha);
            var high := -Quantile(BootDeltas(Groups(Signed(ps), clusters), table), alpha);
            && high == Quantile(BootDeltas(Groups(ps, clusters), table), 1.0 - alpha)
            && (alpha <= 0.5 ==> low <= high)
  {
    var g, h := Groups(ps, clusters), Groups(Signed(ps), clusters);
    forall i | 0 <= i < |g|
      ensures h[i] == Signed(g[i])
    {
      SignedRows(ps, clusters, FirstSeen(clusters)[i]);
    }
    SignedDeltas(g, h, table);
    var s := BootDeltas(g, table);
    QuantileMirror(s, alpha);
    if alpha <= 0.5 {
      QuantileMonotone(s, alpha, 1.0 - alpha);
    }
  }

  lemma {:induction false} QuantileMonotone(s: seq<real>, alpha: real, beta: real)
    requires s != [] && 0.0 <= alpha <= beta <= 1.0
    ensures Quantile(s, alpha) <= Quantile(s, beta)
  {
    AscendingSorted(s);
    PositionWithin(s, alpha);
    PositionWithin(s, beta);
    Further((|s| - 1) as real, alpha, beta);
    InterpolatedMonotone(Ascending(s), Position(s, alpha), Position(s, beta));
  }
}
