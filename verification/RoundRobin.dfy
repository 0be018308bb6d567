/** The probe order of bench/gc_live_probe.py: full passes over the cues, each in
    some shuffled order, cut to length. */
module RoundRobin {
  import opened Arithmetic
  import opened Dicts

  datatype Cue = Cue(band: string, text: string)

  datatype Band = Band(name: string, cues: seq<string>)

  // ---- _flatten_cues ----

  function BandCues(b: Band, k: nat): (r: seq<Cue>)
    requires k <= |b.cues|
    ensures |r| == k && forall i :: 0 <= i < k ==> r[i] == Cue(b.name, b.cues[i])
  {
    seq(k, i requires 0 <= i < k => Cue(b.name, b.cues[i]))
  }

  function Flattened(bands: seq<Band>): seq<Cue> {
    if bands == [] then []
    else Flattened(bands[..|bands| - 1]) + BandCues(bands[|bands| - 1], |bands[|bands| - 1].cues|)
  }

  method FlattenCues(bands: seq<Band>) returns (flat: seq<Cue>)
    ensures flat == Flattened(bands)
  {
    flat := [];
    for i := 0 to |bands|
      invariant flat == Flattened(bands[..i])
    {
      assert bands[..i + 1][..i] == bands[..i];
      var b := bands[i];
      ghost var before := flat;
      for j := 0 to |b.cues|
        invariant flat == before + BandCues(b, j)
      {
        assert BandCues(b, j + 1) == BandCues(b, j) + [Cue(b.name, b.cues[j])];
        flat := flat + [Cue(b.name, b.cues[j])];
      }
    }
    assert bands[..|bands|] == bands;
  }

  /** Band after band. */
  lemma {:induction false} FlattenedOrder(a: seq<Band>, b: seq<Band>)
    ensures Flattened(a + b) == Flattened(a) + Flattened(b)
  {
    if b == [] {
      assert a + b == a;
    } else {
      FlattenedOrder(a, b[..|b| - 1]);
      assert (a + b)[..|a + b| - 1] == a + b[..|b| - 1];
    }
  }

  /** And within a band cue after cue. */
  lemma {:induction false} FlattenedBand(b: Band, i: nat)
    ensures |Flattened([b])| == |b.cues|
    ensures i < |b.cues| ==> Flattened([b])[i] == Cue(b.name, b.cues[i])
  {
    assert [b][..0] == [];
  }

  ghost predicate Lists(b: Band, c: Cue) {
    b.name == c.band && c.text in b.cues
  }

  ghost predicate ListedIn(bands: seq<Band>, c: Cue) {
    exists i :: 0 <= i < |bands| && Lists(bands[i], c)
  }

  lemma {:induction false} FlattenedMembers(bands: seq<Band>, c: Cue)
    ensures c in Flattened(bands) <==> ListedIn(bands, c)
  {
    if bands != [] {
      var init, b := bands[..|bands| - 1], bands[|bands| - 1];
      FlattenedMembers(init, c);
      ListedSnoc(init, b, c);
      assert bands == init + [b];
      hide ListedIn;
      hide Lists;
    }
  }

  lemma {:induction false} ListedSnoc(init: seq<Band>, b: Band, c: Cue)
    ensures ListedIn(init + [b], c) <==> ListedIn(init, c) || Lists(b, c)
  {
    hide Lists;
    var bands := init + [b];
    assert bands[|init|] == b;
    if ListedIn(init, c) {
      var i :| 0 <= i < |init| && Lists(init[i], c);
      assert bands[i] == init[i];
    }
  }

  /** Band names are dictionary keys; with no cue listed twice in a band, no cue is flattened twice. */
  lemma {:induction false} FlattenedDistinct(bands: seq<Band>)
    requires forall i, j :: 0 <= i < j < |bands| ==> bands[i].name != bands[j].name
    requires forall i :: 0 <= i < |bands| ==> Distinct(bands[i].cues)
    ensures Distinct(Flattened(bands))
  {
    if bands != [] {
      var init, b := bands[..|bands| - 1], bands[|bands| - 1];
      FlattenedDistinct(init);
      var p, q := Flattened(init), BandCues(b, |b.cues|);
      forall i, j | 0 <= i < |p| && 0 <= j < |q|
        ensures p[i] != q[j]
      {
        FlattenedMembers(init, p[i]);
        assert p[i] in p;
      }
    }
  }

  // ---- _round_robin_order ----

  /** random.Random(seed + cycle).shuffle, of which only this is used: it permutes. */
  type Shuffle = f: (int, seq<Cue>) -> seq<Cue> | forall seed: int, s: seq<Cue> :: multiset(f(seed, s)) == multiset(s)
    witness (seed: int, s: seq<Cue>) => s

  /** The first k passes. */
  function Passes(shuffle: Shuffle, cues: seq<Cue>, seed: int, k: nat): seq<Cue> {
    if k == 0 then [] else Passes(shuffle, cues, seed, k - 1) + shuffle(seed + k - 1, cues)
  }

  lemma {:induction false} PassesLength(shuffle: Shuffle, cues: seq<Cue>, seed: int, k: nat)
    ensures |Passes(shuffle, cues, seed, k)| == k * |cues|
  {
    if k > 0 {
      PassesLength(shuffle, cues, seed, k - 1);
      PassLength(shuffle, cues, seed + k - 1);
      assert k * |cues| == (k - 1) * |cues| + |cues|;
    }
  }

  lemma {:induction false} PassLength(shuffle: Shuffle, cues: seq<Cue>, seed: int)
    ensures |shuffle(seed, cues)| == |cues|
  {
    assert |multiset(shuffle(seed, cues))| == |multiset(cues)|;
  }

  /** `order` is a cut of enough passes. */
  ghost predicate IsOrder(order: seq<Cue>, shuffle: Shuffle, cues: seq<Cue>, seed: int, n: int) {
    && |order| == (if n < 0 then 0 else n)
    && exists k: nat :: order <= Passes(shuffle, cues, seed, k)
  }

  method RoundRobinOrder(shuffle: Shuffle, bands: seq<Band>, n: int, seed: int) returns (order: seq<Cue>)
    requires Flattened(bands) != []
    ensures IsOrder(order, shuffle, Flattened(bands), seed, n)
  {
    var cues := FlattenCues(bands);
    order := [];
    var cycle := 0;
    while |order| < n
      invariant order == Passes(shuffle, cues, seed, cycle)
      decreases n - |order|
    {
      PassLength(shuffle, cues, seed + cycle);
      var shuffled := shuffle(seed + cycle, cues);
      order := order + shuffled;
      cycle := cycle + 1;
    }
    ghost var all := order;
    order := if n < 0 then [] else order[..n];
    assert order <= Passes(shuffle, cues, seed, cycle);
  }

  // ---- Fairness ----

  /** A pass holds every cue exactly once. */
  lemma {:induction false} PassCount(shuffle: Shuffle, cues: seq<Cue>, seed: int, c: Cue)
    requires Distinct(cues)
    ensures multiset(shuffle(seed, cues))[c] == if c in cues then 1 else 0
  {
    DistinctCount(cues, c);
  }

  lemma {:induction false} PassesCount(shuffle: Shuffle, cues: seq<Cue>, seed: int, k: nat, c: Cue)
    requires Distinct(cues) && c in cues
    ensures multiset(Passes(shuffle, cues, seed, k))[c] == k
  {
    if k > 0 {
      PassesCount(shuffle, cues, seed, k - 1, c);
      PassCount(shuffle, cues, seed + k - 1, c);
    }
  }

  /** Cut anywhere, the passes hold each cue q or q + 1 times, q being the number of whole passes. */
  lemma {:induction false} PrefixCount(shuffle: Shuffle, cues: seq<Cue>, seed: int, k: nat, m: nat, c: Cue)
    requires Distinct(cues) && c in cues && m <= |Passes(shuffle, cues, seed, k)|
    ensures m / |cues| <= multiset(Passes(shuffle, cues, seed, k)[..m])[c] <= m / |cues| + 1
  {
    var all := Passes(shuffle, cues, seed, k);
    PassesLength(shuffle, cues, seed, k);
    if k == 0 {
      assert all[..m] == [];
    } else {
      var init, pass := Passes(shuffle, cues, seed, k - 1), shuffle(seed + k - 1, cues);
      PassesLength(shuffle, cues, seed, k - 1);
      PassLength(shuffle, cues, seed + k - 1);
      if m <= |init| {
        PrefixCount(shuffle, cues, seed, k - 1, m, c);
        assert all[..m] == init[..m];
      } else {
        LastPassCount(shuffle, cues, seed, k, m, c);
      }
    }
  }

  lemma {:induction false} LastPassCount(shuffle: Shuffle, cues: seq<Cue>, seed: int, k: nat, m: nat, c: Cue)
    requires Distinct(cues) && c in cues && k > 0 && (k - 1) * |cues| < m <= k * |cues|
    requires |Passes(shuffle, cues, seed, k)| == k * |cues|
    ensures m / |cues| <= multiset(Passes(shuffle, cues, seed, k)[..m])[c] <= m / |cues| + 1
  {
    PassesLength(shuffle, cues, seed, k - 1);
    PassLength(shuffle, cues, seed + k - 1);
    PassesCount(shuffle, cues, seed, k - 1, c);
    PassCount(shuffle, cues, seed + k - 1, c);
    LastQuotient(m, |cues|, k);
    hide Distinct;
    CutCount(Passes(shuffle, cues, seed, k - 1), shuffle(seed + k - 1, cues), m, c);
  }

  /** Cut inside the second part, a list holds c once more than the first part, or not yet. */
  lemma {:induction false} CutCount(init: seq<Cue>, pass: seq<Cue>, m: nat, c: Cue)
    requires |init| <= m <= |init| + |pass| && multiset(pass)[c] == 1
    ensures multiset(init)[c] <= multiset((init + pass)[..m])[c] <= multiset(init)[c] + 1
    ensures m == |init| + |pass| ==> multiset((init + pass)[..m])[c] == multiset(init)[c] + 1
  {
    PartCount(init, pass, m - |init|, c);
    Whole(init + pass, m);
  }

  lemma {:induction false} LastQuotient(m: nat, b: nat, k: nat)
    requires b > 0 && k > 0 && (k - 1) * b < m <= k * b
    ensures m / b == if m == k * b then k else k - 1
  {
    MulStep(k - 1, b);
    if m == k * b {
      DivUnique(m, b, k, 0);
    } else {
      DivUnique(m, b, k - 1, m - (k - 1) * b);
    }
  }

  lemma {:induction false} Whole(s: seq<Cue>, m: nat)
    requires m <= |s|
    ensures m == |s| ==> s[..m] == s
  {
  }

  lemma {:induction false} PartCount(init: seq<Cue>, pass: seq<Cue>, r: nat, c: Cue)
    requires r <= |pass|
    ensures multiset(init)[c] <= multiset((init + pass)[..|init| + r])[c] <= multiset(init)[c] + multiset(pass)[c]
  {
    assert (init + pass)[..|init| + r] == init + pass[..r];
    assert pass == pass[..r] + pass[r..];
  }

  /** In every prefix the counts of any two cues differ by at most one. */
  lemma {:induction false} FairPrefixes(
    order: seq<Cue>, shuffle: Shuffle, cues: seq<Cue>, seed: int, n: int, m: nat, c: Cue, d: Cue)
    requires Distinct(cues) && c in cues && d in cues
    requires IsOrder(order, shuffle, cues, seed, n) && m <= |order|
    ensures multiset(order[..m])[c] <= multiset(order[..m])[d] + 1
  {
    var k: nat :| order <= Passes(shuffle, cues, seed, k);
    assert order[..m] == Passes(shuffle, cues, seed, k)[..m];
    PrefixCount(shuffle, cues, seed, k, m, c);
    PrefixCount(shuffle, cues, seed, k, m, d);
  }

  /** Every contiguous window of 2|cues| - 1 items contains every cue. */
  lemma {:induction false} FairWindows(
    order: seq<Cue>, shuffle: Shuffle, cues: seq<Cue>, seed: int, n: int, a: nat, c: Cue)
    requires Distinct(cues) && c in cues
    requires IsOrder(order, shuffle, cues, seed, n) && a + 2 * |cues| - 1 <= |order|
    ensures c in order[a..a + 2 * |cues| - 1]
  {
    var w := |cues|;
    var k: nat :| order <= Passes(shuffle, cues, seed, k);
    var q := NextPass(a, w);
    ReachedPass(shuffle, cues, seed, k, q, q * w);
    WholePass(shuffle, cues, seed, k, q, q * w);
    PassCount(shuffle, cues, seed + q, c);
    hide Passes;
    hide Distinct;
    InWindow(order, Passes(shuffle, cues, seed, k), q * w, q * w + w, a, a + 2 * w - 1, c);
  }

  lemma {:induction false} InWindow(order: seq<Cue>, all: seq<Cue>, from: nat, to: nat, a: nat, b: nat, c: Cue)
    requires order <= all && a <= from <= to <= b <= |order| && c in all[from..to]
    ensures c in order[a..b]
  {
    var j :| from <= j < to && all[j] == c;
    assert order[a..b][j - a] == c;
  }

  /** The first pass that starts at or after position a. */
  function NextPass(a: nat, w: nat): (q: nat)
    requires w > 0
    ensures a <= q * w && q * w + w <= a + 2 * w - 1
  {
    var q := (a + w - 1) / w;
    assert q * w + (a + w - 1) % w == a + w - 1;
    q
  }

  /** Each aligned stretch of |cues| items is one whole shuffled pass. */
  lemma {:induction false} WholePass(shuffle: Shuffle, cues: seq<Cue>, seed: int, k: nat, q: nat, from: nat)
    requires q < k && from == q * |cues|
    ensures from + |cues| <= |Passes(shuffle, cues, seed, k)|
    ensures Passes(shuffle, cues, seed, k)[from..from + |cues|] == shuffle(seed + q, cues)
  {
    PassesLength(shuffle, cues, seed, k - 1);
    PassLength(shuffle, cues, seed + k - 1);
    if q < k - 1 {
      WholePass(shuffle, cues, seed, k - 1, q, from);
    }
  }

  // ---- Repeats next to each other ----

  /** Item j is item j % |cues| of pass j / |cues|. */
  lemma {:induction false} ItemAt(shuffle: Shuffle, cues: seq<Cue>, seed: int, k: nat, j: nat)
    requires cues != [] && j < |Passes(shuffle, cues, seed, k)|
    ensures |shuffle(seed + j / |cues|, cues)| == |cues|
    ensures Passes(shuffle, cues, seed, k)[j] == shuffle(seed + j / |cues|, cues)[j % |cues|]
  {
    var w, q := |cues|, j / |cues|;
    assert q * w + j % w == j;
    PassLength(shuffle, cues, seed + q);
    ReachedPass(shuffle, cues, seed, k, q, j);
    WholePass(shuffle, cues, seed, k, q, q * w);
    hide Passes;
  }

  lemma {:induction false} ReachedPass(shuffle: Shuffle, cues: seq<Cue>, seed: int, k: nat, q: nat, j: nat)
    requires q * |cues| <= j < |Passes(shuffle, cues, seed, k)|
    ensures q < k
  {
    PassesLength(shuffle, cues, seed, k);
    if k <= q {
      MulMonotone(k, q, |cues|);
      assert false;
    }
  }

  /** The last cue of pass q is the first of the pass after it. */
  ghost predicate Meets(shuffle: Shuffle, cues: seq<Cue>, seed: int, q: nat) {
    var last, first := shuffle(seed + q, cues), shuffle(seed + q + 1, cues);
    last != [] && first != [] && last[|last| - 1] == first[0]
  }

  /** A cue directly follows itself exactly where two passes meet in it. */
  lemma {:induction false} RepeatsWherePassesMeet(
    order: seq<Cue>, shuffle: Shuffle, cues: seq<Cue>, seed: int, n: int, i: nat)
    requires Distinct(cues) && cues != []
    requires IsOrder(order, shuffle, cues, seed, n) && i + 1 < |order|
    ensures order[i] == order[i + 1] <==> (i + 1) % |cues| == 0 && Meets(shuffle, cues, seed, i / |cues|)
  {
    var w, q := |cues|, i / |cues|;
    var k: nat :| order <= Passes(shuffle, cues, seed, k);
    ItemAt(shuffle, cues, seed, k, i);
    ItemAt(shuffle, cues, seed, k, i + 1);
    PassDistinct(shuffle, cues, seed + q);
    NextIndex(i, w);
    assert order[i] == Passes(shuffle, cues, seed, k)[i] && order[i + 1] == Passes(shuffle, cues, seed, k)[i + 1];
    hide Passes;
    hide IsOrder;
  }

  lemma {:induction false} NextIndex(i: nat, w: nat)
    requires w > 0
    ensures (i + 1) % w == 0 ==> i % w == w - 1 && (i + 1) / w == i / w + 1
    ensures (i + 1) % w != 0 ==> (i + 1) % w == i % w + 1 && (i + 1) / w == i / w
  {
    var q, r := i / w, i % w;
    assert q * w + r == i;
    if r == w - 1 {
      MulStep(q, w);
      DivUnique(i + 1, w, q + 1, 0);
    } else {
      DivUnique(i + 1, w, q, r + 1);
    }
  }

  lemma {:induction false} PassDistinct(shuffle: Shuffle, cues: seq<Cue>, seed: int)
    requires Distinct(cues)
    ensures Distinct(shuffle(seed, cues))
  {
    var pass := shuffle(seed, cues);
    forall i, j | 0 <= i < j < |pass|
      ensures pass[i] != pass[j]
    {
      PassCount(shuffle, cues, seed, pass[i]);
      if pass[i] == pass[j] {
        TwiceCounted(pass, i, j);
        assert false;
      }
    }
  }

  lemma {:induction false} TwiceCounted(s: seq<Cue>, i: nat, j: nat)
    requires i < j < |s| && s[i] == s[j]
    ensures multiset(s)[s[i]] >= 2
  {
    assert s == s[..j] + s[j..];
    assert s[i] in s[..j] && s[i] in s[j..] by {
      assert s[..j][i] == s[i] && s[j..][0] == s[j];
    }
  }

  /** With at least two cues, no three items in a row are the same cue. */
  lemma {:induction false} NeverThreeInARow(
    order: seq<Cue>, shuffle: Shuffle, cues: seq<Cue>, seed: int, n: int, i: nat)
    requires Distinct(cues) && |cues| >= 2
    requires IsOrder(order, shuffle, cues, seed, n) && i + 2 < |order|
    ensures !(order[i] == order[i + 1] == order[i + 2])
  {
    RepeatsWherePassesMeet(order, shuffle, cues, seed, n, i);
    RepeatsWherePassesMeet(order, shuffle, cues, seed, n, i + 1);
    NextIndex(i + 1, |cues|);
  }

  function Backward(s: seq<Cue>): (r: seq<Cue>)
    ensures |r| == |s| && multiset(r) == multiset(s)
    ensures s != [] ==> r[0] == s[|s| - 1] && r[|s| - 1] == s[0]
  {
    if s == [] then []
    else
      assert s == s[..|s| - 1] + [s[|s| - 1]];
      [s[|s| - 1]] + Backward(s[..|s| - 1])
  }

  /** A shuffle that turns the list around for every other seed. */
  function Turning(): (f: Shuffle)
    ensures forall seed: int, s: seq<Cue> :: f(seed, s) == if seed % 2 == 0 then s else Backward(s)
  {
    (seed: int, s: seq<Cue>) => if seed % 2 == 0 then s else Backward(s)
  }

  /** For any cues and any seed there is a shuffle with which two passes meet: a
      window of two holds a single cue. */
  lemma {:induction false} WindowOfOneCue(cues: seq<Cue>, seed: int)
    requires cues != []
    ensures exists shuffle: Shuffle, order ::
              IsOrder(order, shuffle, cues, seed, 2 * |cues|) && order[|cues| - 1] == order[|cues|]
  {
    var f := Turning();
    var first, second := f(seed, cues), f(seed + 1, cues);
    TwoPasses(f, cues, seed);
    hide Passes;
    hide Backward;
    assert IsOrder(first + second, f, cues, seed, 2 * |cues|);
    assert (first + second)[|cues| - 1] == (first + second)[|cues|];
  }

  lemma {:induction false} TwoPasses(shuffle: Shuffle, cues: seq<Cue>, seed: int)
    ensures Passes(shuffle, cues, seed, 2) == shuffle(seed, cues) + shuffle(seed + 1, cues)
  {
    assert Passes(shuffle, cues, seed, 1) == [] + shuffle(seed, cues);
  }
}
