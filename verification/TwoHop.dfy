/** The two-hop neighbourhood: the closed form that the walk over an unordered
    frontier must reach, and what it says about distance and size. */
module TwoHop {
  import opened Arithmetic
  import opened Dicts
  import opened Sorting
  import opened Graphs
  import Csr

  datatype Neighbour = Neighbour(node: Label, weight: Weight)

  /** x < y on floats; every comparison with NaN is false. */
  predicate WeightLess(x: Weight, y: Weight) {
    match (x, y)
    case (Finite(a), Finite(b)) => a < b
    case (NegInf, Finite(_)) => true
    case (NegInf, PosInf) => true
    case (Finite(_), PosInf) => true
    case _ => false
  }

  /** The comparison of a sort by weight with reverse=True. */
  predicate HeavierFirst(x: Neighbour, y: Neighbour) {
    WeightLess(y.weight, x.weight)
  }

  function Neighbours(g: Graph, u: Label, i: nat): (r: seq<Neighbour>)
    requires u in g.at && Wf(g.at[u]) && i <= |g.at[u].keys|
    ensures |r| == i
    ensures forall j :: 0 <= j < i ==> r[j] == Neighbour(g.at[u].keys[j], EdgeAt(g, u, g.at[u].keys[j]).weight)
  {
    if i == 0 then []
    else Neighbours(g, u, i - 1) + [Neighbour(g.at[u].keys[i - 1], EdgeAt(g, u, g.at[u].keys[i - 1]).weight)]
  }

  /** How many elements the slice [:k] of a list of n elements has. */
  function SliceLength(n: nat, k: int): (r: nat)
    ensures r <= n
    ensures 0 <= k ==> r <= k
  {
    if k >= n then n else if k >= 0 then k else if n + k >= 0 then n + k else 0
  }

  /** The neighbours of u that the walk looks at, heaviest first. */
  function Top(g: Graph, u: Label, k: int): (r: seq<Neighbour>)
    requires u in g.at && Wf(g.at[u])
    ensures 0 <= k ==> |r| <= k
  {
    var all := Neighbours(g, u, |g.at[u].keys|);
    SortMembers(all, HeavierFirst);
    StableSort(all, HeavierFirst)[..SliceLength(|all|, k)]
  }

  ghost function Labels(s: seq<Neighbour>): set<Label> {
    set n | n in s :: n.node
  }

  ghost function TopLabels(g: Graph, u: Label, k: int): set<Label>
    requires WfGraph(g)
  {
    if u in g.at then Labels(Top(g, u, k)) else {}
  }

  // ---- The closed form ----

  /** Union of the limited rows of the nodes in `from`. */
  ghost function Reach(g: Graph, from: set<Label>, k: int): set<Label>
    requires WfGraph(g)
  {
    set u, v | u in from && v in TopLabels(g, u, k) :: v
  }

  ghost function FirstHop(g: Graph, seeds: set<Label>, k: int): set<Label>
    requires WfGraph(g)
  {
    Reach(g, seeds, k) - seeds
  }

  ghost function SecondHop(g: Graph, seeds: set<Label>, k: int): set<Label>
    requires WfGraph(g)
  {
    Reach(g, FirstHop(g, seeds, k), k) - seeds - FirstHop(g, seeds, k)
  }

  ghost function Neighbourhood(g: Graph, seeds: set<Label>, k: int): set<Label>
    requires WfGraph(g)
  {
    FirstHop(g, seeds, k) + SecondHop(g, seeds, k)
  }

  lemma {:induction false} ReachInsert(g: Graph, from: set<Label>, u: Label, k: int)
    requires WfGraph(g)
    ensures Reach(g, from + {u}, k) == Reach(g, from, k) + if u in g.at then Labels(Top(g, u, k)) else {}
  {
    assert Reach(g, from + {u}, k) == Reach(g, from, k) + TopLabels(g, u, k);
  }

  lemma {:induction false} LabelsStep(s: seq<Neighbour>, j: nat)
    requires j < |s|
    ensures Labels(s[..j + 1]) == Labels(s[..j]) + {s[j].node}
  {
    assert s[..j + 1] == s[..j] + [s[j]];
  }

  lemma {:induction false} LabelsNone(s: seq<Neighbour>)
    ensures Labels(s[..0]) == {}
  {
  }

  /** Seeds that are not nodes reach nothing. */
  lemma {:induction false} ReachInGraph(g: Graph, from: set<Label>, k: int)
    requires WfGraph(g)
    ensures Reach(g, from * g.at.Keys, k) == Reach(g, from, k)
  {
  }

  lemma {:induction false} ReachNothing(g: Graph, k: int)
    requires WfGraph(g)
    ensures Reach(g, {}, k) == {}
  {
  }

  // ---- Which neighbours the limit keeps ----

  /** Without NaN weights, no neighbour left out is heavier than one looked at. */
  lemma {:induction false} TopIsHeaviest(g: Graph, u: Label, k: int, x: Neighbour, y: Neighbour)
    requires WfGraph(g) && u in g.at
    requires forall v :: v in g.at[u].at ==> !g.at[u].at[v].weight.NaN?
    requires x in Top(g, u, k)
    requires y in Neighbours(g, u, |g.at[u].keys|) && y !in Top(g, u, k)
    ensures !WeightLess(x.weight, y.weight)
    ensures x.weight.Finite? && y.weight.Finite? ==> x.weight.value >= y.weight.value
    ensures y.weight.PosInf? ==> x.weight.PosInf?
    ensures x.weight.NegInf? ==> y.weight.NegInf?
  {
    var all := Neighbours(g, u, |g.at[u].keys|);
    SortMembers(all, HeavierFirst);
    NumberedSorted(all);
    hide WfGraph;
  }

  /** What is looked at are neighbours with the weights of their edges, each once, and
      as many as the limit says; a negative limit counts from the end of the row. */
  lemma {:induction false} TopMeaning(g: Graph, u: Label, k: int)
    requires WfGraph(g) && u in g.at
    ensures var n := |g.at[u].keys|;
            |Top(g, u, k)| == if k > n then n else if k >= 0 then k else if k >= -n then n + k else 0
    ensures forall x :: x in Top(g, u, k) ==> Joined(g, u, x.node) && x.weight == EdgeAt(g, u, x.node).weight
    ensures forall i, j :: 0 <= i < j < |Top(g, u, k)| ==> Top(g, u, k)[i].node != Top(g, u, k)[j].node
  {
    var all := Neighbours(g, u, |g.at[u].keys|);
    var sorted := StableSort(all, HeavierFirst);
    assert Distinct(all) by {
      assert Distinct(g.at[u].keys);
    }
    SortMembers(all, HeavierFirst);
    Csr.SortedDistinct(all, HeavierFirst);
    forall x | x in all
      ensures Joined(g, u, x.node) && x.weight == EdgeAt(g, u, x.node).weight
    {
      var i :| 0 <= i < |all| && all[i] == x;
      assert g.at[u].keys[i] in g.at[u].keys;
    }
    forall i, j | 0 <= i < j < |all|
      ensures sorted[i].node != sorted[j].node
    {
      assert sorted[i] in all && sorted[j] in all && sorted[i] != sorted[j];
    }
  }

  /** The comparison is a weak order on the neighbours that have a number for a weight. */
  predicate NumberedHeavierFirst(x: Neighbour, y: Neighbour) {
    if x.weight.NaN? || y.weight.NaN? then x.weight.NaN? && !y.weight.NaN? else HeavierFirst(x, y)
  }

  lemma {:induction false} InsertAgrees(x: Neighbour, s: seq<Neighbour>)
    requires !x.weight.NaN? && forall n :: n in s ==> !n.weight.NaN?
    ensures Insert(x, s, HeavierFirst) == Insert(x, s, NumberedHeavierFirst)
  {
    if s != [] {
      assert s[0] in s;
      forall n | n in s[1..] ensures !n.weight.NaN? {
        assert n in s;
      }
      InsertAgrees(x, s[1..]);
    }
  }

  lemma {:induction false} SortAgrees(s: seq<Neighbour>)
    requires forall n :: n in s ==> !n.weight.NaN?
    ensures StableSort(s, HeavierFirst) == StableSort(s, NumberedHeavierFirst)
  {
    if s != [] {
      assert s[0] in s;
      forall n | n in s[1..] ensures !n.weight.NaN? {
        assert n in s;
      }
      SortAgrees(s[1..]);
      SortMembers(s[1..], HeavierFirst);
      InsertAgrees(s[0], StableSort(s[1..], HeavierFirst));
    }
  }

  lemma {:induction false} NumberedSorted(s: seq<Neighbour>)
    requires forall n :: n in s ==> !n.weight.NaN?
    ensures Sorted(StableSort(s, HeavierFirst), HeavierFirst)
  {
    SortAgrees(s);
    SortSorts(s, NumberedHeavierFirst);
    SortMembers(s, HeavierFirst);
    var t := StableSort(s, HeavierFirst);
    forall i, j | 0 <= i < j < |t|
      ensures !HeavierFirst(t[j], t[i])
    {
      assert t[i] in t && t[j] in t;
      assert !NumberedHeavierFirst(t[j], t[i]);
    }
  }

  lemma {:induction false} FilterPrefix<T(!new)>(p: T -> bool, s: seq<T>, t: nat)
    requires t <= |s|
    ensures |Filter(p, s[..t])| <= |Filter(p, s)|
    ensures Filter(p, s[..t]) == Filter(p, s)[..|Filter(p, s[..t])|]
  {
    if t > 0 {
      FilterPrefix(p, s[1..], t - 1);
      assert s[..t][1..] == s[1..][..t - 1];
    }
  }

  /** Among neighbours of one weight, those inserted first are looked at first. */
  lemma {:induction false} TopKeepsTies(g: Graph, u: Label, k: int, w: Weight)
    requires WfGraph(g) && u in g.at
    ensures var same := (n: Neighbour) => n.weight == w;
            var kept := Filter(same, Top(g, u, k));
            var all := Filter(same, Neighbours(g, u, |g.at[u].keys|));
            |kept| <= |all| && kept == all[..|kept|]
  {
    var same := (n: Neighbour) => n.weight == w;
    var all := Neighbours(g, u, |g.at[u].keys|);
    var s := StableSort(all, HeavierFirst);
    SortMembers(all, HeavierFirst);
    SortStable(same, all, HeavierFirst);
    FilterPrefix(same, s, SliceLength(|all|, k));
  }

  // ---- Size ----

  lemma {:induction false} LabelsCard(s: seq<Neighbour>)
    ensures |Labels(s)| <= |s|
  {
    if s != [] {
      var n := |s| - 1;
      LabelsCard(s[..n]);
      assert Labels(s) == Labels(s[..n]) + {s[n].node};
    }
  }

  lemma {:induction false} TopLabelsCard(g: Graph, u: Label, k: nat)
    requires WfGraph(g)
    ensures |TopLabels(g, u, k)| <= if u in g.at then k else 0
  {
    if u in g.at {
      LabelsCard(Top(g, u, k));
    }
  }

  lemma {:induction false} ReachStep(g: Graph, rest: set<Label>, u: Label, k: nat)
    requires WfGraph(g) && u !in rest
    ensures |Reach(g, rest + {u}, k)| <= |Reach(g, rest, k)| + if u in g.at then k else 0
  {
    TopLabelsCard(g, u, k);
    assert Reach(g, rest + {u}, k) == Reach(g, rest, k) + TopLabels(g, u, k);
  }

  lemma {:induction false} ReachCard(g: Graph, from: set<Label>, k: nat)
    requires WfGraph(g)
    ensures |Reach(g, from, k)| <= |from * g.at.Keys| * k
  {
    if from == {} {
      assert Reach(g, from, k) == {};
    } else {
      var u :| u in from;
      var rest := from - {u};
      assert from == rest + {u};
      ReachCard(g, rest, k);
      ReachStep(g, rest, u, k);
      InsertMeet(rest, g.at.Keys, u);
      MulStep(|rest * g.at.Keys|, k);
    }
  }

  lemma {:induction false} InsertMeet(rest: set<Label>, nodes: set<Label>, u: Label)
    requires u !in rest
    ensures |(rest + {u}) * nodes| == |rest * nodes| + if u in nodes then 1 else 0
  {
    if u in nodes {
      assert (rest + {u}) * nodes == rest * nodes + {u};
    } else {
      assert (rest + {u}) * nodes == rest * nodes;
    }
  }

  lemma {:induction false} SubsetCard<T>(a: set<T>, b: set<T>)
    requires a <= b
    ensures |a| <= |b|
  {
    assert b == a + (b - a);
  }

  /** From s seeds that are in the graph, at most s*k*(1+k) nodes are collected. */
  lemma {:induction false} NeighbourhoodCard(g: Graph, seeds: set<Label>, k: nat)
    requires WfGraph(g)
    ensures |Neighbourhood(g, seeds, k)| <= |seeds * g.at.Keys| * k * (1 + k)
  {
    var s := |seeds * g.at.Keys|;
    var r1, r2 := FirstHop(g, seeds, k), SecondHop(g, seeds, k);
    ReachCard(g, seeds, k);
    SubsetCard(r1, Reach(g, seeds, k));
    ReachCard(g, r1, k);
    SubsetCard(r2, Reach(g, r1, k));
    SubsetCard(r1 * g.at.Keys, r1);
    MulMonotone(|r1 * g.at.Keys|, s * k, k);
    assert |r1 + r2| <= |r1| + |r2|;
    assert s * k + (s * k) * k == s * k * (1 + k);
  }

  // ---- Distance ----

  /** Some seed is a neighbour. */
  ghost predicate AtDistanceOne(g: Graph, seeds: set<Label>, n: Label) {
    exists s :: s in seeds && Joined(g, s, n)
  }

  /** Some neighbour of a seed is a neighbour. */
  ghost predicate AtDistanceTwo(g: Graph, seeds: set<Label>, n: Label) {
    exists s, m :: s in seeds && Joined(g, s, m) && Joined(g, m, n)
  }

  lemma {:induction false} ShortRow(g: Graph, u: Label, k: nat, n: Label)
    requires WfGraph(g)
    requires u in g.at ==> |g.at[u].keys| <= k
    ensures n in TopLabels(g, u, k) <==> Joined(g, u, n)
  {
    if u in g.at {
      var all := Neighbours(g, u, |g.at[u].keys|);
      SortMembers(all, HeavierFirst);
      var s := StableSort(all, HeavierFirst);
      assert Top(g, u, k) == s;
      if Joined(g, u, n) {
        var i :| 0 <= i < |g.at[u].keys| && g.at[u].keys[i] == n;
        assert all[i] in all && all[i].node == n;
      }
      if n in Labels(s) {
        var x :| x in s && x.node == n;
        assert x in all;
      }
    }
  }

  /** One hop over complete rows is adjacency. */
  lemma {:induction false} ReachIsAdjacency(g: Graph, from: set<Label>, k: nat, n: Label)
    requires WfGraph(g)
    requires forall u :: u in g.at ==> |g.at[u].keys| <= k
    ensures n in Reach(g, from, k) <==> AtDistanceOne(g, from, n)
  {
    forall u ensures n in TopLabels(g, u, k) <==> Joined(g, u, n) {
      ShortRow(g, u, k, n);
    }
    hide TopLabels;
  }

  /** When no row is longer than k, the walk finds exactly the nodes, other than
      the seeds, at distance one or two from a seed. */
  lemma {:induction false} NeighbourhoodIsDistanceTwo(g: Graph, seeds: set<Label>, k: nat, n: Label)
    requires WfGraph(g)
    requires forall u :: u in g.at ==> |g.at[u].keys| <= k
    ensures n in Neighbourhood(g, seeds, k) <==>
            n !in seeds && (AtDistanceOne(g, seeds, n) || AtDistanceTwo(g, seeds, n))
  {
    hide Reach;
    hide WfGraph;
    ReachIsAdjacency(g, seeds, k, n);
    ReachIsAdjacency(g, FirstHop(g, seeds, k), k, n);
    if AtDistanceOne(g, FirstHop(g, seeds, k), n) {
      var m :| m in FirstHop(g, seeds, k) && Joined(g, m, n);
      ReachIsAdjacency(g, seeds, k, m);
    }
    if AtDistanceTwo(g, seeds, n) {
      var s, m :| s in seeds && Joined(g, s, m) && Joined(g, m, n);
      ReachIsAdjacency(g, seeds, k, m);
      assert m in seeds || m in FirstHop(g, seeds, k);
    }
  }

  // ---- The closed form, node by node ----

  /** n is among the neighbours of u that the walk looks at. */
  ghost predicate Looks(g: Graph, u: Label, k: int, n: Label)
    requires WfGraph(g)
  {
    u in g.at && exists x :: x in Top(g, u, k) && x.node == n
  }

  /** For any limit: a node is found exactly if it is no seed, and is looked at from a
      seed or from a node, itself no seed, that is looked at from a seed. */
  lemma {:induction false} NeighbourhoodMembers(g: Graph, seeds: set<Label>, k: int, n: Label)
    requires WfGraph(g)
    ensures n in Neighbourhood(g, seeds, k) <==>
            && n !in seeds
            && ((exists s :: s in seeds && Looks(g, s, k, n)) ||
                (exists s, m :: s in seeds && Looks(g, s, k, m) && m !in seeds && Looks(g, m, k, n)))
  {
    forall u, m ensures m in TopLabels(g, u, k) <==> Looks(g, u, k, m) {
    }
    hide Looks;
    hide TopLabels;
  }
}
