/** Tiling a decoded edge list to a larger node count
    (bench/mosaicsigma_centrality_perf.py:84-95). */
module Tiling {
  import opened Arithmetic
  import opened Graphs
  import opened Csr
  import opened AdjacencyBackend
  import opened CsrRoundTrip

  function Shift(e: WEdge, offset: nat): WEdge {
    WEdge(e.u + offset, e.v + offset, e.w)
  }

  predicate Fits(e: WEdge, n: nat) {
    e.u < n && e.v < n
  }

  /** What one tile contributes from the first k edges. */
  function Tile(edges: seq<WEdge>, offset: nat, n: nat, k: nat): seq<WEdge>
    requires k <= |edges|
  {
    if k == 0 then []
    else Tile(edges, offset, n, k - 1) +
         if Fits(Shift(edges[k - 1], offset), n) then [Shift(edges[k - 1], offset)] else []
  }

  /** What the first t tiles contribute. */
  function Tiled(edges: seq<WEdge>, b: nat, n: nat, t: nat): seq<WEdge> {
    if t == 0 then [] else Tiled(edges, b, n, t - 1) + Tile(edges, (t - 1) * b, n, |edges|)
  }

  /** math.ceil(n / b) */
  function CeilDiv(n: nat, b: nat): nat
    requires b > 0
  {
    (n + b - 1) / b
  }

  method MaterializeAtScale(indptr: seq<nat>, indices: seq<nat>, data: seq<real>, nTarget: nat)
    returns (mg: Backend)
    requires |indptr| > 0 && WellFormed(Triple(indptr, indices, data), |indptr| - 1)
    requires 0 < |indptr| - 1 < nTarget
    ensures fresh(mg) && mg.Valid()
    ensures var b := |indptr| - 1;
            var edges := Decoded(Triple(indptr, indices, data), b, b);
            mg.view == Built(nTarget, Tiled(edges, b, nTarget, CeilDiv(nTarget, b)))
  {
    var baseN := |indptr| - 1;
    var baseEdges := Decode(indptr, indices, data);
    var tiledEdges := TileEdges(baseEdges, baseN, nTarget);
    TiledInRange(baseEdges, baseN, nTarget, CeilDiv(nTarget, baseN));
    mg := BuildMemoryGraphFromEdges(nTarget, tiledEdges);
  }

  /** The two nested loops over tiles and edges. */
  method TileEdges(baseEdges: seq<WEdge>, baseN: nat, nTarget: nat) returns (tiledEdges: seq<WEdge>)
    requires baseN > 0
    ensures tiledEdges == Tiled(baseEdges, baseN, nTarget, CeilDiv(nTarget, baseN))
  {
    var kTiles := CeilDiv(nTarget, baseN);
    tiledEdges := [];
    for tile := 0 to kTiles
      invariant tiledEdges == Tiled(baseEdges, baseN, nTarget, tile)
    {
      var offset := tile * baseN;
      ghost var before := tiledEdges;
      for k := 0 to |baseEdges|
        invariant tiledEdges == before + Tile(baseEdges, offset, nTarget, k)
      {
        var e := WEdge(baseEdges[k].u + offset, baseEdges[k].v + offset, baseEdges[k].w);
        if e.u >= nTarget || e.v >= nTarget {
          continue;
        }
        tiledEdges := tiledEdges + [e];
      }
    }
  }

  /** As many tiles as cover n nodes, and no more. */
  lemma {:induction false} CeilDivMeaning(n: nat, b: nat)
    requires b > 0
    ensures n <= CeilDiv(n, b) * b < n + b
  {
    assert CeilDiv(n, b) * b + (n + b - 1) % b == n + b - 1;
  }

  lemma {:induction false} TileInRange(edges: seq<WEdge>, offset: nat, n: nat, k: nat)
    requires k <= |edges|
    ensures InRange(Tile(edges, offset, n, k), n)
  {
    if k > 0 {
      TileInRange(edges, offset, n, k - 1);
    }
  }

  lemma {:induction false} TiledInRange(edges: seq<WEdge>, b: nat, n: nat, t: nat)
    ensures InRange(Tiled(edges, b, n, t), n)
  {
    if t > 0 {
      TiledInRange(edges, b, n, t - 1);
      TileInRange(edges, (t - 1) * b, n, |edges|);
    }
  }

  // ---- Quotient and remainder ----

  /** Node x of the scaled graph is node x % b of tile x / b. */
  ghost predicate FromBase(edges: seq<WEdge>, b: nat, e: WEdge)
    requires b > 0
  {
    e.u / b == e.v / b && WEdge(e.u % b, e.v % b, e.w) in edges
  }

  lemma {:induction false} ShiftFromBase(edges: seq<WEdge>, b: nat, t: nat, f: WEdge)
    requires b > 0 && Fits(f, b)
    ensures Shift(f, t * b).u / b == t == Shift(f, t * b).v / b
    ensures WEdge(Shift(f, t * b).u % b, Shift(f, t * b).v % b, Shift(f, t * b).w) == f
  {
    DivUnique(f.u + t * b, b, t, f.u);
    DivUnique(f.v + t * b, b, t, f.v);
  }

  lemma {:induction false} TileMembers(edges: seq<WEdge>, b: nat, t: nat, n: nat, k: nat, e: WEdge)
    requires b > 0 && InRange(edges, b) && k <= |edges|
    ensures e in Tile(edges, t * b, n, k) <==>
            Fits(e, n) && e.u / b == t && FromBase(edges[..k], b, e)
  {
    if k > 0 {
      var f := edges[k - 1];
      TileMembers(edges, b, t, n, k - 1, e);
      ShiftFromBase(edges, b, t, f);
      assert edges[..k] == edges[..k - 1] + [f];
      IsShift(b, t, f, e);
    }
  }

  lemma {:induction false} IsShift(b: nat, t: nat, f: WEdge, e: WEdge)
    requires b > 0 && Fits(f, b)
    ensures e == Shift(f, t * b) <==> e.u / b == t == e.v / b && WEdge(e.u % b, e.v % b, e.w) == f
  {
    DivUnique(f.u + t * b, b, t, f.u);
    DivUnique(f.v + t * b, b, t, f.v);
    assert e.u == e.u / b * b + e.u % b && e.v == e.v / b * b + e.v % b;
  }

  lemma {:induction false} TiledMembers(edges: seq<WEdge>, b: nat, n: nat, t: nat, e: WEdge)
    requires b > 0 && InRange(edges, b)
    ensures e in Tiled(edges, b, n, t) <==> Fits(e, n) && e.u / b < t && FromBase(edges, b, e)
  {
    if t > 0 {
      TiledMembers(edges, b, n, t - 1, e);
      TileMembers(edges, b, t - 1, n, |edges|, e);
      assert edges[..|edges|] == edges;
    }
  }

  // ---- No pair twice ----

  lemma {:induction false} TileOnce(edges: seq<WEdge>, b: nat, t: nat, n: nat, k: nat)
    requires b > 0 && InRange(edges, b) && OncePerPair(edges) && k <= |edges|
    ensures OncePerPair(Tile(edges, t * b, n, k))
  {
    if k > 0 {
      var f := edges[k - 1];
      var es := Tile(edges, t * b, n, k - 1);
      TileOnce(edges, b, t, n, k - 1);
      ShiftFromBase(edges, b, t, f);
      var u, v := f.u + t * b, f.v + t * b;
      assert u % b == f.u && v % b == f.v;
      forall j | 0 <= j < |es|
        ensures es[j].u != u || es[j].v != v
      {
        TileMembers(edges, b, t, n, k - 1, es[j]);
        assert es[j] in es;
        var i :| 0 <= i < k - 1 && edges[..k - 1][i] == WEdge(es[j].u % b, es[j].v % b, es[j].w);
        assert edges[i].u != f.u || edges[i].v != f.v;
      }
    }
  }

  lemma {:induction false} TiledOnce(edges: seq<WEdge>, b: nat, n: nat, t: nat)
    requires b > 0 && InRange(edges, b) && OncePerPair(edges)
    ensures OncePerPair(Tiled(edges, b, n, t))
  {
    if t > 0 {
      TiledOnce(edges, b, n, t - 1);
      TileOnce(edges, b, t - 1, n, |edges|);
      var p, q := Tiled(edges, b, n, t - 1), Tile(edges, (t - 1) * b, n, |edges|);
      forall i, j | 0 <= i < |p| && 0 <= j < |q|
        ensures p[i].u != q[j].u
      {
        TilesApart(edges, b, n, t, i, j);
      }
    }
  }

  lemma {:induction false} TilesApart(edges: seq<WEdge>, b: nat, n: nat, t: nat, i: nat, j: nat)
    requires b > 0 && InRange(edges, b) && t > 0
    requires i < |Tiled(edges, b, n, t - 1)| && j < |Tile(edges, (t - 1) * b, n, |edges|)|
    ensures Tiled(edges, b, n, t - 1)[i].u != Tile(edges, (t - 1) * b, n, |edges|)[j].u
  {
    TiledQuotient(edges, b, n, t - 1, i);
    TileQuotient(edges, b, t - 1, n, j);
  }

  lemma {:induction false} TiledQuotient(edges: seq<WEdge>, b: nat, n: nat, t: nat, i: nat)
    requires b > 0 && InRange(edges, b) && i < |Tiled(edges, b, n, t)|
    ensures Tiled(edges, b, n, t)[i].u / b < t
  {
    TiledMembers(edges, b, n, t, Tiled(edges, b, n, t)[i]);
  }

  lemma {:induction false} TileQuotient(edges: seq<WEdge>, b: nat, t: nat, n: nat, j: nat)
    requires b > 0 && InRange(edges, b) && j < |Tile(edges, t * b, n, |edges|)|
    ensures Tile(edges, t * b, n, |edges|)[j].u / b == t
  {
    TileMembers(edges, b, t, n, |edges|, Tile(edges, t * b, n, |edges|)[j]);
  }

  lemma {:induction false} TileIndexBelow(x: nat, n: nat, b: nat)
    requires b > 0 && x < n
    ensures x / b < CeilDiv(n, b)
  {
    var q := CeilDiv(n, b);
    assert q * b + (n + b - 1) % b == n + b - 1;
    assert x / b * b <= x;
    MulBelow(x / b, q, b);
    MulBelow(q, x / b, b);
  }

  /** The scaled graph is disjoint copies of the base graph, cut off at n: two
      nodes are joined exactly when they lie in the same tile and their
      counterparts in the base graph are joined with that weight. */
  lemma {:induction false} TiledGraph(edges: seq<WEdge>, b: nat, n: nat, x: nat, y: nat, w: real)
    requires b > 0 && InRange(edges, b) && OncePerPair(edges)
    ensures Exported(Built(n, Tiled(edges, b, n, CeilDiv(n, b))), x, y, w) <==>
            x < n && y < n && x / b == y / b && Exported(Built(b, edges), x % b, y % b, w)
  {
    var t := CeilDiv(n, b);
    var tiled := Tiled(edges, b, n, t);
    TiledOnce(edges, b, n, t);
    BuiltEntries(n, tiled, x, y, w);
    BuiltEntries(b, edges, x % b, y % b, w);
    TiledMembers(edges, b, n, t, WEdge(x, y, w));
    TiledMembers(edges, b, n, t, WEdge(y, x, w));
    if x < n && y < n {
      TileIndexBelow(x, n, b);
      TileIndexBelow(y, n, b);
    }
    UpperOnly(edges, x % b, y % b, w);
  }

  lemma {:induction false} UpperOnly(edges: seq<WEdge>, u: nat, v: nat, w: real)
    requires OncePerPair(edges)
    ensures WEdge(u, v, w) in edges ==> u < v
    ensures WEdge(v, u, w) in edges ==> v < u
  {
  }

  /** From the export of any graph, in the triple's own terms: the scaled graph joins
      x and y with w exactly when they lie in the same tile and the triple has the
      entry for their counterparts. */
  lemma {:induction false} ScaledExport(c: Triple, g: Graph, n: nat, x: nat, y: nat, w: real)
    requires WfGraph(g) && Undirected(g) && IsCsr(c, g) && |g.keys| > 0
    ensures WellFormed(c, |g.keys|)
    ensures var b := |g.keys|;
            Exported(Built(n, Tiled(Decoded(c, b, b), b, n, CeilDiv(n, b))), x, y, w) <==>
            x < n && y < n && x / b == y / b && HasEntry(c, x % b, y % b, w)
  {
    var b := |g.keys|;
    DecodedFacts(c, g);
    TiledGraph(Decoded(c, b, b), b, n, x, y, w);
    RebuiltExports(c, g, x % b, y % b, w);
    hide Built;
    hide Tiled;
    hide Decoded;
  }
}
