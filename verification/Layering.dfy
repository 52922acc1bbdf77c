/** Longest-path layering of the lineage picture (web/src/LineageGraph.tsx,
    layerNodes). */
module Layering {
  import opened Rights
  import opened Ordering
  import opened Catalog
  import opened Discovery
  import opened Paths

  type Depths = map<Urn, int>

  function At(depth: Depths, u: Urn): int { if u in depth then depth[u] else -1 }

  function Initial(nodes: seq<Urn>, source: Urn): Depths {
    map u | u in nodes :: if u == source then 0 else -1
  }

  function RelaxEdge(depth: Depths, e: Edge): Depths {
    if At(depth, e.upstream) < 0 then depth
    else if At(depth, e.downstream) < At(depth, e.upstream) + 1 then depth[e.downstream := At(depth, e.upstream) + 1]
    else depth
  }

  /** One pass over the edges, in place. */
  function RelaxAll(depth: Depths, edges: seq<Edge>): Depths {
    if edges == [] then depth
    else RelaxEdge(RelaxAll(depth, edges[..|edges| - 1]), edges[|edges| - 1])
  }

  function Passes(depth: Depths, edges: seq<Edge>, k: nat): Depths {
    if k == 0 then depth else RelaxAll(Passes(depth, edges, k - 1), edges)
  }

  /** The listed nodes nothing reached are put beside the first hop. */
  function PlaceRest(depth: Depths, nodes: seq<Urn>): Depths {
    map u | u in depth.Keys + Elements(nodes) :: if u in nodes && At(depth, u) < 0 then 1 else At(depth, u)
  }

  function Relaxed(nodes: seq<Urn>, edges: seq<Edge>, source: Urn): Depths {
    Passes(Initial(nodes, source), edges, |nodes| + 1)
  }

  function Layers(nodes: seq<Urn>, edges: seq<Edge>, source: Urn): Depths {
    PlaceRest(Relaxed(nodes, edges, source), nodes)
  }

  method RelaxPass(edges: seq<Edge>, before: Depths) returns (depth: Depths)
    ensures depth == RelaxAll(before, edges)
  {
    depth := before;
    for k := 0 to |edges|
      invariant depth == RelaxAll(before, edges[..k])
    {
      var edge := edges[k];
      assert edges[..k + 1][..k] == edges[..k];
      var from := if edge.upstream in depth then depth[edge.upstream] else -1;
      if from < 0 {
        continue;
      }
      var current := if edge.downstream in depth then depth[edge.downstream] else -1;
      if current < from + 1 {
        depth := depth[edge.downstream := from + 1];
      }
    }
    assert edges[..|edges|] == edges;
  }

  method StartDepths(nodes: seq<Urn>, source: Urn) returns (depth: Depths)
    ensures depth == Initial(nodes, source)
  {
    depth := map[];
    for i := 0 to |nodes|
      invariant depth == Initial(nodes[..i], source)
    {
      assert nodes[..i + 1] == nodes[..i] + [nodes[i]];
      depth := depth[nodes[i] := if nodes[i] == source then 0 else -1];
    }
    assert nodes[..|nodes|] == nodes;
  }

  method PlaceUnreached(nodes: seq<Urn>, relaxed: Depths) returns (depth: Depths)
    ensures depth == PlaceRest(relaxed, nodes)
  {
    depth := relaxed;
    for i := 0 to |nodes|
      invariant depth == PlaceRest(relaxed, nodes[..i])
    {
      PlaceOne(relaxed, nodes, i);
      if At(depth, nodes[i]) < 0 {
        depth := depth[nodes[i] := 1];
      }
    }
    assert nodes[..|nodes|] == nodes;
  }

  lemma PlaceOne(relaxed: Depths, nodes: seq<Urn>, i: nat)
    requires i < |nodes|
    ensures var before := PlaceRest(relaxed, nodes[..i]);
            PlaceRest(relaxed, nodes[..i + 1]) == if At(before, nodes[i]) < 0 then before[nodes[i] := 1] else before
  {
    assert nodes[..i + 1] == nodes[..i] + [nodes[i]];
    ElementsAppend(nodes[..i], nodes[i]);
  }

  method LayerNodes(nodes: seq<Urn>, edges: seq<Edge>, source: Urn) returns (depth: Depths)
    ensures depth == Layers(nodes, edges, source)
  {
    depth := StartDepths(nodes, source);
    for pass := 0 to |nodes| + 1
      invariant depth == Passes(Initial(nodes, source), edges, pass)
    {
      depth := RelaxPass(edges, depth);
    }
    depth := PlaceUnreached(nodes, depth);
  }

  // --- what relaxation finds ----------------------------------------------------------

  ghost predicate IsRouteOf(edges: seq<Edge>, source: Urn, u: Urn, chain: seq<Edge>) {
    IsRoute(Elements(edges), source, chain) && EndOf(source, chain) == u
  }

  /** Every depth is the length of some route. */
  ghost predicate DepthsAreRoutes(edges: seq<Edge>, source: Urn, depth: Depths) {
    forall u | u in depth && depth[u] >= 0 :: HasRouteOf(edges, source, u, depth[u])
  }

  ghost predicate HasRouteOf(edges: seq<Edge>, source: Urn, u: Urn, n: int) {
    exists chain :: IsRouteOf(edges, source, u, chain) && |chain| == n
  }

  lemma RouteExtends(edges: seq<Edge>, source: Urn, e: Edge, n: nat)
    requires e in edges && HasRouteOf(edges, source, e.upstream, n)
    ensures HasRouteOf(edges, source, e.downstream, n + 1)
  {
    var chain :| IsRouteOf(edges, source, e.upstream, chain) && |chain| == n;
    RoutesJoin(Elements(edges), source, chain, [e]);
    assert IsRouteOf(edges, source, e.downstream, chain + [e]);
  }

  lemma {:induction false} RelaxAllKeepsRoutes(all: seq<Edge>, source: Urn, depth: Depths, edges: seq<Edge>)
    requires DepthsAreRoutes(all, source, depth) && forall e | e in edges :: e in all
    ensures DepthsAreRoutes(all, source, RelaxAll(depth, edges))
  {
    if edges != [] {
      var n := |edges| - 1;
      RelaxAllKeepsRoutes(all, source, depth, edges[..n]);
      var before := RelaxAll(depth, edges[..n]);
      if At(before, edges[n].upstream) >= 0 {
        RouteExtends(all, source, edges[n], At(before, edges[n].upstream));
      }
    }
  }

  /** A pass only raises depths, and puts each edge's end past where its start was. */
  lemma {:induction false} RelaxAllRaises(depth: Depths, edges: seq<Edge>)
    ensures forall u :: At(depth, u) <= At(RelaxAll(depth, edges), u)
    ensures forall e | e in edges && At(depth, e.upstream) >= 0 :: At(RelaxAll(depth, edges), e.downstream) >= At(depth, e.upstream) + 1
  {
    if edges != [] {
      var n := |edges| - 1;
      RelaxAllRaises(depth, edges[..n]);
      assert edges == edges[..n] + [edges[n]];
    }
  }

  lemma {:induction false} RouteSplits(edges: set<Edge>, node: Urn, chain: seq<Edge>)
    requires chain != [] && IsRoute(edges, node, chain)
    ensures var n := |chain| - 1;
            && IsRoute(edges, node, chain[..n]) && chain[n] in edges && chain[n].upstream == EndOf(node, chain[..n])
    decreases |chain|
  {
    var n := |chain| - 1;
    if n > 0 {
      RouteSplits(edges, chain[0].downstream, chain[1..]);
      assert chain[1..][..n - 1] == chain[..n][1..];
      assert EndOf(chain[0].downstream, chain[1..][..n - 1]) == EndOf(node, chain[..n]);
    }
  }

  /** After `k` passes every route of at most `k` edges is accounted for. */
  lemma {:induction false} PassesCoverRoutes(nodes: seq<Urn>, edges: seq<Edge>, source: Urn, k: nat, chain: seq<Edge>)
    requires source in nodes && IsRoute(Elements(edges), source, chain) && |chain| <= k
    ensures At(Passes(Initial(nodes, source), edges, k), EndOf(source, chain)) >= |chain|
    decreases k
  {
    if k > 0 {
      var before := Passes(Initial(nodes, source), edges, k - 1);
      RelaxAllRaises(before, edges);
      if chain == [] || |chain| < k {
        PassesCoverRoutes(nodes, edges, source, k - 1, chain);
      } else {
        var n := |chain| - 1;
        RouteSplits(Elements(edges), source, chain);
        PassesCoverRoutes(nodes, edges, source, k - 1, chain[..n]);
      }
    }
  }

  lemma {:induction false} PassesAreRoutes(nodes: seq<Urn>, edges: seq<Edge>, source: Urn, k: nat)
    ensures DepthsAreRoutes(edges, source, Passes(Initial(nodes, source), edges, k))
  {
    if k == 0 {
      assert IsRouteOf(edges, source, source, []);
    } else {
      PassesAreRoutes(nodes, edges, source, k - 1);
      RelaxAllKeepsRoutes(edges, source, Passes(Initial(nodes, source), edges, k - 1), edges);
    }
  }

  ghost predicate EndsAreListed(nodes: seq<Urn>, edges: seq<Edge>) {
    forall e | e in edges :: e.upstream in nodes && e.downstream in nodes
  }

  lemma {:induction false} RouteIsListed(nodes: seq<Urn>, edges: seq<Edge>, node: Urn, chain: seq<Edge>)
    requires EndsAreListed(nodes, edges) && node in nodes && IsRoute(Elements(edges), node, chain)
    ensures Elements(Hops([node], chain)) <= Elements(nodes)
    decreases |chain|
  {
    if chain != [] {
      RouteIsListed(nodes, edges, chain[0].downstream, chain[1..]);
      assert Hops([node], chain) == [node] + Hops([chain[0].downstream], chain[1..]);
    }
  }

  lemma {:induction false} ElementsAreFewer<T>(xs: seq<T>)
    ensures |Elements(xs)| <= |xs|
  {
    if xs != [] {
      var n := |xs| - 1;
      ElementsAreFewer(xs[..n]);
      ElementsAppend(xs[..n], xs[n]);
      assert xs == xs[..n] + [xs[n]];
    }
  }

  ghost predicate IsReached(edges: seq<Edge>, source: Urn, u: Urn) {
    exists chain :: IsRouteOf(edges, source, u, chain)
  }

  /** The edges that leave a reached node; cycles among other nodes are not in it. */
  ghost function ReachedEdges(edges: seq<Edge>, source: Urn): set<Edge> {
    set e | e in edges && IsReached(edges, source, e.upstream)
  }

  lemma {:induction false} RouteIsReached(edges: seq<Edge>, source: Urn, node: Urn, chain: seq<Edge>)
    requires IsReached(edges, source, node) && IsRoute(Elements(edges), node, chain)
    ensures IsRoute(ReachedEdges(edges, source), node, chain)
    decreases |chain|
  {
    if chain != [] {
      var before :| IsRouteOf(edges, source, node, before);
      assert HasRouteOf(edges, source, node, |before|);
      RouteExtends(edges, source, chain[0], |before|);
      var longer :| IsRouteOf(edges, source, chain[0].downstream, longer) && |longer| == |before| + 1;
      RouteIsReached(edges, source, chain[0].downstream, chain[1..]);
    }
  }

  lemma SourceIsReached(edges: seq<Edge>, source: Urn)
    ensures IsReached(edges, source, source)
  {
    assert IsRouteOf(edges, source, source, []);
  }

  /** The edges out of reached nodes can be drawn forwards at all. */
  ghost predicate CanGoForward(edges: seq<Edge>, source: Urn) {
    exists rank :: IsAcyclic(ReachedEdges(edges, source), rank)
  }

  /** Without a cycle among reached nodes a route visits a listed node at most once. */
  lemma RoutesAreShort(nodes: seq<Urn>, edges: seq<Edge>, source: Urn, chain: seq<Edge>)
    requires EndsAreListed(nodes, edges) && source in nodes && CanGoForward(edges, source)
    requires IsRoute(Elements(edges), source, chain)
    ensures |chain| < |nodes|
  {
    var rank :| IsAcyclic(ReachedEdges(edges, source), rank);
    var hops := Hops([source], chain);
    SourceIsReached(edges, source);
    RouteIsReached(edges, source, source, chain);
    RanksRise(ReachedEdges(edges, source), rank, source, chain);
    assert Distinct(hops);
    DistinctCount(hops);
    RouteIsListed(nodes, edges, source, chain);
    SubsetCount(Elements(hops), Elements(nodes));
    ElementsAreFewer(nodes);
  }

  /** Among listed nodes, with no cycle among the reached ones: a reached node's layer
      is the length of the longest route to it.  Every other node's layer is 1, cycles
      or not. */
  lemma LayersAreLongestRoutes(nodes: seq<Urn>, edges: seq<Edge>, source: Urn, u: Urn)
    requires EndsAreListed(nodes, edges) && source in nodes && u in nodes
    ensures var layer := At(Layers(nodes, edges, source), u);
            if !IsReached(edges, source, u) then layer == 1
            else CanGoForward(edges, source) ==>
              HasRouteOf(edges, source, u, layer)
              && forall chain | IsRouteOf(edges, source, u, chain) :: |chain| <= layer
  {
    var relaxed := Relaxed(nodes, edges, source);
    PassesAreRoutes(nodes, edges, source, |nodes| + 1);
    if !IsReached(edges, source, u) {
      assert At(relaxed, u) < 0;
    } else if CanGoForward(edges, source) {
      forall chain | IsRouteOf(edges, source, u, chain) ensures |chain| <= At(relaxed, u) {
        RoutesAreShort(nodes, edges, source, chain);
        PassesCoverRoutes(nodes, edges, source, |nodes| + 1, chain);
      }
      var chain :| IsRouteOf(edges, source, u, chain);
      assert At(relaxed, u) >= |chain|;
    }
  }

  lemma EdgesGoForward(nodes: seq<Urn>, edges: seq<Edge>, source: Urn, e: Edge)
    requires EndsAreListed(nodes, edges) && source in nodes && CanGoForward(edges, source)
    requires e in edges && IsReached(edges, source, e.upstream)
    ensures At(Layers(nodes, edges, source), e.upstream) < At(Layers(nodes, edges, source), e.downstream)
  {
    LayersAreLongestRoutes(nodes, edges, source, e.upstream);
    LayersAreLongestRoutes(nodes, edges, source, e.downstream);
    var n := At(Layers(nodes, edges, source), e.upstream);
    RouteExtends(edges, source, e, n);
    var chain :| IsRouteOf(edges, source, e.downstream, chain) && |chain| == n + 1;
  }

  /** Every edge out of a reached node is drawn to a later layer exactly when the
      edges out of reached nodes form no cycle. */
  lemma ForwardExactly(nodes: seq<Urn>, edges: seq<Edge>, source: Urn)
    requires EndsAreListed(nodes, edges) && source in nodes
    ensures CanGoForward(edges, source) <==>
              forall e | e in ReachedEdges(edges, source) ::
                At(Layers(nodes, edges, source), e.upstream) < At(Layers(nodes, edges, source), e.downstream)
  {
    var layers := Layers(nodes, edges, source);
    if CanGoForward(edges, source) {
      forall e | e in ReachedEdges(edges, source) ensures At(layers, e.upstream) < At(layers, e.downstream) {
        EdgesGoForward(nodes, edges, source, e);
      }
    }
    if forall e | e in ReachedEdges(edges, source) :: At(layers, e.upstream) < At(layers, e.downstream) {
      var rank := (u: Urn) => if At(layers, u) >= 0 then At(layers, u) as nat else 0;
      forall e | e in ReachedEdges(edges, source) ensures rank(e.upstream) < rank(e.downstream) {
        assert At(layers, e.upstream) >= 0;
      }
      assert IsAcyclic(ReachedEdges(edges, source), rank);
    }
  }

  /** Two nodes that feed each other, reached from the source: some edge between them
      does not go to a later layer. */
  lemma CycleGoesBackwards(source: Urn, a: Urn, b: Urn)
    requires source != a && source != b && a != b
    ensures var edges := [Edge(source, a, true), Edge(a, b, true), Edge(b, a, true)];
            var layers := Layers([source, a, b], edges, source);
            exists e | e in ReachedEdges(edges, source) :: At(layers, e.upstream) >= At(layers, e.downstream)
  {
    var edges := [Edge(source, a, true), Edge(a, b, true), Edge(b, a, true)];
    SourceIsReached(edges, source);
    assert HasRouteOf(edges, source, source, 0) by { assert IsRouteOf(edges, source, source, []); }
    RouteExtends(edges, source, edges[0], 0);
    RouteExtends(edges, source, edges[1], 1);
    var toA :| IsRouteOf(edges, source, a, toA) && |toA| == 1;
    var toB :| IsRouteOf(edges, source, b, toB) && |toB| == 2;
    assert edges[1] in ReachedEdges(edges, source) && edges[2] in ReachedEdges(edges, source);
    ForwardExactly([source, a, b], edges, source);
  }

  /** One pass over the three edges pushes both nodes of the cycle on. */
  lemma CyclePass(source: Urn, a: Urn, b: Urn, edges: seq<Edge>, depth: Depths)
    requires source != a && source != b && a != b
    requires edges == [Edge(source, a, true), Edge(a, b, true), Edge(b, a, true)]
    requires At(depth, source) == 0 && At(depth, b) <= At(depth, a)
    ensures var m, v := if At(depth, a) < 1 then 1 else At(depth, a), RelaxAll(depth, edges);
            At(v, source) == 0 && At(v, b) == m + 1 && At(v, a) == m + 2
  {
    assert edges[..2] == [edges[0], edges[1]] && edges[..2][..1] == [edges[0]] && edges[..2][..1][..0] == [];
    var first := RelaxEdge(depth, edges[0]);
    assert RelaxAll(depth, [edges[0]]) == first by { assert [edges[0]][..0] == []; }
    assert RelaxAll(depth, edges[..2]) == RelaxEdge(first, edges[1]);
  }

  /** What such a picture looks like: as many passes as there are nodes, and one more,
      push the two nodes of the cycle to layers 9 and 8. */
  lemma CycleLayers(source: Urn, a: Urn, b: Urn)
    requires source != a && source != b && a != b
    ensures var layers := Layers([source, a, b], [Edge(source, a, true), Edge(a, b, true), Edge(b, a, true)], source);
            At(layers, source) == 0 && At(layers, a) == 9 && At(layers, b) == 8
  {
    var nodes, edges := [source, a, b], [Edge(source, a, true), Edge(a, b, true), Edge(b, a, true)];
    var start := Initial(nodes, source);
    assert nodes[0] in nodes && nodes[1] in nodes && nodes[2] in nodes;
    for k: nat := 0 to 4
      invariant At(Passes(start, edges, k), source) == 0
      invariant At(Passes(start, edges, k), a) == (if k == 0 then -1 else 2 * k + 1)
      invariant At(Passes(start, edges, k), b) == (if k == 0 then -1 else 2 * k)
    {
      CyclePass(source, a, b, edges, Passes(start, edges, k));
    }
  }
}
