/** Closing the lineage graph window by window (app/context.py, _discover_edges). */
module Discovery {
  import opened Ordering
  import opened Rights
  import opened Catalog

  const NODE_LIMIT := 256
  const EDGE_LIMIT := 1024

  function Adjacent(edges: seq<Edge>, node: Urn): seq<Edge> {
    Filter((e: Edge) => e.upstream == node, edges)
  }

  // --- distances ------------------------------------------------------------------

  /** The queue lists the nodes found so far, nearest first. */
  ghost predicate QueueOk(source: Urn, queue: seq<Urn>, distances: map<Urn, nat>) {
    && Distinct(queue) && Elements(queue) == distances.Keys
    && source in distances && distances[source] == 0
    && forall j, k | 0 <= j < k < |queue| :: distances[queue[j]] <= distances[queue[k]]
  }

  ghost predicate IsLayered(graph: set<Edge>, source: Urn, distances: map<Urn, nat>) {
    forall u | u in distances :: u in Within(graph, source, distances[u])
  }

  /** Every edge out of `node` leads to a node at most one further away. */
  ghost predicate Settled(graph: set<Edge>, node: Urn, distances: map<Urn, nat>) {
    node in distances
    && forall e | e in graph && e.upstream == node :: e.downstream in distances && distances[e.downstream] <= distances[node] + 1
  }

  lemma {:induction false} SettledIsShortest(graph: set<Edge>, source: Urn, distances: map<Urn, nat>, n: nat)
    requires source in distances && distances[source] == 0
    requires forall u | u in distances :: Settled(graph, u, distances)
    ensures forall u | u in Within(graph, source, n) :: u in distances && distances[u] <= n
  {
    if n > 0 {
      SettledIsShortest(graph, source, distances, n - 1);
      forall u | u in Within(graph, source, n) ensures u in distances && distances[u] <= n {
        if u !in Within(graph, source, n - 1) {
          var e :| e in graph && e.upstream in Within(graph, source, n - 1) && e.downstream == u;
          assert Settled(graph, e.upstream, distances);
        }
      }
    }
  }

  /** The queue loop: every reachable node with its distance, in the order found. */
  method Distances(edges: seq<Edge>, source: Urn) returns (queue: seq<Urn>, distances: map<Urn, nat>)
    ensures Distinct(queue) && Elements(queue) == distances.Keys
    ensures forall u :: u in distances <==> Reachable(Elements(edges), source, u)
    ensures forall u | u in distances :: u in Within(Elements(edges), source, distances[u])
    ensures forall u, n: nat | u in distances && n < distances[u] :: u !in Within(Elements(edges), source, n)
  {
    ghost var graph, all := Elements(edges), {source} + Heads(edges);
    distances := map[source := 0];
    queue := [source];
    var i := 0;
    while i < |queue|
      invariant i <= |queue| && QueueOk(source, queue, distances) && IsLayered(graph, source, distances)
      invariant distances.Keys <= all
      invariant forall k | 0 <= k < i :: Settled(graph, queue[k], distances)
      invariant i < |queue| ==> AllNear(queue, distances, distances[queue[i]] + 1)
      decreases |all| - i
    {
      DistinctCount(queue);
      SubsetCount(distances.Keys, all);
      var queue', distances' := VisitTargets(edges, source, queue, distances, i);
      NodeFollowed(edges, source, queue, distances, i, queue', distances');
      queue, distances := queue', distances';
      i := i + 1;
    }
    forall u | u in distances ensures Settled(graph, u, distances) {
      assert u in Elements(queue);
    }
    forall n: nat ensures forall u | u in Within(graph, source, n) :: u in distances && distances[u] <= n {
      SettledIsShortest(graph, source, distances, n);
    }
  }

  lemma Enqueued(source: Urn, queue: seq<Urn>, distances: map<Urn, nat>, u: Urn, n: nat)
    requires QueueOk(source, queue, distances) && u !in distances
    requires AllNear(queue, distances, n)
    ensures QueueOk(source, queue + [u], distances[u := n])
  {
    var longer, more := queue + [u], distances[u := n];
    ElementsAppend(queue, u);
    assert u !in Elements(queue);
    assert forall j | 0 <= j < |queue| :: longer[j] in Elements(queue) && more[longer[j]] == distances[queue[j]];
  }

  lemma EnqueuedLayer(graph: set<Edge>, source: Urn, distances: map<Urn, nat>, e: Edge)
    requires IsLayered(graph, source, distances) && e in graph && e.upstream in distances
    ensures IsLayered(graph, source, distances[e.downstream := distances[e.upstream] + 1])
  {
    assert e.downstream in Within(graph, source, distances[e.upstream] + 1);
  }

  ghost predicate Extends(distances: map<Urn, nat>, more: map<Urn, nat>) {
    forall u | u in distances :: u in more && more[u] == distances[u]
  }

  ghost predicate AllNear(us: seq<Urn>, distances: map<Urn, nat>, limit: nat) {
    forall j | 0 <= j < |us| :: us[j] in distances && distances[us[j]] <= limit
  }

  /** The edges from `node` to `heads` have been followed. */
  ghost predicate Following(source: Urn, node: Urn, heads: seq<Urn>, queue: seq<Urn>, distances: map<Urn, nat>) {
    && QueueOk(source, queue, distances)
    && node in distances && AllNear(queue, distances, distances[node] + 1) && AllNear(heads, distances, distances[node] + 1)
  }

  lemma Followed(source: Urn, node: Urn, heads: seq<Urn>, queue: seq<Urn>, distances: map<Urn, nat>, u: Urn)
    requires Following(source, node, heads, queue, distances)
    ensures u in distances ==> Following(source, node, heads + [u], queue, distances)
    ensures u !in distances ==>
              var more := distances[u := distances[node] + 1];
              Following(source, node, heads + [u], queue + [u], more) && Extends(distances, more)
  {
    var near := distances[node] + 1;
    if u !in distances {
      var more := distances[u := near];
      Enqueued(source, queue, distances, u, near);
      NearGrows(heads, distances, more, near, u);
      NearGrows(queue, distances, more, near, u);
    } else {
      var k :| 0 <= k < |queue| && queue[k] == u;
      NearGrows(heads, distances, distances, near, u);
    }
  }

  lemma NearGrows(us: seq<Urn>, distances: map<Urn, nat>, more: map<Urn, nat>, limit: nat, u: Urn)
    requires AllNear(us, distances, limit) && Extends(distances, more) && u in more && more[u] <= limit
    ensures AllNear(us + [u], more, limit)
  {
  }

  function HeadList(edges: seq<Edge>): seq<Urn> { Map((e: Edge) => e.downstream, edges) }

  /** What following the first edges out of `node` has made of the queue. */
  ghost predicate Visited(edges: seq<Edge>, source: Urn, node: Urn, heads: seq<Urn>, queue: seq<Urn>, distances: map<Urn, nat>, queue': seq<Urn>, distances': map<Urn, nat>) {
    && queue <= queue' && Extends(distances, distances') && distances'.Keys <= distances.Keys + Heads(edges)
    && Following(source, node, heads, queue', distances') && IsLayered(Elements(edges), source, distances')
  }

  lemma VisitedOne(edges: seq<Edge>, source: Urn, node: Urn, heads: seq<Urn>, queue: seq<Urn>, distances: map<Urn, nat>, queue': seq<Urn>, distances': map<Urn, nat>, e: Edge)
    requires Visited(edges, source, node, heads, queue, distances, queue', distances') && e in edges && e.upstream == node
    ensures e.downstream in distances' ==> Visited(edges, source, node, heads + [e.downstream], queue, distances, queue', distances')
    ensures e.downstream !in distances' ==>
              Visited(edges, source, node, heads + [e.downstream], queue, distances,
                      queue' + [e.downstream], distances'[e.downstream := distances'[node] + 1])
  {
    Followed(source, node, heads, queue', distances', e.downstream);
    EnqueuedLayer(Elements(edges), source, distances', e);
  }

  lemma HeadListNext(edges: seq<Edge>, k: nat)
    requires k < |edges|
    ensures HeadList(edges[..k + 1]) == HeadList(edges[..k]) + [edges[k].downstream]
  {
  }

  method VisitTargets(edges: seq<Edge>, source: Urn, queue: seq<Urn>, distances: map<Urn, nat>, i: nat)
    returns (queue': seq<Urn>, distances': map<Urn, nat>)
    requires i < |queue| && Following(source, queue[i], [], queue, distances) && IsLayered(Elements(edges), source, distances)
    ensures Visited(edges, source, queue[i], HeadList(Adjacent(edges, queue[i])), queue, distances, queue', distances')
  {
    var node := queue[i];
    var out := Adjacent(edges, node);
    queue', distances' := queue, distances;
    for k := 0 to |out|
      invariant Visited(edges, source, node, HeadList(out[..k]), queue, distances, queue', distances')
    {
      var target := out[k].downstream;
      assert out[k] in out;
      HeadListNext(out, k);
      VisitedOne(edges, source, node, HeadList(out[..k]), queue, distances, queue', distances', out[k]);
      if target !in distances' {
        distances' := distances'[target := distances'[node] + 1];
        queue' := queue' + [target];
      }
    }
    assert out[..|out|] == out;
  }

  /** Following the edges of node `i` settles it and keeps the others settled. */
  lemma NodeFollowed(edges: seq<Edge>, source: Urn, queue: seq<Urn>, distances: map<Urn, nat>, i: nat, queue': seq<Urn>, distances': map<Urn, nat>)
    requires i < |queue|
    requires Visited(edges, source, queue[i], HeadList(Adjacent(edges, queue[i])), queue, distances, queue', distances')
    requires forall k | 0 <= k < i :: Settled(Elements(edges), queue[k], distances)
    ensures forall k | 0 <= k <= i :: Settled(Elements(edges), queue'[k], distances')
    ensures i + 1 < |queue'| ==> AllNear(queue', distances', distances'[queue'[i + 1]] + 1)
  {
    var node := queue[i];
    var out := Adjacent(edges, node);
    forall e | e in Elements(edges) && e.upstream == node
      ensures e.downstream in distances' && distances'[e.downstream] <= distances'[node] + 1
    {
      assert e in out;
      var k :| 0 <= k < |out| && out[k] == e;
      assert HeadList(out)[k] == e.downstream;
    }
    StillSettled(Elements(edges), queue, distances, distances', i);
    if i + 1 < |queue'| {
      assert distances'[queue'[i]] <= distances'[queue'[i + 1]];
    }
  }

  lemma StillSettled(graph: set<Edge>, queue: seq<Urn>, distances: map<Urn, nat>, more: map<Urn, nat>, i: nat)
    requires i <= |queue| && Extends(distances, more)
    requires forall k | 0 <= k < i :: Settled(graph, queue[k], distances)
    ensures forall k | 0 <= k < i :: Settled(graph, queue[k], more)
  {
    forall k | 0 <= k < i ensures Settled(graph, queue[k], more) {
      assert Settled(graph, queue[k], distances);
    }
  }

  // --- closure ----------------------------------------------------------------------

  ghost predicate IsOnward(graph: set<Edge>, source: Urn, e: Edge) {
    e in graph && Reachable(graph, source, e.upstream)
  }

  /** More reachable nodes or edges than discovery is willing to handle. */
  ghost predicate TooLarge(graph: set<Edge>, source: Urn) {
    || (exists nodes: set<Urn> :: |nodes| > 256 && forall u | u in nodes :: Reachable(graph, source, u))
    || (exists edges: set<Edge> :: |edges| > 1024 && forall e | e in edges :: IsOnward(graph, source, e))
  }

  ghost predicate IsClosed(graph: set<Edge>, edges: set<Edge>, nodes: set<Urn>) {
    forall e | e in graph && e.upstream in nodes :: e in edges
  }

  /** Discovery state: what is known is true, and what was expanded is complete. */
  ghost predicate Progress(graph: set<Edge>, source: Urn, window: nat, edges: seq<Edge>, expanded: set<Urn>) {
    && Distinct(edges) && (forall e | e in edges :: IsOnward(graph, source, e))
    && IsClosed(graph, Elements(edges), expanded) && IsClosed(graph, Elements(edges), Below(graph, source, window))
  }

  lemma {:induction false} ReachedThroughKnown(graph: set<Edge>, source: Urn, edges: set<Edge>, n: nat)
    requires edges <= graph
    requires forall u | Reachable(edges, source, u) :: IsClosed(graph, edges, {u})
    ensures forall u | u in Within(graph, source, n) :: Reachable(edges, source, u)
  {
    if n == 0 {
      assert source in Within(edges, source, 0);
    } else {
      ReachedThroughKnown(graph, source, edges, n - 1);
      forall u | u in Within(graph, source, n) ensures Reachable(edges, source, u) {
        if u !in Within(graph, source, n - 1) {
          var e :| e in graph && e.upstream in Within(graph, source, n - 1) && e.downstream == u;
          assert IsClosed(graph, edges, {e.upstream});
          ReachableStep(edges, source, e);
        }
      }
    }
  }

  lemma KnownIsReachable(graph: set<Edge>, source: Urn, edges: set<Edge>, u: Urn)
    requires edges <= graph && Reachable(edges, source, u)
    ensures Reachable(graph, source, u)
  {
    var n: nat :| u in Within(edges, source, n);
    WithinMonotone(edges, graph, source, n);
  }

  /** With no unexpanded node at or past the window, what is known is everything. */
  lemma NothingLeft(graph: set<Edge>, source: Urn, window: nat, edges: seq<Edge>, expanded: set<Urn>, distances: map<Urn, nat>)
    requires Progress(graph, source, window, edges, expanded)
    requires forall u :: u in distances <==> Reachable(Elements(edges), source, u)
    requires forall u | u in distances :: u in Within(Elements(edges), source, distances[u])
    requires forall u | u in distances :: distances[u] < window || u in expanded
    ensures forall u :: u in distances <==> Reachable(graph, source, u)
    ensures forall e :: e in edges <==> IsOnward(graph, source, e)
  {
    var known := Elements(edges);
    assert known <= graph;
    forall u | Reachable(known, source, u) ensures IsClosed(graph, known, {u}) {
      KnownIsClosed(graph, source, window, known, expanded, u, distances[u]);
    }
    forall u ensures u in distances <==> Reachable(graph, source, u) {
      if u in distances { KnownIsReachable(graph, source, known, u); }
      if Reachable(graph, source, u) {
        var n: nat :| u in Within(graph, source, n);
        ReachedThroughKnown(graph, source, known, n);
      }
    }
    forall e | IsOnward(graph, source, e) ensures e in edges {
      assert IsClosed(graph, known, {e.upstream});
    }
  }

  lemma KnownIsClosed(graph: set<Edge>, source: Urn, window: nat, known: set<Edge>, expanded: set<Urn>, u: Urn, n: nat)
    requires known <= graph && IsClosed(graph, known, expanded) && IsClosed(graph, known, Below(graph, source, window))
    requires u in Within(known, source, n) && (n < window || u in expanded)
    ensures IsClosed(graph, known, {u})
  {
    if n < window {
      NearIsBelow(graph, source, window, known, u, n);
    }
  }

  lemma NearIsBelow(graph: set<Edge>, source: Urn, window: nat, known: set<Edge>, u: Urn, n: nat)
    requires known <= graph && u in Within(known, source, n) && n < window
    ensures u in Below(graph, source, window)
  {
    WithinMonotone(known, graph, source, n);
    WithinGrows(graph, source, n, window - 1);
  }

  lemma WithinLimits(graph: set<Edge>, source: Urn, edges: seq<Edge>, distances: map<Urn, nat>)
    requires |distances| <= NODE_LIMIT && |edges| <= EDGE_LIMIT
    requires forall u | Reachable(graph, source, u) :: u in distances
    requires forall e | IsOnward(graph, source, e) :: e in edges
    requires Distinct(edges)
    ensures !TooLarge(graph, source)
  {
    DistinctCount(edges);
    forall nodes: set<Urn> | forall u | u in nodes :: Reachable(graph, source, u) ensures |nodes| <= NODE_LIMIT {
      SubsetCount(nodes, distances.Keys);
    }
    forall more: set<Edge> | forall e | e in more :: IsOnward(graph, source, e) ensures |more| <= EDGE_LIMIT {
      SubsetCount(more, Elements(edges));
    }
  }

  lemma PastLimits(graph: set<Edge>, source: Urn, window: nat, edges: seq<Edge>, expanded: set<Urn>, distances: map<Urn, nat>)
    requires Progress(graph, source, window, edges, expanded)
    requires forall u | u in distances :: Reachable(Elements(edges), source, u)
    ensures |distances| > NODE_LIMIT || |edges| > EDGE_LIMIT ==> TooLarge(graph, source)
  {
    assert Elements(edges) <= graph;
    if |distances| > NODE_LIMIT {
      forall u | u in distances.Keys ensures Reachable(graph, source, u) {
        KnownIsReachable(graph, source, Elements(edges), u);
      }
    }
    DistinctCount(edges);
    assert |edges| > EDGE_LIMIT ==> |Elements(edges)| > EDGE_LIMIT;
  }

  /** Discovery closure.  It raises exactly when the reachable graph is too large;
      otherwise it returns each edge leaving a reachable node, once, and no other,
      whatever the window and the shape of the graph. */
  method DiscoverEdges(catalog: FakeCatalog, source: Urn, window: nat) returns (result: Option<seq<Edge>>)
    requires Filed(catalog.lineage)
    ensures result.None? <==> TooLarge(GraphOf(catalog.lineage), source)
    ensures result.Some? ==> Distinct(result.value)
    ensures result.Some? ==> forall e :: e in result.value <==> IsOnward(GraphOf(catalog.lineage), source, e)
  {
    ghost var graph := GraphOf(catalog.lineage);
    var edges := catalog.GetDownstreamLineage(source, window);
    FirstWindow(graph, source, window, edges);
    var expanded: set<Urn> := {};
    while true
      invariant Progress(graph, source, window, edges, expanded)
      invariant |expanded| <= NODE_LIMIT && forall u | u in expanded :: Reachable(Elements(edges), source, u)
      decreases NODE_LIMIT - |expanded|
    {
      var queue, distances := Distances(edges, source);
      if |distances| > NODE_LIMIT || |edges| > EDGE_LIMIT {
        PastLimits(graph, source, window, edges, expanded, distances);
        return None;
      }
      var frontier := Filter((u: Urn) => u in distances && distances[u] >= window && u !in expanded, queue);
      if frontier == [] {
        forall u | u in distances ensures distances[u] < window || u in expanded {
          assert u in Elements(queue) && u !in frontier;
        }
        NothingLeft(graph, source, window, edges, expanded, distances);
        WithinLimits(graph, source, edges, distances);
        return Some(edges);
      }
      ghost var before := expanded;
      assert frontier[0] in frontier;
      assert forall u | u in frontier :: u in distances;
      edges, expanded := ExpandFrontier(catalog, source, window, edges, expanded, frontier);
      SubsetCount(expanded, distances.Keys);
      SubsetCount(before + {frontier[0]}, expanded);
    }
  }

  lemma FirstWindow(graph: set<Edge>, source: Urn, window: nat, edges: seq<Edge>)
    requires Distinct(edges) && Elements(edges) == EdgesFrom(graph, Below(graph, source, window))
    ensures Progress(graph, source, window, edges, {})
  {
    forall e | e in edges ensures IsOnward(graph, source, e) {
      assert e in Elements(edges) && e.upstream in Within(graph, source, window - 1);
    }
  }

  method ExpandFrontier(catalog: FakeCatalog, source: Urn, window: nat, edges: seq<Edge>, expanded: set<Urn>, frontier: seq<Urn>)
    returns (edges': seq<Edge>, expanded': set<Urn>)
    requires Filed(catalog.lineage) && Progress(GraphOf(catalog.lineage), source, window, edges, expanded)
    requires forall u | u in expanded || u in frontier :: Reachable(Elements(edges), source, u)
    ensures Progress(GraphOf(catalog.lineage), source, window, edges', expanded')
    ensures expanded' == expanded + Elements(frontier)
    ensures forall u | u in expanded' :: Reachable(Elements(edges'), source, u)
  {
    ghost var graph := GraphOf(catalog.lineage);
    edges', expanded' := edges, expanded;
    for i := 0 to |frontier|
      invariant Progress(graph, source, window, edges', expanded') && Elements(edges) <= Elements(edges')
      invariant expanded' == expanded + Elements(frontier[..i])
    {
      var node := frontier[i];
      assert frontier[..i + 1] == frontier[..i] + [node];
      ElementsAppend(frontier[..i], node);
      KnownIsReachable(graph, source, Elements(edges), node);
      var batch := catalog.GetDownstreamLineage(node, 1);
      ghost var before := edges';
      edges' := Merge(edges', batch);
      BatchProgress(graph, source, window, before, expanded', node, batch, edges');
      expanded' := expanded' + {node};
    }
    assert frontier[..|frontier|] == frontier;
    forall u | u in expanded' ensures Reachable(Elements(edges'), source, u) {
      KnownIsReachable(Elements(edges'), source, Elements(edges), u);
    }
  }

  /** Append what is not known yet. */
  method Merge(edges: seq<Edge>, batch: seq<Edge>) returns (merged: seq<Edge>)
    requires Distinct(edges)
    ensures Distinct(merged) && Elements(merged) == Elements(edges) + Elements(batch)
  {
    merged := edges;
    var known := Elements(edges);
    for k := 0 to |batch|
      invariant Distinct(merged) && Elements(merged) == known == Elements(edges) + Elements(batch[..k])
    {
      assert batch[..k + 1] == batch[..k] + [batch[k]];
      ElementsAppend(batch[..k], batch[k]);
      if batch[k] !in known {
        ElementsAppend(merged, batch[k]);
        assert batch[k] !in Elements(merged);
        merged := merged + [batch[k]];
        known := known + {batch[k]};
      }
    }
    assert batch[..|batch|] == batch;
  }

  lemma BatchProgress(graph: set<Edge>, source: Urn, window: nat, edges: seq<Edge>, expanded: set<Urn>, node: Urn, batch: seq<Edge>, merged: seq<Edge>)
    requires Progress(graph, source, window, edges, expanded) && Reachable(graph, source, node)
    requires Elements(batch) == EdgesFrom(graph, Below(graph, node, 1))
    requires Distinct(merged) && Elements(merged) == Elements(edges) + Elements(batch)
    ensures Progress(graph, source, window, merged, expanded + {node})
  {
    assert Below(graph, node, 1) == {node};
    forall e | e in merged ensures IsOnward(graph, source, e) {
      assert e in Elements(merged);
    }
  }
}
