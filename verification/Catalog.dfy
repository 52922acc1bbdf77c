/** Lineage edges, and the catalog's depth-limited downstream walk
    (adapters/fake_datahub.py). */
module Catalog {
  import opened Ordering
  import opened Rights

  datatype Edge = Edge(upstream: Urn, downstream: Urn, resolved: bool)

  function Targets(graph: set<Edge>, nodes: set<Urn>): set<Urn> {
    set e | e in graph && e.upstream in nodes :: e.downstream
  }

  /** The nodes at most `n` edges downstream of `source`. */
  function Within(graph: set<Edge>, source: Urn, n: nat): set<Urn> {
    if n == 0 then {source}
    else Within(graph, source, n - 1) + Targets(graph, Within(graph, source, n - 1))
  }

  /** The nodes less than `n` edges downstream of `source`. */
  function Below(graph: set<Edge>, source: Urn, n: nat): set<Urn> {
    if n == 0 then {} else Within(graph, source, n - 1)
  }

  ghost predicate Reachable(graph: set<Edge>, source: Urn, u: Urn) {
    exists n: nat :: u in Within(graph, source, n)
  }

  lemma {:induction false} WithinGrows(graph: set<Edge>, source: Urn, m: nat, n: nat)
    requires m <= n
    ensures Within(graph, source, m) <= Within(graph, source, n)
    decreases n - m
  {
    if m < n { WithinGrows(graph, source, m, n - 1); }
  }

  /** Once a level adds nothing, no later level does. */
  lemma {:induction false} LevelsClose(graph: set<Edge>, source: Urn, m: nat, n: nat)
    requires m <= n && Targets(graph, Within(graph, source, m)) <= Within(graph, source, m)
    ensures Within(graph, source, n) == Within(graph, source, m)
    decreases n - m
  {
    if m < n {
      LevelsClose(graph, source, m, n - 1);
      var level := Within(graph, source, n - 1);
      assert Targets(graph, level) <= level;
      assert Within(graph, source, n) == level + Targets(graph, level);
    }
  }

  lemma {:induction false} WithinMonotone(small: set<Edge>, large: set<Edge>, source: Urn, n: nat)
    requires small <= large
    ensures Within(small, source, n) <= Within(large, source, n)
  {
    if n > 0 { WithinMonotone(small, large, source, n - 1); }
  }

  lemma ReachableStep(graph: set<Edge>, source: Urn, e: Edge)
    requires e in graph && Reachable(graph, source, e.upstream)
    ensures Reachable(graph, source, e.downstream)
  {
    var n: nat :| e.upstream in Within(graph, source, n);
    assert e.downstream in Within(graph, source, n + 1);
  }

  /** Edges are filed under their upstream node, none of them twice. */
  ghost predicate Filed(lineage: map<Urn, seq<Edge>>) {
    forall u | u in lineage :: Distinct(lineage[u]) && forall e | e in lineage[u] :: e.upstream == u
  }

  function GraphOf(lineage: map<Urn, seq<Edge>>): set<Edge> {
    set u, e | u in lineage && e in lineage[u] :: e
  }

  function EdgesFrom(graph: set<Edge>, nodes: set<Urn>): set<Edge> {
    set e | e in graph && e.upstream in nodes
  }

  function Elements<T>(xs: seq<T>): set<T> { set x | x in xs }

  function Heads(edges: seq<Edge>): set<Urn> { set e | e in edges :: e.downstream }

  function OutOf(lineage: map<Urn, seq<Edge>>, node: Urn): seq<Edge> {
    if node in lineage then lineage[node] else []
  }

  lemma ElementsAppend<T>(xs: seq<T>, x: T)
    ensures Elements(xs + [x]) == Elements(xs) + {x}
  {
  }

  lemma ElementsConcat<T>(xs: seq<T>, ys: seq<T>)
    ensures Elements(xs + ys) == Elements(xs) + Elements(ys)
  {
  }

  lemma OutEdges(lineage: map<Urn, seq<Edge>>, node: Urn)
    requires Filed(lineage)
    ensures EdgesFrom(GraphOf(lineage), {node}) == Elements(OutOf(lineage, node))
    ensures Targets(GraphOf(lineage), {node}) == Heads(OutOf(lineage, node))
  {
  }

  lemma MoreSources(graph: set<Edge>, nodes: set<Urn>, node: Urn)
    ensures EdgesFrom(graph, nodes + {node}) == EdgesFrom(graph, nodes) + EdgesFrom(graph, {node})
    ensures Targets(graph, nodes + {node}) == Targets(graph, nodes) + Targets(graph, {node})
  {
  }

  /** Expanding the nodes new at a level completes the next level. */
  lemma LevelDone(graph: set<Edge>, source: Urn, n: nat, newest: set<Urn>)
    requires newest == Within(graph, source, n) - Below(graph, source, n)
    ensures Below(graph, source, n) <= Within(graph, source, n)
    ensures Within(graph, source, n) + Targets(graph, newest) == Within(graph, source, n + 1)
    ensures EdgesFrom(graph, Below(graph, source, n)) !! EdgesFrom(graph, newest)
    ensures EdgesFrom(graph, Below(graph, source, n)) + EdgesFrom(graph, newest) == EdgesFrom(graph, Within(graph, source, n))
  {
    if n > 0 { WithinGrows(graph, source, n - 1, n); }
  }

  /** The edges of the node at `i` are none of those collected so far. */
  lemma UpstreamDistinct(graph: set<Edge>, soFar: seq<Edge>, edges: seq<Edge>, frontier: seq<Urn>, i: nat, out: seq<Edge>)
    requires i < |frontier| && Distinct(frontier)
    requires Elements(soFar) == Elements(edges) + EdgesFrom(graph, Elements(frontier[..i]))
    requires Elements(edges) !! EdgesFrom(graph, Elements(frontier))
    requires Elements(out) == EdgesFrom(graph, {frontier[i]})
    ensures Elements(soFar) !! Elements(out)
  {
    forall e | e in Elements(out) ensures e !in Elements(soFar) {
      assert e.upstream == frontier[i] && e in EdgesFrom(graph, Elements(frontier));
    }
  }

  /** With nothing new at a level, its nodes were all expanded before. */
  lemma LevelEmpty(graph: set<Edge>, source: Urn, n: nat, newest: seq<Urn>)
    requires newest == [] && source in Within(graph, source, n)
    requires Elements(newest) == Within(graph, source, n) - Below(graph, source, n)
    ensures n > 0 && Targets(graph, Within(graph, source, n - 1)) <= Within(graph, source, n - 1)
    ensures Within(graph, source, n) == Within(graph, source, n - 1)
  {
    assert Elements(newest) == {};
    forall u | u in Within(graph, source, n) ensures u in Below(graph, source, n) {
      assert u !in Within(graph, source, n) - Below(graph, source, n);
    }
  }

  lemma DistinctConcat<T>(xs: seq<T>, ys: seq<T>)
    requires Distinct(xs) && Distinct(ys) && Elements(xs) !! Elements(ys)
    ensures Distinct(xs + ys)
  {
    forall i, j | 0 <= i < j < |xs + ys| ensures (xs + ys)[i] != (xs + ys)[j] {
      assert i < |xs| ==> (xs + ys)[i] in Elements(xs);
      assert j >= |xs| ==> (xs + ys)[j] in Elements(ys);
    }
  }

  lemma {:induction false} DistinctCount<T>(xs: seq<T>)
    requires Distinct(xs)
    ensures |Elements(xs)| == |xs|
  {
    if xs != [] {
      var n := |xs| - 1;
      DistinctCount(xs[..n]);
      assert xs == xs[..n] + [xs[n]];
      ElementsAppend(xs[..n], xs[n]);
      assert xs[n] !in xs[..n];
    }
  }

  lemma AddedEdge(lineage: map<Urn, seq<Edge>>, e: Edge)
    requires Filed(lineage) && e !in OutOf(lineage, e.upstream)
    ensures var more := lineage[e.upstream := OutOf(lineage, e.upstream) + [e]];
            Filed(more) && GraphOf(more) == GraphOf(lineage) + {e}
  {
    var out := OutOf(lineage, e.upstream);
    var more := lineage[e.upstream := out + [e]];
    assert e in more[e.upstream];
    forall f | f in GraphOf(lineage) ensures f in GraphOf(more) {
      assert f in more[f.upstream];
    }
    forall f | f in GraphOf(more) ensures f in GraphOf(lineage) + {e} {
      var u :| u in more && f in more[u];
    }
  }

  class FakeCatalog {
    var lineage: map<Urn, seq<Edge>>

    constructor ()
      ensures Filed(lineage) && GraphOf(lineage) == {}
    {
      lineage := map[];
    }

    /** Idempotent: a second edge between the same two nodes is ignored. */
    method AddEdge(upstream: Urn, downstream: Urn, resolved: bool)
      requires Filed(lineage)
      modifies this
      ensures Filed(lineage)
      ensures var known := exists e | e in GraphOf(old(lineage)) :: e.upstream == upstream && e.downstream == downstream;
              GraphOf(lineage) == GraphOf(old(lineage)) + if known then {} else {Edge(upstream, downstream, resolved)}
    {
      var existing := OutOf(lineage, upstream);
      OutEdges(lineage, upstream);
      if exists e | e in existing :: e.downstream == downstream {
        return;
      }
      var edge := Edge(upstream, downstream, resolved);
      AddedEdge(lineage, edge);
      lineage := lineage[upstream := existing + [edge]];
    }

    /** Breadth-first: exactly the out-edges of the nodes less than `maxDepth`
        edges away, for any graph, cycles included. */
    method GetDownstreamLineage(urn: Urn, maxDepth: nat) returns (edges: seq<Edge>)
      requires Filed(lineage)
      ensures Elements(edges) == EdgesFrom(GraphOf(lineage), Below(GraphOf(lineage), urn, maxDepth))
      ensures Distinct(edges)
    {
      ghost var graph := GraphOf(lineage);
      var seen := {urn};
      edges := [];
      var frontier := [urn];
      var depth := 0;
      while frontier != [] && depth < maxDepth
        invariant depth <= maxDepth && urn in seen
        invariant seen == Within(graph, urn, depth)
        invariant Elements(frontier) == seen - Below(graph, urn, depth)
        invariant Elements(edges) == EdgesFrom(graph, Below(graph, urn, depth))
        invariant Distinct(frontier) && Distinct(edges)
        decreases maxDepth - depth
      {
        LevelDone(graph, urn, depth, Elements(frontier));
        edges, seen, frontier := ExpandLevel(frontier, edges, seen);
        depth := depth + 1;
      }
      if depth < maxDepth {
        LevelEmpty(graph, urn, depth, frontier);
        LevelsClose(graph, urn, depth - 1, maxDepth - 1);
      }
    }

    method ExpandLevel(frontier: seq<Urn>, edges: seq<Edge>, level: set<Urn>)
      returns (edges': seq<Edge>, seen: set<Urn>, next: seq<Urn>)
      requires Filed(lineage)
      requires Distinct(frontier) && Distinct(edges) && Elements(edges) !! EdgesFrom(GraphOf(lineage), Elements(frontier))
      ensures Distinct(edges') && Distinct(next)
      ensures Elements(edges') == Elements(edges) + EdgesFrom(GraphOf(lineage), Elements(frontier))
      ensures seen == level + Targets(GraphOf(lineage), Elements(frontier))
      ensures Elements(next) == seen - level
    {
      ghost var graph := GraphOf(lineage);
      edges', seen, next := edges, level, [];
      for i := 0 to |frontier|
        invariant Elements(edges') == Elements(edges) + EdgesFrom(graph, Elements(frontier[..i]))
        invariant seen == level + Targets(graph, Elements(frontier[..i]))
        invariant Elements(next) == seen - level
        invariant Distinct(edges') && Distinct(next)
      {
        var node := frontier[i];
        var out := OutOf(lineage, node);
        OutEdges(lineage, node);
        assert frontier[..i + 1] == frontier[..i] + [node];
        ElementsAppend(frontier[..i], node);
        MoreSources(graph, Elements(frontier[..i]), node);
        ElementsConcat(edges', out);
        UpstreamDistinct(graph, edges', edges, frontier, i, out);
        DistinctConcat(edges', out);
        edges', seen, next := Expand(level, out, edges', seen, next);
      }
      assert frontier[..|frontier|] == frontier;
    }

    /** One node's edges: append them all and note the nodes not seen before. */
    method Expand(ghost level: set<Urn>, out: seq<Edge>, edges: seq<Edge>, seen: set<Urn>, next: seq<Urn>)
      returns (edges': seq<Edge>, seen': set<Urn>, next': seq<Urn>)
      requires Elements(next) == seen - level && level <= seen && Distinct(next)
      ensures Distinct(next')
      ensures edges' == edges + out
      ensures seen' == seen + Heads(out)
      ensures Elements(next') == seen' - level
    {
      edges', seen', next' := edges, seen, next;
      for k := 0 to |out|
        invariant edges' == edges + out[..k]
        invariant seen' == seen + Heads(out[..k])
        invariant Elements(next') == seen' - level && Distinct(next')
      {
        var edge := out[k];
        assert out[..k + 1] == out[..k] + [edge];
        edges' := edges' + [edge];
        if edge.downstream !in seen' {
          ElementsAppend(next', edge.downstream);
          assert edge.downstream !in Elements(next');
          seen' := seen' + {edge.downstream};
          next' := next' + [edge.downstream];
        }
      }
      assert out[..|out|] == out;
    }
  }
}
