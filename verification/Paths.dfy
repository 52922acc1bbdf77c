/** Reconstructing lineage paths (app/context.py, build_paths). */
module Paths {
  import opened Ordering
  import opened Rights
  import opened Plan
  import opened Catalog
  import opened Discovery

  const MAX_DEPTH := 256
  const MAX_VISITS := 10000
  const MAX_PATHS := 128

  // --- the bounded search -----------------------------------------------------------

  datatype Search = Search(paths: seq<LineagePath>, visits: nat, truncated: bool)

  predicate OutOfBounds(s: Search, trail: seq<Urn>) {
    |trail| > MAX_DEPTH + 1 || s.visits + 1 > MAX_VISITS || |s.paths| >= MAX_PATHS
  }

  predicate IsEnd(target: Urn, trail: seq<Urn>)
    requires trail != []
  {
    trail[|trail| - 1] == target && |trail| >= 2
  }

  function Walk(edges: seq<Edge>, target: Urn, s: Search, trail: seq<Urn>, complete: bool): Search
    requires 0 < |trail| <= MAX_DEPTH + 2
    decreases MAX_DEPTH + 2 - |trail|, 1, 0
  {
    var visited := s.(visits := s.visits + 1);
    if OutOfBounds(s, trail) then visited.(truncated := true)
    else if IsEnd(target, trail) then visited.(paths := s.paths + [LineagePath(trail, complete)])
    else Follow(edges, target, visited, trail, complete, Adjacent(edges, trail[|trail| - 1]))
  }

  function Follow(edges: seq<Edge>, target: Urn, s: Search, trail: seq<Urn>, complete: bool, out: seq<Edge>): Search
    requires 0 < |trail| <= MAX_DEPTH + 1
    decreases MAX_DEPTH + 2 - |trail|, 0, |out|
  {
    if out == [] then s
    else
      var e := out[0];
      var s' := if e.downstream in trail then s
                else Walk(edges, target, s, trail + [e.downstream], complete && e.resolved);
      Follow(edges, target, s', trail, complete, out[1..])
  }

  predicate IsTruncated(edges: seq<Edge>, source: Urn, target: Urn) {
    Walk(edges, target, Search([], 0, false), [source], true).truncated
  }

  function BuildPaths(edges: seq<Edge>, source: Urn, target: Urn): seq<LineagePath> {
    var s := Walk(edges, target, Search([], 0, false), [source], true);
    if s.truncated then Map((p: LineagePath) => p.(complete := false), s.paths) else s.paths
  }

  lemma FollowNext(edges: seq<Edge>, target: Urn, s: Search, trail: seq<Urn>, complete: bool, out: seq<Edge>, k: nat)
    requires 0 < |trail| <= MAX_DEPTH + 1 && k < |out|
    ensures Follow(edges, target, s, trail, complete, out[k..])
         == Follow(edges, target,
                   if out[k].downstream in trail then s
                   else Walk(edges, target, s, trail + [out[k].downstream], complete && out[k].resolved),
                   trail, complete, out[k + 1..])
  {
    assert out[k..][0] == out[k] && out[k..][1..] == out[k + 1..];
  }

  class PathSearch {
    const edges: seq<Edge>
    const target: Urn
    var paths: seq<LineagePath>
    var visits: nat
    var truncated: bool

    constructor (edges: seq<Edge>, target: Urn)
      ensures this.edges == edges && this.target == target && State() == Search([], 0, false)
    {
      this.edges, this.target := edges, target;
      paths, visits, truncated := [], 0, false;
    }

    function State(): Search
      reads this
    {
      Search(paths, visits, truncated)
    }

    method WalkFrom(trail: seq<Urn>, complete: bool)
      requires 0 < |trail| <= MAX_DEPTH + 2
      modifies this
      ensures State() == Walk(edges, target, old(State()), trail, complete)
      decreases MAX_DEPTH + 2 - |trail|
    {
      visits := visits + 1;
      if |trail| - 1 > MAX_DEPTH || visits > MAX_VISITS || |paths| >= MAX_PATHS {
        truncated := true;
        return;
      }
      var node := trail[|trail| - 1];
      if node == target && |trail| >= 2 {
        paths := paths + [LineagePath(trail, complete)];
        return;
      }
      var out := Adjacent(edges, node);
      ghost var first := State();
      for k := 0 to |out|
        invariant Follow(edges, target, first, trail, complete, out) == Follow(edges, target, State(), trail, complete, out[k..])
      {
        var edge := out[k];
        FollowNext(edges, target, State(), trail, complete, out, k);
        if edge.downstream in trail {
          continue;
        }
        WalkFrom(trail + [edge.downstream], complete && edge.resolved);
      }
    }
  }

  method FindPaths(edges: seq<Edge>, source: Urn, target: Urn) returns (paths: seq<LineagePath>)
    ensures paths == BuildPaths(edges, source, target)
  {
    var search := new PathSearch(edges, target);
    search.WalkFrom([source], true);
    if search.truncated {
      return Map((p: LineagePath) => p.(complete := false), search.paths);
    }
    return search.paths;
  }

  // --- the search without bounds -------------------------------------------------------

  function Fresh(edges: seq<Edge>, trail: seq<Urn>): set<Urn> { Heads(edges) - Elements(trail) }

  lemma FreshShrinks(edges: seq<Edge>, trail: seq<Urn>, e: Edge)
    requires e in edges && e.downstream !in trail
    ensures |Fresh(edges, trail + [e.downstream])| == |Fresh(edges, trail)| - 1
  {
    ElementsAppend(trail, e.downstream);
    assert Fresh(edges, trail + [e.downstream]) == Fresh(edges, trail) - {e.downstream};
  }

  /** Every path that continues `trail` to the target, with no limit. */
  function Walks(edges: seq<Edge>, target: Urn, trail: seq<Urn>, complete: bool): seq<LineagePath>
    requires trail != []
    decreases |Fresh(edges, trail)|, 1, 0
  {
    if IsEnd(target, trail) then [LineagePath(trail, complete)]
    else WalksVia(edges, target, trail, complete, Adjacent(edges, trail[|trail| - 1]))
  }

  function WalksVia(edges: seq<Edge>, target: Urn, trail: seq<Urn>, complete: bool, out: seq<Edge>): seq<LineagePath>
    requires trail != [] && forall e | e in out :: e in edges
    decreases |Fresh(edges, trail)|, 0, |out|
  {
    if out == [] then []
    else
      var e := out[0];
      (if e.downstream in trail then []
       else
         FreshShrinks(edges, trail, e);
         Walks(edges, target, trail + [e.downstream], complete && e.resolved))
      + WalksVia(edges, target, trail, complete, out[1..])
  }

  /** How many nodes the unlimited search visits. */
  function Visits(edges: seq<Edge>, target: Urn, trail: seq<Urn>): nat
    requires trail != []
    decreases |Fresh(edges, trail)|, 1, 0
  {
    1 + if IsEnd(target, trail) then 0 else VisitsVia(edges, target, trail, Adjacent(edges, trail[|trail| - 1]))
  }

  function VisitsVia(edges: seq<Edge>, target: Urn, trail: seq<Urn>, out: seq<Edge>): nat
    requires trail != [] && forall e | e in out :: e in edges
    decreases |Fresh(edges, trail)|, 0, |out|
  {
    if out == [] then 0
    else
      var e := out[0];
      (if e.downstream in trail then 0
       else
         FreshShrinks(edges, trail, e);
         Visits(edges, target, trail + [e.downstream]))
      + VisitsVia(edges, target, trail, out[1..])
  }

  /** How many visits come after the last path found; all of them if there is none. */
  function Trailing(edges: seq<Edge>, target: Urn, trail: seq<Urn>): nat
    requires trail != []
    decreases |Fresh(edges, trail)|, 1, 0
  {
    var out := Adjacent(edges, trail[|trail| - 1]);
    if IsEnd(target, trail) then 0
    else if WalksVia(edges, target, trail, true, out) == [] then 1 + VisitsVia(edges, target, trail, out)
    else TrailingVia(edges, target, trail, out)
  }

  function TrailingVia(edges: seq<Edge>, target: Urn, trail: seq<Urn>, out: seq<Edge>): nat
    requires trail != [] && forall e | e in out :: e in edges
    decreases |Fresh(edges, trail)|, 0, |out|
  {
    if out == [] then 0
    else if out[0].downstream in trail || WalksVia(edges, target, trail, true, out[1..]) != [] then
      TrailingVia(edges, target, trail, out[1..])
    else
      FreshShrinks(edges, trail, out[0]);
      Trailing(edges, target, trail + [out[0].downstream]) + VisitsVia(edges, target, trail, out[1..])
  }

  /** A part of the unlimited search: the paths it finds, the nodes it visits, and how
      many of those come after its last path. */
  datatype Part = Part(found: seq<LineagePath>, cost: nat, after: nat)

  function Join(a: Part, b: Part): Part {
    Part(a.found + b.found, a.cost + b.cost, if b.found != [] then b.after else a.after + b.cost)
  }

  function PartAt(edges: seq<Edge>, target: Urn, trail: seq<Urn>, complete: bool): Part
    requires trail != []
  {
    Part(Walks(edges, target, trail, complete), Visits(edges, target, trail), Trailing(edges, target, trail))
  }

  function PartVia(edges: seq<Edge>, target: Urn, trail: seq<Urn>, complete: bool, out: seq<Edge>): Part
    requires trail != [] && forall e | e in out :: e in edges
  {
    Part(WalksVia(edges, target, trail, complete, out), VisitsVia(edges, target, trail, out), TrailingVia(edges, target, trail, out))
  }

  /** Whether a part begun at `s` fits the bounds. */
  predicate Affordable(s: Search, p: Part) {
    p.cost == 0 || (s.visits + p.cost <= MAX_VISITS
                    && (|s.paths| + |p.found| < MAX_PATHS || (|s.paths| + |p.found| == MAX_PATHS && p.after == 0)))
  }

  predicate IsTally(p: Part) {
    (p.cost == 0 ==> p.found == []) && (p.found == [] ==> p.after == p.cost)
  }

  /** From `s` to `r` the search went through the part, or was cut short; on a shallow
      graph it is cut short exactly when the part does not fit. */
  ghost predicate Refines(s: Search, r: Search, p: Part, shallow: bool) {
    && s.visits <= r.visits && (s.truncated ==> r.truncated) && IsTally(p)
    && s.paths <= r.paths && (forall x | x in r.paths :: x in s.paths || x in p.found)
    && (!r.truncated ==> r.paths == s.paths + p.found && r.visits == s.visits + p.cost && Affordable(s, p))
    && (!s.truncated && shallow && Affordable(s, p) ==> !r.truncated)
  }

  lemma AffordableThen(s: Search, m: Search, a: Part, b: Part)
    requires IsTally(a) && IsTally(b) && |m.paths| == |s.paths| + |a.found| && m.visits == s.visits + a.cost
    ensures IsTally(Join(a, b)) && (Affordable(s, Join(a, b)) <==> Affordable(s, a) && Affordable(m, b))
  {
  }

  lemma RefinesThen(s: Search, m: Search, r: Search, a: Part, b: Part, shallow: bool)
    requires Refines(s, m, a, shallow) && Refines(m, r, b, shallow)
    ensures Refines(s, r, Join(a, b), shallow)
  {
    var through := Search(s.paths + a.found, s.visits + a.cost, false);
    AffordableThen(s, through, a, b);
    if !m.truncated {
      assert Affordable(m, b) <==> Affordable(through, b);
    }
    if !r.truncated {
      assert (s.paths + a.found) + b.found == s.paths + (a.found + b.found);
    }
  }

  /** Completeness does not decide which paths there are. */
  lemma {:induction false} SameWalks(edges: seq<Edge>, target: Urn, trail: seq<Urn>, c: bool, d: bool)
    requires trail != []
    ensures |Walks(edges, target, trail, c)| == |Walks(edges, target, trail, d)|
    decreases |Fresh(edges, trail)|, 1, 0
  {
    if !IsEnd(target, trail) {
      SameWalksVia(edges, target, trail, c, d, Adjacent(edges, trail[|trail| - 1]));
    }
  }

  lemma {:induction false} SameWalksVia(edges: seq<Edge>, target: Urn, trail: seq<Urn>, c: bool, d: bool, out: seq<Edge>)
    requires trail != [] && forall e | e in out :: e in edges
    ensures |WalksVia(edges, target, trail, c, out)| == |WalksVia(edges, target, trail, d, out)|
    decreases |Fresh(edges, trail)|, 0, |out|
  {
    if out != [] {
      var e := out[0];
      if e.downstream !in trail {
        FreshShrinks(edges, trail, e);
        SameWalks(edges, target, trail + [e.downstream], c && e.resolved, d && e.resolved);
      }
      SameWalksVia(edges, target, trail, c, d, out[1..]);
    }
  }

  predicate IsShallow(edges: seq<Edge>, trail: seq<Urn>) {
    |trail| + |Fresh(edges, trail)| <= MAX_DEPTH + 1
  }

  /** One visit, and then what follows from it. */
  function Visit(p: Part): Part { Part(p.found, 1 + p.cost, if p.found == [] then 1 + p.cost else p.after) }

  lemma WalkUnfolds(edges: seq<Edge>, target: Urn, s: Search, trail: seq<Urn>, complete: bool)
    requires 0 < |trail| <= MAX_DEPTH + 2 && !IsEnd(target, trail)
    ensures var out := Adjacent(edges, trail[|trail| - 1]);
            && PartAt(edges, target, trail, complete) == Visit(PartVia(edges, target, trail, complete, out))
            && Walk(edges, target, s, trail, complete)
                 == (if OutOfBounds(s, trail) then s.(visits := s.visits + 1, truncated := true)
                     else Follow(edges, target, s.(visits := s.visits + 1), trail, complete, out))
  {
    SameWalksVia(edges, target, trail, complete, true, Adjacent(edges, trail[|trail| - 1]));
  }

  lemma EndRefines(s: Search, r: Search, trail: seq<Urn>, complete: bool, shallow: bool)
    requires shallow ==> |trail| <= MAX_DEPTH + 1
    requires r == if OutOfBounds(s, trail) then s.(visits := s.visits + 1, truncated := true)
                  else s.(visits := s.visits + 1, paths := s.paths + [LineagePath(trail, complete)])
    ensures Refines(s, r, Part([LineagePath(trail, complete)], 1, 0), shallow)
  {
  }

  lemma VisitThen(s: Search, followed: Search, r: Search, trail: seq<Urn>, p: Part, shallow: bool)
    requires Refines(s.(visits := s.visits + 1), followed, p, shallow)
    requires r == if OutOfBounds(s, trail) then s.(visits := s.visits + 1, truncated := true) else followed
    requires shallow ==> |trail| <= MAX_DEPTH + 1
    ensures Refines(s, r, Visit(p), shallow)
  {
  }

  lemma {:induction false} WalkRefines(edges: seq<Edge>, target: Urn, s: Search, trail: seq<Urn>, complete: bool)
    requires 0 < |trail| <= MAX_DEPTH + 2
    ensures Refines(s, Walk(edges, target, s, trail, complete), PartAt(edges, target, trail, complete), IsShallow(edges, trail))
    decreases MAX_DEPTH + 2 - |trail|, 1, 0
  {
    var r := Walk(edges, target, s, trail, complete);
    if IsEnd(target, trail) {
      EndRefines(s, r, trail, complete, IsShallow(edges, trail));
    } else {
      var out := Adjacent(edges, trail[|trail| - 1]);
      var visited := s.(visits := s.visits + 1);
      WalkUnfolds(edges, target, s, trail, complete);
      if |trail| <= MAX_DEPTH + 1 {
        FollowRefines(edges, target, visited, trail, complete, out);
        VisitThen(s, Follow(edges, target, visited, trail, complete, out), r, trail,
                  PartVia(edges, target, trail, complete, out), IsShallow(edges, trail));
      } else {
        NothingForFree(edges, target, trail, complete, out);
      }
    }
  }

  lemma {:induction false} NothingForFree(edges: seq<Edge>, target: Urn, trail: seq<Urn>, complete: bool, out: seq<Edge>)
    requires trail != [] && forall e | e in out :: e in edges
    ensures VisitsVia(edges, target, trail, out) == 0 ==> WalksVia(edges, target, trail, complete, out) == []
    decreases |out|
  {
    if out != [] {
      if out[0].downstream in trail {
        NothingForFree(edges, target, trail, complete, out[1..]);
      } else {
        assert Visits(edges, target, trail + [out[0].downstream]) > 0;
        assert VisitsVia(edges, target, trail, out) == Visits(edges, target, trail + [out[0].downstream]) + VisitsVia(edges, target, trail, out[1..]);
      }
    }
  }

  /** What the first edge out of a node contributes: nothing if it leads back. */
  lemma ViaUnfolds(edges: seq<Edge>, target: Urn, s: Search, trail: seq<Urn>, complete: bool, out: seq<Edge>)
    requires 0 < |trail| <= MAX_DEPTH + 1 && out != [] && (forall e | e in out :: e in edges)
    ensures out[0].downstream in trail ==>
              && Follow(edges, target, s, trail, complete, out) == Follow(edges, target, s, trail, complete, out[1..])
              && PartVia(edges, target, trail, complete, out) == PartVia(edges, target, trail, complete, out[1..])
    ensures out[0].downstream !in trail ==>
              var next, c := trail + [out[0].downstream], complete && out[0].resolved;
              && Follow(edges, target, s, trail, complete, out)
                   == Follow(edges, target, Walk(edges, target, s, next, c), trail, complete, out[1..])
              && PartVia(edges, target, trail, complete, out)
                   == Join(PartAt(edges, target, next, c), PartVia(edges, target, trail, complete, out[1..]))
  {
    SameWalksVia(edges, target, trail, complete, true, out[1..]);
  }

  lemma {:induction false} FollowRefines(edges: seq<Edge>, target: Urn, s: Search, trail: seq<Urn>, complete: bool, out: seq<Edge>)
    requires 0 < |trail| <= MAX_DEPTH + 1 && forall e | e in out :: e in edges
    ensures Refines(s, Follow(edges, target, s, trail, complete, out), PartVia(edges, target, trail, complete, out), IsShallow(edges, trail))
    decreases MAX_DEPTH + 2 - |trail|, 0, |out|
  {
    if out != [] {
      ViaUnfolds(edges, target, s, trail, complete, out);
      if out[0].downstream in trail {
        FollowRefines(edges, target, s, trail, complete, out[1..]);
      } else {
        var next, c := trail + [out[0].downstream], complete && out[0].resolved;
        var m := Walk(edges, target, s, next, c);
        FreshShrinks(edges, trail, out[0]);
        WalkRefines(edges, target, s, next, c);
        FollowRefines(edges, target, m, trail, complete, out[1..]);
        RefinesThen(s, m, Follow(edges, target, m, trail, complete, out[1..]), PartAt(edges, target, next, c),
                    PartVia(edges, target, trail, complete, out[1..]), IsShallow(edges, trail));
      }
    }
  }

  // --- the unlimited search finds exactly the simple paths ---------------------------

  /** `chain` is a walk along the edges, starting at `node`. */
  ghost predicate IsRoute(edges: set<Edge>, node: Urn, chain: seq<Edge>)
    decreases |chain|
  {
    chain != [] ==> chain[0] in edges && chain[0].upstream == node && IsRoute(edges, chain[0].downstream, chain[1..])
  }

  function Hops(trail: seq<Urn>, chain: seq<Edge>): seq<Urn> { trail + HeadList(chain) }

  predicate AllResolved(chain: seq<Edge>) { forall k | 0 <= k < |chain| :: chain[k].resolved }

  /** `chain` continues `trail` to the target without visiting a node twice. */
  ghost predicate Continues(edges: set<Edge>, target: Urn, trail: seq<Urn>, chain: seq<Edge>)
    requires trail != []
  {
    var hops := Hops(trail, chain);
    IsRoute(edges, trail[|trail| - 1], chain) && Distinct(hops) && |hops| >= 2 && hops[|hops| - 1] == target
  }

  ghost predicate IsSimplePath(edges: set<Edge>, source: Urn, target: Urn, chain: seq<Edge>) {
    Continues(edges, target, [source], chain)
  }

  function PathOf(trail: seq<Urn>, complete: bool, chain: seq<Edge>): LineagePath {
    LineagePath(Hops(trail, chain), complete && AllResolved(chain))
  }

  lemma {:induction false} ViaMembers(edges: seq<Edge>, target: Urn, trail: seq<Urn>, complete: bool, out: seq<Edge>, p: LineagePath)
    requires trail != [] && forall e | e in out :: e in edges
    ensures p in WalksVia(edges, target, trail, complete, out) <==>
              exists e | e in out :: e.downstream !in trail && p in Walks(edges, target, trail + [e.downstream], complete && e.resolved)
    decreases |out|
  {
    if out != [] {
      ViaMembers(edges, target, trail, complete, out[1..], p);
      assert out == [out[0]] + out[1..];
    }
  }

  lemma HopsStep(trail: seq<Urn>, e: Edge, rest: seq<Edge>, complete: bool)
    ensures Hops(trail + [e.downstream], rest) == Hops(trail, [e] + rest)
    ensures PathOf(trail + [e.downstream], complete && e.resolved, rest) == PathOf(trail, complete, [e] + rest)
  {
    assert HeadList([e] + rest) == [e.downstream] + HeadList(rest);
    assert AllResolved([e] + rest) <==> e.resolved && AllResolved(rest) by {
      if AllResolved([e] + rest) {
        forall k | 0 <= k < |rest| ensures rest[k].resolved {
          assert ([e] + rest)[k + 1] == rest[k];
        }
        assert ([e] + rest)[0] == e;
      }
    }
  }

  lemma {:induction false} WalkIsSimple(edges: seq<Edge>, target: Urn, trail: seq<Urn>, complete: bool, p: LineagePath) returns (chain: seq<Edge>)
    requires trail != [] && Distinct(trail) && p in Walks(edges, target, trail, complete)
    ensures Continues(Elements(edges), target, trail, chain) && p == PathOf(trail, complete, chain)
    decreases |Fresh(edges, trail)|
  {
    if IsEnd(target, trail) {
      chain := [];
      assert Hops(trail, chain) == trail;
    } else {
      var out := Adjacent(edges, trail[|trail| - 1]);
      ViaMembers(edges, target, trail, complete, out, p);
      var e :| e in out && e.downstream !in trail && p in Walks(edges, target, trail + [e.downstream], complete && e.resolved);
      FreshShrinks(edges, trail, e);
      var rest := WalkIsSimple(edges, target, trail + [e.downstream], complete && e.resolved, p);
      chain := [e] + rest;
      ContinuesStep(Elements(edges), target, trail, e, rest);
      HopsStep(trail, e, rest, complete);
    }
  }

  lemma ContinuesStep(edges: set<Edge>, target: Urn, trail: seq<Urn>, e: Edge, rest: seq<Edge>)
    requires trail != [] && e in edges && e.upstream == trail[|trail| - 1]
    requires Continues(edges, target, trail + [e.downstream], rest)
    ensures Continues(edges, target, trail, [e] + rest)
  {
    HopsStep(trail, e, rest, true);
    RouteCons(edges, e, rest);
  }

  lemma RouteCons(edges: set<Edge>, e: Edge, rest: seq<Edge>)
    requires e in edges && IsRoute(edges, e.downstream, rest)
    ensures IsRoute(edges, e.upstream, [e] + rest)
  {
    assert ([e] + rest)[1..] == rest;
  }

  lemma ContinuesOne(edges: seq<Edge>, target: Urn, trail: seq<Urn>, e: Edge, rest: seq<Edge>)
    requires trail != [] && Continues(Elements(edges), target, trail, [e] + rest)
    ensures !IsEnd(target, trail) && e in Adjacent(edges, trail[|trail| - 1]) && e.downstream !in trail
    ensures Continues(Elements(edges), target, trail + [e.downstream], rest)
  {
    HopsStep(trail, e, rest, true);
    RouteHead(Elements(edges), trail[|trail| - 1], e, rest);
    DistinctParts(trail, e.downstream, HeadList(rest));
  }

  lemma RouteHead(edges: set<Edge>, node: Urn, e: Edge, rest: seq<Edge>)
    requires IsRoute(edges, node, [e] + rest)
    ensures e in edges && e.upstream == node && IsRoute(edges, e.downstream, rest)
  {
    assert ([e] + rest)[0] == e && ([e] + rest)[1..] == rest;
  }

  lemma DistinctParts(trail: seq<Urn>, u: Urn, more: seq<Urn>)
    requires trail != [] && Distinct(trail + [u] + more)
    ensures u !in trail
    ensures var hops := trail + [u] + more; hops[|hops| - 1] != trail[|trail| - 1]
  {
    var hops := trail + [u] + more;
    assert hops[|trail|] == u && hops[|trail| - 1] == trail[|trail| - 1];
    forall i | 0 <= i < |trail| ensures trail[i] != u {
      assert hops[i] == trail[i];
    }
  }

  lemma {:induction false} SimpleIsWalked(edges: seq<Edge>, target: Urn, trail: seq<Urn>, complete: bool, chain: seq<Edge>)
    requires trail != [] && Continues(Elements(edges), target, trail, chain)
    ensures PathOf(trail, complete, chain) in Walks(edges, target, trail, complete)
    decreases |chain|
  {
    var hops := Hops(trail, chain);
    if chain == [] {
      assert hops == trail;
    } else {
      var e, rest := chain[0], chain[1..];
      assert chain == [e] + rest;
      HopsStep(trail, e, rest, complete);
      ContinuesOne(edges, target, trail, e, rest);
      var out := Adjacent(edges, trail[|trail| - 1]);
      SimpleIsWalked(edges, target, trail + [e.downstream], complete && e.resolved, rest);
      ViaMembers(edges, target, trail, complete, out, PathOf(trail, complete, chain));
    }
  }

  /** Every returned hop sequence is a simple path from source to target, complete
      only if all its edges are resolved, and never if the search was cut short. */
  lemma BuildPathsIsSound(edges: seq<Edge>, source: Urn, target: Urn, p: LineagePath)
    requires p in BuildPaths(edges, source, target)
    ensures exists chain :: IsSimplePath(Elements(edges), source, target, chain) && p.hops == Hops([source], chain)
                            && (p.complete ==> AllResolved(chain) && !IsTruncated(edges, source, target))
  {
    var s := Walk(edges, target, Search([], 0, false), [source], true);
    WalkRefines(edges, target, Search([], 0, false), [source], true);
    var k :| 0 <= k < |BuildPaths(edges, source, target)| && BuildPaths(edges, source, target)[k] == p;
    var q := s.paths[k];
    assert q in s.paths && q.hops == p.hops;
    var chain := WalkIsSimple(edges, target, [source], true, q);
  }

  lemma {:induction false} WalkIsBounded(edges: seq<Edge>, target: Urn, s: Search, trail: seq<Urn>, complete: bool)
    requires 0 < |trail| <= MAX_DEPTH + 2
    ensures forall p | p in Walk(edges, target, s, trail, complete).paths :: p in s.paths || |p.hops| <= 257
    decreases MAX_DEPTH + 2 - |trail|, 1, 0
  {
    var visited := s.(visits := s.visits + 1);
    if !OutOfBounds(s, trail) && !IsEnd(target, trail) {
      FollowIsBounded(edges, target, visited, trail, complete, Adjacent(edges, trail[|trail| - 1]));
    }
  }

  lemma {:induction false} FollowIsBounded(edges: seq<Edge>, target: Urn, s: Search, trail: seq<Urn>, complete: bool, out: seq<Edge>)
    requires 0 < |trail| <= MAX_DEPTH + 1
    ensures forall p | p in Follow(edges, target, s, trail, complete, out).paths :: p in s.paths || |p.hops| <= 257
    decreases MAX_DEPTH + 2 - |trail|, 0, |out|
  {
    if out != [] {
      var e := out[0];
      if e.downstream !in trail { WalkIsBounded(edges, target, s, trail + [e.downstream], complete && e.resolved); }
      var next := if e.downstream in trail then s else Walk(edges, target, s, trail + [e.downstream], complete && e.resolved);
      FollowIsBounded(edges, target, next, trail, complete, out[1..]);
    }
  }

  /** On any graph, no returned path has more than 256 edges and there are at most 128. */
  lemma PathsAreBounded(edges: seq<Edge>, source: Urn, target: Urn)
    ensures |BuildPaths(edges, source, target)| <= 128
    ensures forall p | p in BuildPaths(edges, source, target) :: |p.hops| <= 257
  {
    var s := Walk(edges, target, Search([], 0, false), [source], true);
    WalkIsBounded(edges, target, Search([], 0, false), [source], true);
    WalkIsCapped(edges, target, Search([], 0, false), [source], true);
    forall p | p in BuildPaths(edges, source, target) ensures |p.hops| <= 257 {
      var i :| 0 <= i < |BuildPaths(edges, source, target)| && BuildPaths(edges, source, target)[i] == p;
      assert s.paths[i] in s.paths && s.paths[i].hops == p.hops;
    }
  }

  lemma {:induction false} WalkIsCapped(edges: seq<Edge>, target: Urn, s: Search, trail: seq<Urn>, complete: bool)
    requires 0 < |trail| <= MAX_DEPTH + 2 && |s.paths| <= 128
    ensures |Walk(edges, target, s, trail, complete).paths| <= 128
    decreases MAX_DEPTH + 2 - |trail|, 1, 0
  {
    if !OutOfBounds(s, trail) && !IsEnd(target, trail) {
      FollowIsCapped(edges, target, s.(visits := s.visits + 1), trail, complete, Adjacent(edges, trail[|trail| - 1]));
    }
  }

  lemma {:induction false} FollowIsCapped(edges: seq<Edge>, target: Urn, s: Search, trail: seq<Urn>, complete: bool, out: seq<Edge>)
    requires 0 < |trail| <= MAX_DEPTH + 1 && |s.paths| <= 128
    ensures |Follow(edges, target, s, trail, complete, out).paths| <= 128
    decreases MAX_DEPTH + 2 - |trail|, 0, |out|
  {
    if out != [] {
      var e := out[0];
      if e.downstream !in trail { WalkIsCapped(edges, target, s, trail + [e.downstream], complete && e.resolved); }
      var next := if e.downstream in trail then s else Walk(edges, target, s, trail + [e.downstream], complete && e.resolved);
      FollowIsCapped(edges, target, next, trail, complete, out[1..]);
    }
  }

  /** If the search was not cut short the returned paths are exactly the simple
      paths, each complete if and only if all its edges are resolved. */
  lemma BuildPathsIsComplete(edges: seq<Edge>, source: Urn, target: Urn)
    requires !IsTruncated(edges, source, target)
    ensures forall p :: p in BuildPaths(edges, source, target) <==>
              exists chain :: IsSimplePath(Elements(edges), source, target, chain) && p == PathOf([source], true, chain)
  {
    WalkRefines(edges, target, Search([], 0, false), [source], true);
    var walks := Walks(edges, target, [source], true);
    assert BuildPaths(edges, source, target) == walks;
    forall p ensures p in walks <==> exists chain :: IsSimplePath(Elements(edges), source, target, chain) && p == PathOf([source], true, chain) {
      if p in walks {
        var chain := WalkIsSimple(edges, target, [source], true, p);
      }
      if chain :| IsSimplePath(Elements(edges), source, target, chain) && p == PathOf([source], true, chain) {
        SimpleIsWalked(edges, target, [source], true, chain);
      }
    }
  }

  /** When the bounds bite, on a graph of at most 256 nodes past the source: exactly
      when the unlimited search visits more than 10000 nodes, finds more than 128
      paths, or finds just 128 and visits another node after the last of them. */
  lemma TruncatedExactly(edges: seq<Edge>, source: Urn, target: Urn)
    requires |Heads(edges) - {source}| <= 256
    ensures var found := |Walks(edges, target, [source], true)|;
            IsTruncated(edges, source, target) <==>
              || Visits(edges, target, [source]) > 10000 || found > 128
              || (found == 128 && Trailing(edges, target, [source]) > 0)
  {
    WalkRefines(edges, target, Search([], 0, false), [source], true);
    assert Elements([source]) == {source};
  }

  /** Complete lineage means that no simple path has a gap in it: every simple path
      was found, and every edge on it is resolved. */
  lemma CompleteLineageHasNoGap(edges: seq<Edge>, source: Urn, target: Urn, chain: seq<Edge>)
    requires var paths := BuildPaths(edges, source, target);
             paths != [] && forall p | p in paths :: p.complete
    requires IsSimplePath(Elements(edges), source, target, chain)
    ensures AllResolved(chain) && PathOf([source], true, chain) in BuildPaths(edges, source, target)
  {
    BuildPathsIsSound(edges, source, target, BuildPaths(edges, source, target)[0]);
    BuildPathsIsComplete(edges, source, target);
    assert PathOf([source], true, chain) in BuildPaths(edges, source, target);
  }

  // --- routes, and graphs without cycles --------------------------------------------

  ghost predicate IsAcyclic(graph: set<Edge>, rank: Urn -> nat) {
    forall e | e in graph :: rank(e.upstream) < rank(e.downstream)
  }

  lemma {:induction false} RouteTo(graph: set<Edge>, source: Urn, u: Urn, n: nat) returns (chain: seq<Edge>)
    requires u in Within(graph, source, n)
    ensures IsRoute(graph, source, chain) && EndOf(source, chain) == u
    decreases n
  {
    if n == 0 {
      chain := [];
    } else if u in Within(graph, source, n - 1) {
      chain := RouteTo(graph, source, u, n - 1);
    } else {
      var e :| e in graph && e.upstream in Within(graph, source, n - 1) && e.downstream == u;
      var before := RouteTo(graph, source, e.upstream, n - 1);
      chain := before + [e];
      RoutesJoin(graph, source, before, [e]);
    }
  }

  function EndOf(node: Urn, chain: seq<Edge>): Urn {
    if chain == [] then node else chain[|chain| - 1].downstream
  }

  lemma {:induction false} RoutesJoin(graph: set<Edge>, node: Urn, first: seq<Edge>, second: seq<Edge>)
    requires IsRoute(graph, node, first) && IsRoute(graph, EndOf(node, first), second)
    ensures IsRoute(graph, node, first + second) && EndOf(node, first + second) == EndOf(EndOf(node, first), second)
    decreases |first|
  {
    if first == [] {
      assert first + second == second;
    } else {
      RoutesJoin(graph, first[0].downstream, first[1..], second);
      assert (first + second)[1..] == first[1..] + second;
    }
  }

  lemma {:induction false} RanksRise(graph: set<Edge>, rank: Urn -> nat, node: Urn, chain: seq<Edge>)
    requires IsAcyclic(graph, rank) && IsRoute(graph, node, chain)
    ensures var hops := Hops([node], chain);
            forall i, j | 0 <= i < j < |hops| :: rank(hops[i]) < rank(hops[j])
    decreases |chain|
  {
    if chain != [] {
      var next := chain[0].downstream;
      RanksRise(graph, rank, next, chain[1..]);
      var hops, rest := Hops([node], chain), Hops([next], chain[1..]);
      assert hops == [node] + rest;
      assert rest[0] == next;
    }
  }

  lemma PathThrough(graph: set<Edge>, rank: Urn -> nat, source: Urn, via: Urn, target: Urn) returns (chain: seq<Edge>)
    requires IsAcyclic(graph, rank)
    requires via != source && Reachable(graph, source, via) && Reachable(graph, via, target)
    ensures IsSimplePath(graph, source, target, chain) && via in HeadList(chain)
  {
    var m: nat :| via in Within(graph, source, m);
    var n: nat :| target in Within(graph, via, n);
    var first := RouteTo(graph, source, via, m);
    var second := RouteTo(graph, via, target, n);
    chain := first + second;
    RoutesJoin(graph, source, first, second);
    RanksRise(graph, rank, source, chain);
    var hops := Hops([source], chain);
    assert hops[|hops| - 1] == target;
    assert HeadList(chain)[|first| - 1] == via;
  }
}
