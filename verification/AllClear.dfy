/** No false all-clear: what a descendant reported as unaffected guarantees about
    everything the revoked data passes through on its way there. */
module AllClear {
  import opened Ordering
  import opened Rights
  import opened Plan
  import opened Catalog
  import opened Discovery
  import opened Paths
  import opened LineageContext
  import opened Policy

  datatype License = License(permitted: set<Purpose>, revoked: bool)

  /** RightsEvent.lost_purposes. */
  function LostPurposes(prior: License, now: License): set<Purpose> {
    if now.revoked then prior.permitted else prior.permitted - now.permitted
  }

  /** Usable, with well-formed purposes, none of them lost. */
  ghost predicate IsBlameless(entities: map<Urn, Entity>, ns: Namespace, lost: set<Purpose>, urn: Urn) {
    IsClear(entities, ns, urn) && ParsePurposes(EntityFor(entities, urn)) * lost == {}
  }

  /** Read off its entry: active, ours, tagged, declaring purposes only, and none lost. */
  lemma BlamelessMeans(entities: map<Urn, Entity>, ns: Namespace, lost: set<Purpose>, urn: Urn)
    ensures IsBlameless(entities, ns, lost, urn) <==>
              IsInOrder(entities, ns, urn) && forall p | p in lost :: !Declares(entities, urn, p)
  {
    ClearMeans(entities, ns, urn);
    var declared := ParsePurposes(EntityFor(entities, urn));
    forall p ensures p in declared <==> Declares(entities, urn, p) {
      PurposesMean(entities, urn, p);
    }
    if declared * lost != {} {
      var p :| p in declared * lost;
      assert p in lost && Declares(entities, urn, p);
    }
    if p :| p in lost && Declares(entities, urn, p) {
      assert p in declared * lost;
    }
  }

  lemma LostMeans(prior: License, now: License, p: Purpose)
    ensures p in LostPurposes(prior, now) <==> p in prior.permitted && (now.revoked || p !in now.permitted)
  {
  }

  predicate ReportsAllClear(lost: set<Purpose>, d: Descendant) {
    d.LineageComplete() && d.missingEvidence == [] && !IsAffected(lost, d)
  }

  /** The edges discovery returned: all those leaving a reachable node. */
  ghost predicate IsDiscovered(graph: set<Edge>, source: Urn, edges: seq<Edge>) {
    forall e :: e in edges <==> IsOnward(graph, source, e)
  }

  ghost predicate IsClean(entities: map<Urn, Entity>, ns: Namespace, lost: set<Purpose>, chain: seq<Edge>) {
    AllResolved(chain) && forall h | h in HeadList(chain) :: IsBlameless(entities, ns, lost, h)
  }

  // --- simple paths of the catalog are those of the discovered edges -------------------

  lemma {:induction false} RouteIsDiscovered(graph: set<Edge>, source: Urn, edges: seq<Edge>, node: Urn, chain: seq<Edge>)
    requires IsDiscovered(graph, source, edges) && Reachable(graph, source, node)
    ensures IsRoute(graph, node, chain) <==> IsRoute(Elements(edges), node, chain)
    decreases |chain|
  {
    if chain != [] && chain[0] in graph && chain[0].upstream == node {
      assert IsOnward(graph, source, chain[0]);
      ReachableStep(graph, source, chain[0]);
      RouteIsDiscovered(graph, source, edges, chain[0].downstream, chain[1..]);
    }
  }

  lemma SamePaths(graph: set<Edge>, source: Urn, edges: seq<Edge>, target: Urn, chain: seq<Edge>)
    requires IsDiscovered(graph, source, edges)
    ensures IsSimplePath(graph, source, target, chain) <==> IsSimplePath(Elements(edges), source, target, chain)
  {
    assert source in Within(graph, source, 0);
    RouteIsDiscovered(graph, source, edges, source, chain);
  }

  lemma {:induction false} RouteHeads(edges: seq<Edge>, node: Urn, chain: seq<Edge>)
    requires IsRoute(Elements(edges), node, chain)
    ensures forall h | h in HeadList(chain) :: h in Heads(edges)
    decreases |chain|
  {
    if chain != [] {
      RouteHeads(edges, chain[0].downstream, chain[1..]);
      assert HeadList(chain) == [chain[0].downstream] + HeadList(chain[1..]);
    }
  }

  /** The hops after the source: the intermediate ones, then the target. */
  lemma HopsSplit(source: Urn, target: Urn, heads: seq<Urn>)
    requires Distinct([source] + heads) && heads != [] && heads[|heads| - 1] == target
    ensures forall h :: h in heads <==> h == target || h in Intermediates([source] + heads)
    ensures target !in Intermediates([source] + heads) && source !in heads
  {
    var hops, n := [source] + heads, |heads| - 1;
    assert Intermediates(hops) == heads[..n] && heads == heads[..n] + [target];
    forall k | 0 <= k < |heads| ensures heads[k] != source && (k < n ==> heads[k] != target) {
      assert hops[k + 1] == heads[k] && hops[0] == source && hops[n + 1] == target;
    }
  }

  lemma PathHops(edges: seq<Edge>, source: Urn, target: Urn, chain: seq<Edge>)
    requires IsSimplePath(Elements(edges), source, target, chain)
    ensures forall h :: h in HeadList(chain) <==> h == target || h in Intermediates(Hops([source], chain))
    ensures forall h | h in HeadList(chain) :: h in TargetsOf(edges, source)
    ensures target !in Intermediates(Hops([source], chain))
  {
    HopsSplit(source, target, HeadList(chain));
    RouteHeads(edges, source, chain);
    TargetMembers(edges, source);
  }

  // --- the report about one descendant ----------------------------------------------------

  lemma LineageExactly(edges: seq<Edge>, source: Urn, target: Urn)
    ensures var paths := BuildPaths(edges, source, target);
            (paths != [] && forall p | p in paths :: p.complete) <==>
              && !IsTruncated(edges, source, target)
              && HasPath(Elements(edges), source, target)
              && forall chain | IsSimplePath(Elements(edges), source, target, chain) :: AllResolved(chain)
  {
    var paths := BuildPaths(edges, source, target);
    if IsTruncated(edges, source, target) {
      if paths != [] { BuildPathsIsSound(edges, source, target, paths[0]); }
    } else {
      BuildPathsIsComplete(edges, source, target);
      if paths != [] {
        assert paths[0] in paths;
      }
      forall chain | IsSimplePath(Elements(edges), source, target, chain)
        ensures PathOf([source], true, chain) in paths
      {
      }
    }
  }

  /** For a descendant whose paths were all found: one of its intermediates is at
      fault exactly when one of its simple paths passes through a fault. */
  lemma IntermediatesExactly(edges: seq<Edge>, source: Urn, target: Urn, h: Urn)
    requires !IsTruncated(edges, source, target)
    ensures (exists p | p in BuildPaths(edges, source, target) :: h in Intermediates(p.hops)) <==>
              (h != target && exists chain :: IsSimplePath(Elements(edges), source, target, chain) && h in HeadList(chain))
  {
    BuildPathsIsComplete(edges, source, target);
    if p :| p in BuildPaths(edges, source, target) && h in Intermediates(p.hops) {
      var chain :| IsSimplePath(Elements(edges), source, target, chain) && p == PathOf([source], true, chain);
      PathHops(edges, source, target, chain);
    }
    if h != target {
      if chain :| IsSimplePath(Elements(edges), source, target, chain) && h in HeadList(chain) {
        PathHops(edges, source, target, chain);
        assert PathOf([source], true, chain) in BuildPaths(edges, source, target);
      }
    }
  }

  /** The nodes on some simple path to the target, the target included. */
  ghost predicate OnSomePath(edges: set<Edge>, source: Urn, target: Urn, h: Urn) {
    exists chain :: IsSimplePath(edges, source, target, chain) && h in HeadList(chain)
  }

  lemma OnPathIsTarget(edges: seq<Edge>, source: Urn, target: Urn, h: Urn)
    requires OnSomePath(Elements(edges), source, target, h)
    ensures h in TargetsOf(edges, source) && OnSomePath(Elements(edges), source, target, target)
  {
    var chain :| IsSimplePath(Elements(edges), source, target, chain) && h in HeadList(chain);
    PathHops(edges, source, target, chain);
  }

  /** What lies on a simple path, as the descendant's own paths show it. */
  lemma PathNodes(edges: seq<Edge>, source: Urn, urn: Urn, h: Urn)
    requires !IsTruncated(edges, source, urn) && OnSomePath(Elements(edges), source, urn, urn)
    ensures OnSomePath(Elements(edges), source, urn, h) <==>
              h == urn || exists p | p in BuildPaths(edges, source, urn) :: h in Intermediates(p.hops)
    ensures OnSomePath(Elements(edges), source, urn, h) ==> h in TargetsOf(edges, source)
  {
    IntermediatesExactly(edges, source, urn, h);
    if OnSomePath(Elements(edges), source, urn, h) { OnPathIsTarget(edges, source, urn, h); }
  }

  lemma AllOnPaths(edges: seq<Edge>, source: Urn, urn: Urn, good: Urn -> bool)
    requires !IsTruncated(edges, source, urn) && OnSomePath(Elements(edges), source, urn, urn)
    ensures (forall h | OnSomePath(Elements(edges), source, urn, h) :: good(h)) <==>
              && good(urn)
              && forall p, h | p in BuildPaths(edges, source, urn) && h in Intermediates(p.hops) && h in TargetsOf(edges, source) :: good(h)
  {
    forall h
      ensures OnSomePath(Elements(edges), source, urn, h) <==> h == urn || exists p | p in BuildPaths(edges, source, urn) :: h in Intermediates(p.hops)
      ensures OnSomePath(Elements(edges), source, urn, h) ==> h in TargetsOf(edges, source)
    {
      PathNodes(edges, source, urn, h);
    }
  }

  lemma EvidenceOnPaths(edges: seq<Edge>, source: Urn, entities: map<Urn, Entity>, ns: Namespace, lost: set<Purpose>, urn: Urn)
    requires !IsTruncated(edges, source, urn) && OnSomePath(Elements(edges), source, urn, urn)
    ensures DescendantOf(edges, source, entities, ns, lost, TargetsOf(edges, source), urn).missingEvidence == [] <==>
              forall h | OnSomePath(Elements(edges), source, urn, h) :: IsClear(entities, ns, h)
  {
    EvidenceExactly(edges, source, entities, ns, lost, TargetsOf(edges, source), urn);
    ghost var clear := (h: Urn) => IsClear(entities, ns, h);
    AllOnPaths(edges, source, urn, clear);
    assert forall h :: clear(h) <==> IsClear(entities, ns, h);
  }

  lemma PurposesOnPaths(edges: seq<Edge>, source: Urn, entities: map<Urn, Entity>, ns: Namespace, lost: set<Purpose>, urn: Urn)
    requires !IsTruncated(edges, source, urn) && OnSomePath(Elements(edges), source, urn, urn)
    ensures !IsAffected(lost, DescendantOf(edges, source, entities, ns, lost, TargetsOf(edges, source), urn)) <==>
              forall h | OnSomePath(Elements(edges), source, urn, h) :: ParsePurposes(EntityFor(entities, h)) * lost == {}
  {
    ContaminationExactly(urn, BuildPaths(edges, source, urn), entities, TargetsOf(edges, source), lost);
    forall h
      ensures OnSomePath(Elements(edges), source, urn, h) <==> h == urn || exists p | p in BuildPaths(edges, source, urn) :: h in Intermediates(p.hops)
      ensures OnSomePath(Elements(edges), source, urn, h) ==> h in TargetsOf(edges, source)
    {
      PathNodes(edges, source, urn, h);
    }
  }

  lemma EvidenceAndPurposes(edges: seq<Edge>, source: Urn, entities: map<Urn, Entity>, ns: Namespace, lost: set<Purpose>, urn: Urn)
    requires !IsTruncated(edges, source, urn) && OnSomePath(Elements(edges), source, urn, urn)
    ensures var d := DescendantOf(edges, source, entities, ns, lost, TargetsOf(edges, source), urn);
            d.missingEvidence == [] && !IsAffected(lost, d) <==>
              forall h | OnSomePath(Elements(edges), source, urn, h) :: IsBlameless(entities, ns, lost, h)
  {
    EvidenceOnPaths(edges, source, entities, ns, lost, urn);
    PurposesOnPaths(edges, source, entities, ns, lost, urn);
  }

  lemma ContaminationExactly(urn: Urn, paths: seq<LineagePath>, entities: map<Urn, Entity>, targets: seq<Urn>, lost: set<Purpose>)
    ensures IsContaminated(urn, paths, PurposeTable(entities, targets), lost) <==>
              exists p, h | p in paths && h in Intermediates(p.hops) ::
                h != urn && h in targets && ParsePurposes(EntityFor(entities, h)) * lost != {}
  {
    var purposes := PurposeTable(entities, targets);
    assert forall h | h in targets :: h in purposes && purposes[h] == ParsePurposes(EntityFor(entities, h));
    if p, h :| p in paths && h in Intermediates(p.hops) && h != urn && h in targets && ParsePurposes(EntityFor(entities, h)) * lost != {} {
      assert h in purposes && purposes[h] * lost != {};
    }
  }

  ghost predicate HasPath(graph: set<Edge>, source: Urn, target: Urn) {
    exists chain :: IsSimplePath(graph, source, target, chain)
  }

  ghost predicate PathsAreClean(graph: set<Edge>, source: Urn, target: Urn, entities: map<Urn, Entity>, ns: Namespace, lost: set<Purpose>) {
    forall chain | IsSimplePath(graph, source, target, chain) :: IsClean(entities, ns, lost, chain)
  }

  lemma CleanPathsSplit(edges: set<Edge>, source: Urn, target: Urn, entities: map<Urn, Entity>, ns: Namespace, lost: set<Purpose>)
    ensures PathsAreClean(edges, source, target, entities, ns, lost) <==>
              && (forall chain | IsSimplePath(edges, source, target, chain) :: AllResolved(chain))
              && (forall h | OnSomePath(edges, source, target, h) :: IsBlameless(entities, ns, lost, h))
  {
    if PathsAreClean(edges, source, target, entities, ns, lost) {
      forall chain | IsSimplePath(edges, source, target, chain) ensures AllResolved(chain) {
        assert IsClean(entities, ns, lost, chain);
      }
      forall h | OnSomePath(edges, source, target, h) ensures IsBlameless(entities, ns, lost, h) {
        var chain :| IsSimplePath(edges, source, target, chain) && h in HeadList(chain);
        assert IsClean(entities, ns, lost, chain);
      }
    }
  }

  lemma ClearOverDiscovered(edges: seq<Edge>, source: Urn, entities: map<Urn, Entity>, ns: Namespace, lost: set<Purpose>, urn: Urn)
    ensures ReportsAllClear(lost, DescendantOf(edges, source, entities, ns, lost, TargetsOf(edges, source), urn)) <==>
              && !IsTruncated(edges, source, urn) && HasPath(Elements(edges), source, urn)
              && PathsAreClean(Elements(edges), source, urn, entities, ns, lost)
  {
    LineageExactly(edges, source, urn);
    CleanPathsSplit(Elements(edges), source, urn, entities, ns, lost);
    if !IsTruncated(edges, source, urn) && HasPath(Elements(edges), source, urn) {
      var chain :| IsSimplePath(Elements(edges), source, urn, chain);
      PathHops(edges, source, urn, chain);
      assert OnSomePath(Elements(edges), source, urn, urn);
      EvidenceAndPurposes(edges, source, entities, ns, lost, urn);
    }
  }

  /** No false all-clear, exactly.  A descendant is reported clear if and only if the
      enumeration of its paths was not cut short, it has a path, and on every simple
      path the catalog holds from the source to it, every edge is resolved and every
      hop after the source is usable and declares purposes that are well formed and
      none of them lost. */
  lemma AllClearExactly(graph: set<Edge>, source: Urn, edges: seq<Edge>, entities: map<Urn, Entity>, ns: Namespace, lost: set<Purpose>, urn: Urn)
    requires IsDiscovered(graph, source, edges)
    ensures ReportsAllClear(lost, DescendantOf(edges, source, entities, ns, lost, TargetsOf(edges, source), urn)) <==>
              && !IsTruncated(edges, source, urn) && HasPath(graph, source, urn)
              && PathsAreClean(graph, source, urn, entities, ns, lost)
  {
    forall chain ensures IsSimplePath(graph, source, urn, chain) <==> IsSimplePath(Elements(edges), source, urn, chain) {
      SamePaths(graph, source, edges, urn, chain);
    }
    ClearOverDiscovered(edges, source, entities, ns, lost, urn);
  }

  // --- through the policy ---------------------------------------------------------------

  /** A decision of "no action", by any table that reserves it for clear descendants,
      carries that guarantee. */
  lemma NoActionIsEarned(graph: set<Edge>, source: Urn, edges: seq<Edge>, entities: map<Urn, Entity>, ns: Namespace, table: PolicyTable, lost: set<Purpose>, hasReplacement: bool, d: Descendant, x: Decision, chain: seq<Edge>)
    requires IsDiscovered(graph, source, edges) && IsCautious(table.rules)
    requires d in DescendantsOf(edges, source, entities, ns, lost)
    requires Evaluate(table, lost, hasReplacement, d) == Decided(x) && NoAction in x.actions
    requires IsSimplePath(graph, source, d.urn, chain)
    ensures IsClean(entities, ns, lost, chain)
  {
    DescendantIsDescribed(edges, source, entities, ns, lost, d);
    NoActionMeansClear(table, lost, hasReplacement, d, x);
    AllClearExactly(graph, source, edges, entities, ns, lost, d.urn);
  }

  lemma DescendantIsDescribed(edges: seq<Edge>, source: Urn, entities: map<Urn, Entity>, ns: Namespace, lost: set<Purpose>, d: Descendant)
    requires d in DescendantsOf(edges, source, entities, ns, lost)
    ensures d.urn in TargetsOf(edges, source)
    ensures d == DescendantOf(edges, source, entities, ns, lost, TargetsOf(edges, source), d.urn)
  {
    var targets := TargetsOf(edges, source);
    var described := Map(Describer(edges, source, entities, ns, lost), targets);
    SortPermutes(described, DescendantOrder());
    var k :| 0 <= k < |described| && described[k] == d;
    assert d == DescendantOf(edges, source, entities, ns, lost, targets, targets[k]);
  }

  lemma NoActionMeansClear(table: PolicyTable, lost: set<Purpose>, hasReplacement: bool, d: Descendant, x: Decision)
    requires IsCautious(table.rules) && Evaluate(table, lost, hasReplacement, d) == Decided(x) && NoAction in x.actions
    ensures AllClearFacts(FactsOf(lost, hasReplacement, d))
  {
  }

  /** ImpactPlan.all_clear: nothing to contain and nothing escalated. */
  predicate IsPlanAllClear(decisions: seq<Decision>) {
    forall x | x in decisions :: !x.IsDestructive() && !x.IsEscalation()
  }

  ghost predicate EveryRuleActs(rules: seq<Rule>) {
    forall r | r in rules :: r.actions != []
  }

  lemma UnactedIsNoAction(x: Decision)
    requires !x.IsDestructive() && !x.IsEscalation() && x.actions != []
    ensures NoAction in x.actions
  {
    var a := x.actions[0];
    assert a in x.actions && !Rights.IsDestructive(a);
  }

  /** A plan reported as all clear is one: every simple path of the catalog from the
      source, to whatever it leads, is resolved throughout and passes only through
      usable nodes with well-formed purposes, none of them lost. */
  lemma PlanAllClearIsEarned(graph: set<Edge>, source: Urn, edges: seq<Edge>, entities: map<Urn, Entity>, ns: Namespace, table: PolicyTable, lost: set<Purpose>, hasReplacement: bool, target: Urn, chain: seq<Edge>)
    requires IsDiscovered(graph, source, edges) && IsCautious(table.rules) && EveryRuleActs(table.rules)
    requires var decisions := EvaluateAll(table, lost, hasReplacement, DescendantsOf(edges, source, entities, ns, lost));
             decisions.Some? && IsPlanAllClear(decisions.value)
    requires IsSimplePath(graph, source, target, chain)
    ensures IsClean(entities, ns, lost, chain)
  {
    var descendants := DescendantsOf(edges, source, entities, ns, lost);
    var d := TargetIsDescribed(graph, source, edges, entities, ns, lost, target, chain);
    EachIsDecided(table, lost, hasReplacement, descendants);
    var x := Evaluate(table, lost, hasReplacement, d).decision;
    EvaluatedMembers(table, lost, hasReplacement, descendants, x);
    FirstMatchMatches(table.rules, FactsOf(lost, hasReplacement, d));
    UnactedIsNoAction(x);
    NoActionIsEarned(graph, source, edges, entities, ns, table, lost, hasReplacement, d, x, chain);
  }

  lemma ShippedRulesAct()
    ensures EveryRuleActs(EvidenceRules()) && EveryRuleActs(ContainmentRules()) && EveryRuleActs(ShippedRules())
  {
  }

  /** The same with the shipped rules, for what one rights event took away. */
  lemma ShippedPlanAllClear(graph: set<Edge>, source: Urn, edges: seq<Edge>, entities: map<Urn, Entity>, ns: Namespace, priority: PriorityModel, prior: License, now: License, hasReplacement: bool, target: Urn, chain: seq<Edge>)
    requires IsDiscovered(graph, source, edges)
    requires var decisions := EvaluateAll(PolicyTable(ShippedRules(), priority), LostPurposes(prior, now), hasReplacement,
                                          DescendantsOf(edges, source, entities, ns, LostPurposes(prior, now)));
             decisions.Some? && IsPlanAllClear(decisions.value)
    requires IsSimplePath(graph, source, target, chain)
    ensures IsClean(entities, ns, LostPurposes(prior, now), chain)
  {
    ShippedRulesAreCautious();
    ShippedRulesAct();
    PlanAllClearIsEarned(graph, source, edges, entities, ns, PolicyTable(ShippedRules(), priority), LostPurposes(prior, now),
                         hasReplacement, target, chain);
  }

  lemma TargetIsDescribed(graph: set<Edge>, source: Urn, edges: seq<Edge>, entities: map<Urn, Entity>, ns: Namespace, lost: set<Purpose>, target: Urn, chain: seq<Edge>)
    returns (d: Descendant)
    requires IsDiscovered(graph, source, edges) && IsSimplePath(graph, source, target, chain)
    ensures d in DescendantsOf(edges, source, entities, ns, lost) && d.urn == target
  {
    var targets := TargetsOf(edges, source);
    SamePaths(graph, source, edges, target, chain);
    PathHops(edges, source, target, chain);
    var described := Map(Describer(edges, source, entities, ns, lost), targets);
    SortPermutes(described, DescendantOrder());
    var k :| 0 <= k < |targets| && targets[k] == target;
    d := described[k];
    assert d in described;
  }

  // --- all ancestors, when the graph has no cycle -------------------------------------------

  /** On a graph without cycles the guarantee reaches every ancestor: whatever the
      source can reach and can reach the descendant. */
  lemma AncestorsAreBlameless(graph: set<Edge>, rank: Urn -> nat, source: Urn, edges: seq<Edge>, entities: map<Urn, Entity>, ns: Namespace, lost: set<Purpose>, urn: Urn, ancestor: Urn)
    requires IsAcyclic(graph, rank) && IsDiscovered(graph, source, edges)
    requires ReportsAllClear(lost, DescendantOf(edges, source, entities, ns, lost, TargetsOf(edges, source), urn))
    requires ancestor != source && Reachable(graph, source, ancestor) && Reachable(graph, ancestor, urn)
    ensures IsBlameless(entities, ns, lost, ancestor)
  {
    var chain := PathThrough(graph, rank, source, ancestor, urn);
    AllClearExactly(graph, source, edges, entities, ns, lost, urn);
    assert IsClean(entities, ns, lost, chain);
  }

  // --- exactly which nodes an all-clear vouches for ---------------------------------------

  lemma NamesAreRead(p: Purpose)
    ensures PurposeOf(PurposeName(p)) == Some(p)
  {
  }

  /** An active, tagged entity that declares the one purpose `p`. */
  function EntityWith(p: Purpose): Entity {
    Entity(true, true, true, Some([PurposeName(p)]), None, None, None, false)
  }

  lemma EntityWithPurpose(p: Purpose)
    ensures WellFormedPurposes(Some(EntityWith(p))) && ParsePurposes(Some(EntityWith(p))) == {p}
  {
    NamesAreRead(p);
    assert [PurposeName(p)][0] == PurposeName(p);
  }

  const EVERYTHING := Namespace((u: Urn) => true)

  /** A catalog in which every target declares the purpose `kept`, and `v` is not
      catalogued at all. */
  function AllBut(edges: seq<Edge>, kept: Purpose, v: Urn): map<Urn, Entity> {
    map u | u in Heads(edges) && u != v :: EntityWith(kept)
  }

  lemma AllButIsBlameless(edges: seq<Edge>, kept: Purpose, v: Urn, lost: set<Purpose>, u: Urn)
    requires kept !in lost && u in Heads(edges)
    ensures IsBlameless(AllBut(edges, kept, v), EVERYTHING, lost, u) <==> u != v
  {
    EntityWithPurpose(kept);
  }

  /** What "reported clear" says about `v`, whatever the catalog's metadata. */
  ghost predicate VouchesFor(edges: seq<Edge>, source: Urn, lost: set<Purpose>, urn: Urn, v: Urn) {
    forall entities, ns | ReportsAllClear(lost, DescendantOf(edges, source, entities, ns, lost, TargetsOf(edges, source), urn)) ::
      IsBlameless(entities, ns, lost, v)
  }

  /** Exactly the nodes that lie on a simple path: for a descendant whose paths were
      all found and are resolved, being reported clear guarantees that `v` is blameless
      if and only if some simple path from the source to the descendant visits `v`. */
  lemma VouchesExactly(graph: set<Edge>, source: Urn, edges: seq<Edge>, lost: set<Purpose>, kept: Purpose, urn: Urn, v: Urn)
    requires IsDiscovered(graph, source, edges) && !IsTruncated(edges, source, urn) && HasPath(graph, source, urn)
    requires forall chain | IsSimplePath(graph, source, urn, chain) :: AllResolved(chain)
    requires kept !in lost
    ensures VouchesFor(edges, source, lost, urn, v) <==> OnSomePath(graph, source, urn, v)
  {
    if OnSomePath(graph, source, urn, v) {
      forall entities, ns | ReportsAllClear(lost, DescendantOf(edges, source, entities, ns, lost, TargetsOf(edges, source), urn))
        ensures IsBlameless(entities, ns, lost, v)
      {
        AllClearExactly(graph, source, edges, entities, ns, lost, urn);
        CleanPathsSplit(graph, source, urn, entities, ns, lost);
      }
    } else {
      var entities := AllBut(edges, kept, v);
      OffPathIsMissed(graph, source, edges, lost, kept, urn, v);
      AllClearExactly(graph, source, edges, entities, EVERYTHING, lost, urn);
      assert !IsBlameless(entities, EVERYTHING, lost, v);
    }
  }

  /** With metadata that faults only `v`, every path that avoids `v` is clean. */
  lemma OffPathIsMissed(graph: set<Edge>, source: Urn, edges: seq<Edge>, lost: set<Purpose>, kept: Purpose, urn: Urn, v: Urn)
    requires IsDiscovered(graph, source, edges) && kept !in lost && !OnSomePath(graph, source, urn, v)
    requires forall chain | IsSimplePath(graph, source, urn, chain) :: AllResolved(chain)
    ensures PathsAreClean(graph, source, urn, AllBut(edges, kept, v), EVERYTHING, lost)
  {
    forall chain | IsSimplePath(graph, source, urn, chain) ensures IsClean(AllBut(edges, kept, v), EVERYTHING, lost, chain) {
      SamePaths(graph, source, edges, urn, chain);
      RouteHeads(edges, source, chain);
      forall h | h in HeadList(chain) ensures IsBlameless(AllBut(edges, kept, v), EVERYTHING, lost, h) {
        AllButIsBlameless(edges, kept, v, lost, h);
      }
    }
  }

  /** An acyclic graph is one where that is every ancestor; on a graph with a cycle an
      ancestor can escape. */
  lemma AncestorsAreVouchedFor(graph: set<Edge>, rank: Urn -> nat, source: Urn, urn: Urn, v: Urn)
    requires IsAcyclic(graph, rank) && v != source
    ensures OnSomePath(graph, source, urn, v) <==> Reachable(graph, source, v) && Reachable(graph, v, urn)
  {
    if Reachable(graph, source, v) && Reachable(graph, v, urn) {
      var chain := PathThrough(graph, rank, source, v, urn);
    }
    if chain :| IsSimplePath(graph, source, urn, chain) && v in HeadList(chain) {
      var k :| 0 <= k < |chain| && HeadList(chain)[k] == v;
      RouteCut(graph, source, chain, k + 1);
      RouteReaches(graph, source, chain[..k + 1]);
      RouteReaches(graph, v, chain[k + 1..]);
    }
  }

  lemma {:induction false} RouteCut(graph: set<Edge>, node: Urn, chain: seq<Edge>, k: nat)
    requires IsRoute(graph, node, chain) && k <= |chain|
    ensures IsRoute(graph, node, chain[..k]) && IsRoute(graph, EndOf(node, chain[..k]), chain[k..])
    ensures EndOf(EndOf(node, chain[..k]), chain[k..]) == EndOf(node, chain)
    decreases k
  {
    if k > 0 {
      RouteCut(graph, chain[0].downstream, chain[1..], k - 1);
      assert chain[..k][1..] == chain[1..][..k - 1] && chain[1..][k - 1..] == chain[k..];
      assert EndOf(chain[0].downstream, chain[1..][..k - 1]) == EndOf(node, chain[..k]);
    } else {
      assert chain[0..] == chain;
    }
  }

  lemma {:induction false} RouteReaches(graph: set<Edge>, node: Urn, chain: seq<Edge>)
    requires IsRoute(graph, node, chain)
    ensures EndOf(node, chain) in Within(graph, node, |chain|)
    decreases |chain|
  {
    if chain != [] {
      var n := |chain| - 1;
      RouteCut(graph, node, chain, n);
      RouteReaches(graph, node, chain[..n]);
      assert chain[n..] == [chain[n]];
    }
  }

  function CycleEdges(source: Urn, urn: Urn, aside: Urn): seq<Edge> {
    [Edge(source, urn, true), Edge(urn, aside, true), Edge(aside, urn, true)]
  }

  /** The only simple path goes straight to `urn`. */
  lemma CyclePaths(source: Urn, urn: Urn, aside: Urn, chain: seq<Edge>)
    requires source != urn && source != aside && urn != aside
    requires IsSimplePath(Elements(CycleEdges(source, urn, aside)), source, urn, chain)
    ensures chain == [Edge(source, urn, true)]
  {
    var hops := Hops([source], chain);
    assert chain[0] == Edge(source, urn, true) && hops[1] == urn && hops[|hops| - 1] == urn;
  }

  lemma CycleIsDiscovered(source: Urn, urn: Urn, aside: Urn)
    requires source != urn && source != aside && urn != aside
    ensures var edges := CycleEdges(source, urn, aside); var graph := Elements(edges);
            && Reachable(graph, source, aside) && Reachable(graph, aside, urn) && IsDiscovered(graph, source, edges)
  {
    var edges := CycleEdges(source, urn, aside);
    var graph := Elements(edges);
    assert edges[0] in graph && edges[1] in graph && edges[2] in graph;
    assert source in Within(graph, source, 0) && aside in Within(graph, aside, 0);
    ReachableStep(graph, source, edges[0]);
    ReachableStep(graph, source, edges[1]);
    ReachableStep(graph, aside, edges[2]);
  }

  /** Two visits: the source, and `urn` at the end of the one path. */
  lemma CycleIsSearched(source: Urn, urn: Urn, aside: Urn)
    requires source != urn && source != aside && urn != aside
    ensures !IsTruncated(CycleEdges(source, urn, aside), source, urn)
  {
    var edges := CycleEdges(source, urn, aside);
    OnlyFirstLeaves(source, urn, aside);
    var s := Search([], 1, false);
    assert [source] + [urn] == [source, urn];
    var t := Walk(edges, urn, s, [source, urn], true);
    assert !t.truncated;
    assert Follow(edges, urn, t, [source], true, []) == t;
    assert Follow(edges, urn, s, [source], true, [edges[0]]) == t;
  }

  lemma OnlyFirstLeaves(source: Urn, urn: Urn, aside: Urn)
    requires source != urn && source != aside && urn != aside
    ensures Adjacent(CycleEdges(source, urn, aside), source) == [Edge(source, urn, true)]
  {
    var edges := CycleEdges(source, urn, aside);
    var p := (e: Edge) => e.upstream == source;
    var rest := edges[1..];
    assert forall e | e in rest :: e == edges[1] || e == edges[2];
    NothingPasses(p, rest);
  }

  lemma {:induction false} NothingPasses<T(!new)>(p: T -> bool, xs: seq<T>)
    requires forall x | x in xs :: !p(x)
    ensures Filter(p, xs) == []
  {
    if xs != [] { NothingPasses(p, xs[1..]); }
  }

  /** Downstream of the source and upstream of `urn` lies `aside`, which does nothing
      but what was revoked, and `urn` is reported clear. */
  lemma CyclicAncestorIsMissed(source: Urn, urn: Urn, aside: Urn, gone: Purpose, kept: Purpose)
    requires source != urn && source != aside && urn != aside && gone != kept
    ensures var edges := CycleEdges(source, urn, aside); var graph := Elements(edges);
            var entities := map[urn := EntityWith(kept), aside := EntityWith(gone)];
            && IsDiscovered(graph, source, edges) && Reachable(graph, source, aside) && Reachable(graph, aside, urn)
            && ParsePurposes(EntityFor(entities, aside)) == {gone}
            && ReportsAllClear({gone}, DescendantOf(edges, source, entities, EVERYTHING, {gone}, TargetsOf(edges, source), urn))
  {
    var edges := CycleEdges(source, urn, aside);
    var graph, lost := Elements(edges), {gone};
    var entities := map[urn := EntityWith(kept), aside := EntityWith(gone)];
    CycleIsDiscovered(source, urn, aside);
    CycleIsSearched(source, urn, aside);
    EntityWithPurpose(kept);
    EntityWithPurpose(gone);
    StraightPath(graph, source, urn);
    forall chain | IsSimplePath(graph, source, urn, chain) ensures IsClean(entities, EVERYTHING, lost, chain) {
      CyclePaths(source, urn, aside, chain);
      assert HeadList(chain) == [urn];
    }
    AllClearExactly(graph, source, edges, entities, EVERYTHING, lost, urn);
  }

  lemma StraightPath(graph: set<Edge>, source: Urn, urn: Urn)
    requires source != urn && Edge(source, urn, true) in graph
    ensures HasPath(graph, source, urn)
  {
    var chain := [Edge(source, urn, true)];
    assert chain[1..] == [] && Hops([source], chain) == [source, urn];
    assert IsSimplePath(graph, source, urn, chain);
  }
}
