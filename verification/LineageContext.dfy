/** Turning discovered lineage into typed descendants (app/context.py). */
module LineageContext {
  import opened Ordering
  import opened Rights
  import opened Plan
  import opened Catalog
  import opened Discovery
  import opened Paths

  datatype Exposure = Public | Internal | Offline

  datatype Criticality = High | Medium | Low

  /** A catalog entry.  `purposes` is the declared list split at its commas, each
      part stripped; it is absent when the property is missing or not a string.
      An enumeration is absent when its property does not name a member. */
  datatype Entity = Entity(
    active: bool,
    hasProjectTag: bool,
    inProjectDomain: bool,
    purposes: Option<seq<string>>,
    artifactClass: Option<ArtifactClass>,
    exposure: Option<Exposure>,
    criticality: Option<Criticality>,
    rebuildable: bool)

  datatype Descendant = Descendant(
    urn: Urn,
    artifactClass: ArtifactClass,
    exposure: Exposure,
    criticality: Criticality,
    paths: seq<LineagePath>,
    purposes: set<Purpose>,
    rebuildable: bool,
    missingEvidence: seq<string>,
    contaminated: bool)
  {
    predicate LineageComplete() { paths != [] && forall p | p in paths :: p.complete }
  }

  /** What the project was allocated: which URNs are its own. */
  datatype Namespace = Namespace(owns: Urn -> bool)

  // --- validation -----------------------------------------------------------------

  function Note(holds: bool, issue: string): seq<string> { if holds then [] else [issue] }

  function ValidateEntity(entity: Option<Entity>, urn: Urn, ns: Namespace): Validation {
    var present := entity.Some? && entity.value.active;
    var tagged := entity.Some? && entity.value.hasProjectTag;
    var placed := entity.Some? && entity.value.inProjectDomain;
    Validation(urn, present, ns.owns(urn), tagged, placed,
               Note(present, "entity not found in DataHub")
               + Note(ns.owns(urn), "URN is outside the namespace")
               + Note(!present || tagged, "entity does not carry the project tag")
               + Note(!present || placed, "entity is not in the project domain"))
  }

  // --- purposes ---------------------------------------------------------------------

  function PurposeOf(token: string): Option<Purpose> {
    if token == "training" then Some(Training)
    else if token == "retrieval" then Some(Retrieval)
    else if token == "analytics" then Some(Analytics)
    else if token == "serving" then Some(Serving)
    else if token == "export" then Some(ExportUse)
    else None
  }

  function ParsePurposes(entity: Option<Entity>): set<Purpose> {
    if entity.None? || entity.value.purposes.None? then {}
    else set token | token in entity.value.purposes.value && PurposeOf(token).Some? :: PurposeOf(token).value
  }

  predicate IsBlank(tokens: seq<string>) { tokens == [] || tokens == [""] }

  function PurposeIssues(entity: Option<Entity>): seq<string> {
    if entity.None? || entity.value.purposes.None? || IsBlank(entity.value.purposes.value)
    then ["purpose metadata is missing or empty"]
    else if exists t | t in entity.value.purposes.value :: PurposeOf(t).None?
    then ["purpose metadata contains unknown values"]
    else []
  }

  /** Something is declared, and all of it is purposes. */
  predicate WellFormedPurposes(entity: Option<Entity>) {
    && entity.Some? && entity.value.purposes.Some? && entity.value.purposes.value != []
    && forall t | t in entity.value.purposes.value :: PurposeOf(t).Some?
  }

  lemma PurposeIssuesExactly(entity: Option<Entity>)
    ensures PurposeIssues(entity) == [] <==> WellFormedPurposes(entity)
  {
    if WellFormedPurposes(entity) {
      var tokens := entity.value.purposes.value;
      assert tokens[0] in tokens && PurposeOf(tokens[0]).Some?;
    }
  }

  // --- evidence about one node --------------------------------------------------------

  function EntityFor(entities: map<Urn, Entity>, urn: Urn): Option<Entity> {
    if urn in entities then Some(entities[urn]) else None
  }

  /** What is wrong with a node's own metadata; usable nodes only answer for their
      purposes. */
  function IssuesOf(entities: map<Urn, Entity>, ns: Namespace, urn: Urn): seq<string> {
    var v := ValidateEntity(EntityFor(entities, urn), urn, ns);
    PurposeIssues(EntityFor(entities, urn)) + if v.IsUsable() then [] else v.issues
  }

  ghost predicate IsClear(entities: map<Urn, Entity>, ns: Namespace, urn: Urn) {
    WellFormedPurposes(EntityFor(entities, urn)) && ValidateEntity(EntityFor(entities, urn), urn, ns).IsUsable()
  }

  lemma IssuesExactly(entities: map<Urn, Entity>, ns: Namespace, urn: Urn)
    ensures IssuesOf(entities, ns, urn) == [] <==> IsClear(entities, ns, urn)
  {
    PurposeIssuesExactly(EntityFor(entities, urn));
  }

  // --- descendants ------------------------------------------------------------------

  function ArtifactName(a: Artifact): string {
    match a
    case ReviewVolume => "review_volume"
    case ApprovedFeed => "approved_feed"
    case LegacySnapshot => "legacy_snapshot"
    case NormalizedReviews => "normalized_reviews"
    case PartnerFeed => "partner_feed"
    case Features => "features"
    case ReviewsExtract => "reviews_extract"
    case ApprovedModel => "approved_model"
    case SentimentModel => "sentiment_model"
    case PredictApi => "predict_api"
    case ReviewIndex => "review_index"
  }

  function UrnName(u: Urn): string {
    match u
    case Local(a) => ArtifactName(a)
    case Foreign(name) => name
  }

  function Attributed(hop: Urn, issues: seq<string>): seq<string> {
    Map((issue: string) => UrnName(hop) + ": " + issue, issues)
  }

  /** The issues of the intermediate hops of one path, in order. */
  function HopIssues(hops: seq<Urn>, issues: map<Urn, seq<string>>): seq<string> {
    if hops == [] then []
    else
      var n := |hops| - 1;
      HopIssues(hops[..n], issues) + Attributed(hops[n], if hops[n] in issues then issues[hops[n]] else [])
  }

  function PathIssues(paths: seq<LineagePath>, issues: map<Urn, seq<string>>): seq<string> {
    if paths == [] then []
    else
      var n := |paths| - 1;
      PathIssues(paths[..n], issues) + HopIssues(Intermediates(paths[n].hops), issues)
  }

  predicate IsContaminated(urn: Urn, paths: seq<LineagePath>, purposes: map<Urn, set<Purpose>>, lost: set<Purpose>) {
    exists p, hop | p in paths && hop in Intermediates(p.hops) ::
      hop != urn && hop in purposes && purposes[hop] * lost != {}
  }

  function IssueTable(entities: map<Urn, Entity>, ns: Namespace, targets: seq<Urn>): map<Urn, seq<string>> {
    map urn | urn in targets :: IssuesOf(entities, ns, urn)
  }

  function PurposeTable(entities: map<Urn, Entity>, targets: seq<Urn>): map<Urn, set<Purpose>> {
    map urn | urn in targets :: ParsePurposes(EntityFor(entities, urn))
  }

  function OrElse<T>(o: Option<T>, default: T): T { if o.Some? then o.value else default }

  function DescendantOf(edges: seq<Edge>, source: Urn, entities: map<Urn, Entity>, ns: Namespace, lost: set<Purpose>, targets: seq<Urn>, urn: Urn): Descendant {
    var entity := EntityFor(entities, urn);
    var validation := ValidateEntity(entity, urn, ns);
    var paths := BuildPaths(edges, source, urn);
    var own := IssuesOf(entities, ns, urn) + if validation.IsUsable() then [] else validation.issues;
    Descendant(urn,
               if entity.Some? then OrElse(entity.value.artifactClass, UnknownClass) else UnknownClass,
               if entity.Some? then OrElse(entity.value.exposure, Internal) else Internal,
               if entity.Some? then OrElse(entity.value.criticality, Medium) else Medium,
               paths,
               ParsePurposes(entity),
               entity.Some? && entity.value.rebuildable,
               SortedStrings(Dedup(own + PathIssues(paths, IssueTable(entities, ns, targets)))),
               IsContaminated(urn, paths, PurposeTable(entities, targets), lost))
  }

  /** The downstream ends of the edges, each once, without the source. */
  function TargetsOf(edges: seq<Edge>, source: Urn): seq<Urn> {
    if edges == [] then []
    else
      var n := |edges| - 1;
      var before, target := TargetsOf(edges[..n], source), edges[n].downstream;
      if target in before || target == source then before else before + [target]
  }

  lemma {:induction false} TargetMembers(edges: seq<Edge>, source: Urn)
    ensures forall u :: u in TargetsOf(edges, source) <==> u != source && u in Heads(edges)
    ensures Distinct(TargetsOf(edges, source))
  {
    if edges != [] {
      var n := |edges| - 1;
      TargetMembers(edges[..n], source);
      assert edges == edges[..n] + [edges[n]];
    }
  }

  function DescendantOrder(): (Descendant, Descendant) -> bool {
    By((d: Descendant) => d.urn, UrnOrder())
  }

  // --- discovery of descendants -------------------------------------------------------

  method CollectTargets(edges: seq<Edge>, source: Urn) returns (targets: seq<Urn>)
    ensures targets == TargetsOf(edges, source)
  {
    targets := [];
    for i := 0 to |edges|
      invariant targets == TargetsOf(edges[..i], source)
    {
      assert edges[..i + 1][..i] == edges[..i];
      if edges[i].downstream !in targets && edges[i].downstream != source {
        targets := targets + [edges[i].downstream];
      }
    }
    assert edges[..|edges|] == edges;
  }

  method CollectHopIssues(hops: seq<Urn>, issues: map<Urn, seq<string>>) returns (found: seq<string>)
    ensures found == HopIssues(hops, issues)
  {
    found := [];
    for k := 0 to |hops|
      invariant found == HopIssues(hops[..k], issues)
    {
      assert hops[..k + 1][..k] == hops[..k];
      found := found + Attributed(hops[k], if hops[k] in issues then issues[hops[k]] else []);
    }
    assert hops[..|hops|] == hops;
  }

  method CollectPathIssues(paths: seq<LineagePath>, issues: map<Urn, seq<string>>) returns (found: seq<string>)
    ensures found == PathIssues(paths, issues)
  {
    found := [];
    for i := 0 to |paths|
      invariant found == PathIssues(paths[..i], issues)
    {
      assert paths[..i + 1][..i] == paths[..i];
      var inherited := CollectHopIssues(Intermediates(paths[i].hops), issues);
      found := found + inherited;
    }
    assert paths[..|paths|] == paths;
  }

  method Describe(edges: seq<Edge>, source: Urn, entities: map<Urn, Entity>, ns: Namespace, lost: set<Purpose>, targets: seq<Urn>, urn: Urn)
    returns (d: Descendant)
    ensures d == DescendantOf(edges, source, entities, ns, lost, targets, urn)
  {
    var entity := EntityFor(entities, urn);
    var validation := ValidateEntity(entity, urn, ns);
    var paths := FindPaths(edges, source, urn);
    var issues := IssuesOf(entities, ns, urn);
    if !validation.IsUsable() {
      issues := issues + validation.issues;
    }
    assert issues == IssuesOf(entities, ns, urn) + if validation.IsUsable() then [] else validation.issues;
    var inherited := CollectPathIssues(paths, IssueTable(entities, ns, targets));
    d := Descendant(urn,
                    if entity.Some? then OrElse(entity.value.artifactClass, UnknownClass) else UnknownClass,
                    if entity.Some? then OrElse(entity.value.exposure, Internal) else Internal,
                    if entity.Some? then OrElse(entity.value.criticality, Medium) else Medium,
                    paths,
                    ParsePurposes(entity),
                    entity.Some? && entity.value.rebuildable,
                    SortedStrings(Dedup(issues + inherited)),
                    IsContaminated(urn, paths, PurposeTable(entities, targets), lost));
  }

  function Describer(edges: seq<Edge>, source: Urn, entities: map<Urn, Entity>, ns: Namespace, lost: set<Purpose>): Urn -> Descendant {
    var targets := TargetsOf(edges, source);
    (urn: Urn) => DescendantOf(edges, source, entities, ns, lost, targets, urn)
  }

  function Validator(entities: map<Urn, Entity>, ns: Namespace): Urn -> Validation {
    (urn: Urn) => ValidateEntity(EntityFor(entities, urn), urn, ns)
  }

  function DescendantsOf(edges: seq<Edge>, source: Urn, entities: map<Urn, Entity>, ns: Namespace, lost: set<Purpose>): seq<Descendant> {
    Sort(Map(Describer(edges, source, entities, ns, lost), TargetsOf(edges, source)), DescendantOrder())
  }

  /** Fails exactly when the reachable graph is over a limit; otherwise describes
      every target of the closed graph. */
  method DiscoverDescendants(catalog: FakeCatalog, entities: map<Urn, Entity>, source: Urn, ns: Namespace, window: nat, lost: set<Purpose>)
    returns (result: Option<(seq<Descendant>, seq<Validation>)>, ghost edges: seq<Edge>)
    requires Filed(catalog.lineage)
    ensures result.None? <==> TooLarge(GraphOf(catalog.lineage), source)
    ensures result.Some? ==> forall e :: e in edges <==> IsOnward(GraphOf(catalog.lineage), source, e)
    ensures result.Some? ==> result.value.0 == DescendantsOf(edges, source, entities, ns, lost)
    ensures result.Some? ==> result.value.1 == Map(Validator(entities, ns), TargetsOf(edges, source))
  {
    var discovered := DiscoverEdges(catalog, source, window);
    if discovered.None? {
      return None, [];
    }
    var known := discovered.value;
    edges := known;
    var targets := CollectTargets(known, source);
    var descendants, validations := DescribeAll(known, source, entities, ns, lost, targets);
    result := Some((Sort(descendants, DescendantOrder()), validations));
  }

  lemma MapAppend<A, B>(f: A -> B, xs: seq<A>, k: nat)
    requires k < |xs|
    ensures Map(f, xs[..k + 1]) == Map(f, xs[..k]) + [f(xs[k])]
  {
  }

  method DescribeAll(edges: seq<Edge>, source: Urn, entities: map<Urn, Entity>, ns: Namespace, lost: set<Purpose>, targets: seq<Urn>)
    returns (descendants: seq<Descendant>, validations: seq<Validation>)
    requires targets == TargetsOf(edges, source)
    ensures descendants == Map(Describer(edges, source, entities, ns, lost), targets)
    ensures validations == Map(Validator(entities, ns), targets)
  {
    ghost var describe, validate := Describer(edges, source, entities, ns, lost), Validator(entities, ns);
    descendants, validations := [], [];
    for i := 0 to |targets|
      invariant descendants == Map(describe, targets[..i])
      invariant validations == Map(validate, targets[..i])
    {
      MapAppend(describe, targets, i);
      MapAppend(validate, targets, i);
      validations := validations + [ValidateEntity(EntityFor(entities, targets[i]), targets[i], ns)];
      var d := Describe(edges, source, entities, ns, lost, targets, targets[i]);
      descendants := descendants + [d];
    }
    assert targets[..|targets|] == targets;
  }

  // --- reading the evidence list ------------------------------------------------------

  lemma {:induction false} NoHopIssues(hops: seq<Urn>, issues: map<Urn, seq<string>>)
    ensures HopIssues(hops, issues) == [] <==> forall h | h in hops && h in issues :: issues[h] == []
  {
    if hops != [] {
      var n := |hops| - 1;
      NoHopIssues(hops[..n], issues);
      assert hops == hops[..n] + [hops[n]];
    }
  }

  lemma {:induction false} NoPathIssues(paths: seq<LineagePath>, issues: map<Urn, seq<string>>)
    ensures PathIssues(paths, issues) == [] <==>
              forall p, h | p in paths && h in Intermediates(p.hops) && h in issues :: issues[h] == []
  {
    if paths != [] {
      var n := |paths| - 1;
      NoPathIssues(paths[..n], issues);
      NoHopIssues(Intermediates(paths[n].hops), issues);
      assert paths == paths[..n] + [paths[n]];
    }
  }

  /** The evidence list is empty exactly when the descendant and every discovered
      intermediate hop is usable and declares its purposes properly. */
  lemma EvidenceExactly(edges: seq<Edge>, source: Urn, entities: map<Urn, Entity>, ns: Namespace, lost: set<Purpose>, targets: seq<Urn>, urn: Urn)
    ensures var d := DescendantOf(edges, source, entities, ns, lost, targets, urn);
            d.missingEvidence == [] <==>
              && IsClear(entities, ns, urn)
              && forall p, h | p in d.paths && h in Intermediates(p.hops) && h in targets :: IsClear(entities, ns, h)
  {
    var d := DescendantOf(edges, source, entities, ns, lost, targets, urn);
    var validation := ValidateEntity(EntityFor(entities, urn), urn, ns);
    var own := IssuesOf(entities, ns, urn) + if validation.IsUsable() then [] else validation.issues;
    var inherited := PathIssues(d.paths, IssueTable(entities, ns, targets));
    EmptyEvidence(own + inherited);
    IssuesExactly(entities, ns, urn);
    NoPathIssues(d.paths, IssueTable(entities, ns, targets));
    forall h | h in targets ensures IssueTable(entities, ns, targets)[h] == [] <==> IsClear(entities, ns, h) {
      IssuesExactly(entities, ns, h);
    }
  }

  lemma EmptyEvidence(all: seq<string>)
    ensures SortedStrings(Dedup(all)) == [] <==> all == []
  {
    DedupKeepsTheSet(all);
    SortPermutes(Dedup(all), StringOrder());
    assert all != [] ==> all[0] in Dedup(all);
  }

  // --- nodes and descendants, read off the catalog's entries ------------------------------

  function PurposeName(p: Purpose): string {
    match p
    case Training => "training"
    case Retrieval => "retrieval"
    case Analytics => "analytics"
    case Serving => "serving"
    case ExportUse => "export"
  }

  lemma PurposeNames(token: string, p: Purpose)
    ensures PurposeOf(token) == Some(p) <==> token == PurposeName(p)
  {
  }

  /** The entry is active, ours, tagged, and declares at least one purpose and nothing
      that is not a purpose. */
  ghost predicate IsInOrder(entities: map<Urn, Entity>, ns: Namespace, urn: Urn) {
    && urn in entities && ns.owns(urn)
    && var e := entities[urn];
       && e.active && e.hasProjectTag && e.purposes.Some? && |e.purposes.value| > 0
       && forall i | 0 <= i < |e.purposes.value| :: IsPurposeName(e.purposes.value[i])
  }

  ghost predicate IsPurposeName(token: string) { exists p :: token == PurposeName(p) }

  lemma ClearMeans(entities: map<Urn, Entity>, ns: Namespace, urn: Urn)
    ensures IsClear(entities, ns, urn) <==> IsInOrder(entities, ns, urn)
  {
    if urn in entities && entities[urn].purposes.Some? {
      var tokens := entities[urn].purposes.value;
      forall t ensures PurposeOf(t).Some? <==> IsPurposeName(t) {
        if PurposeOf(t).Some? { PurposeNames(t, PurposeOf(t).value); }
        if p :| t == PurposeName(p) { PurposeNames(t, p); }
      }
      assert forall t :: t in tokens <==> exists i :: 0 <= i < |tokens| && tokens[i] == t;
    }
  }

  ghost predicate Declares(entities: map<Urn, Entity>, urn: Urn, p: Purpose) {
    urn in entities && entities[urn].purposes.Some? && PurposeName(p) in entities[urn].purposes.value
  }

  lemma PurposesMean(entities: map<Urn, Entity>, urn: Urn, p: Purpose)
    ensures p in ParsePurposes(EntityFor(entities, urn)) <==> Declares(entities, urn, p)
  {
    forall t ensures PurposeOf(t) == Some(p) <==> t == PurposeName(p) { PurposeNames(t, p); }
    if Declares(entities, urn, p) {
      var t := PurposeName(p);
      assert t in entities[urn].purposes.value && PurposeOf(t).Some?;
    }
  }

  /** Nothing declared and something unknown declared are told apart. */
  lemma PurposeIssuesMean(entity: Option<Entity>)
    ensures var declared := if entity.Some? && entity.value.purposes.Some? then entity.value.purposes.value else [];
            PurposeIssues(entity) ==
              if declared == [] || declared == [""] then ["purpose metadata is missing or empty"]
              else if forall i | 0 <= i < |declared| :: IsPurposeName(declared[i]) then []
              else ["purpose metadata contains unknown values"]
  {
    if entity.Some? && entity.value.purposes.Some? {
      var declared := entity.value.purposes.value;
      AllPurposes(declared);
      assert PurposeIssues(entity) ==
        if IsBlank(declared) then ["purpose metadata is missing or empty"]
        else if exists t | t in declared :: PurposeOf(t).None? then ["purpose metadata contains unknown values"] else [];
    }
  }

  lemma AllPurposes(tokens: seq<string>)
    ensures (exists t | t in tokens :: PurposeOf(t).None?) <==> !forall i | 0 <= i < |tokens| :: IsPurposeName(tokens[i])
  {
    forall t ensures PurposeOf(t).Some? <==> IsPurposeName(t) {
      if PurposeOf(t).Some? { PurposeNames(t, PurposeOf(t).value); }
      if p :| t == PurposeName(p) { PurposeNames(t, p); }
    }
    if t :| t in tokens && PurposeOf(t).None? {
      var i :| 0 <= i < |tokens| && tokens[i] == t;
      assert !IsPurposeName(tokens[i]);
    }
    if i :| 0 <= i < |tokens| && !IsPurposeName(tokens[i]) {
      assert tokens[i] in tokens && PurposeOf(tokens[i]).None?;
    }
  }

  /** What is recorded of a node's place in the project. */
  lemma ValidationMeans(entities: map<Urn, Entity>, ns: Namespace, urn: Urn)
    ensures var v := ValidateEntity(EntityFor(entities, urn), urn, ns);
            && v.urn == urn && (v.present <==> urn in entities && entities[urn].active) && v.inNamespace == ns.owns(urn)
            && (v.hasProjectTag <==> urn in entities && entities[urn].hasProjectTag)
            && (v.inProjectDomain <==> urn in entities && entities[urn].inProjectDomain)
            && (v.IsUsable() <==> urn in entities && entities[urn].active && ns.owns(urn) && entities[urn].hasProjectTag)
            && (v.issues == [] <==> v.IsUsable() && v.inProjectDomain)
  {
  }

  /** Some node strictly inside a discovered path, other than the artifact itself, is a
      target that declares a lost purpose. */
  ghost predicate PassesThroughLost(d: Descendant, entities: map<Urn, Entity>, targets: seq<Urn>, lost: set<Purpose>) {
    exists p, q: nat | p in d.paths && 1 <= q < |p.hops| - 1 ::
      && p.hops[q] != d.urn && p.hops[q] in targets
      && exists purpose | purpose in lost :: Declares(entities, p.hops[q], purpose)
  }

  ghost predicate InOrderOnce(xs: seq<string>) {
    forall i, j | 0 <= i < j < |xs| :: xs[i] != xs[j] && StringOrder()(xs[i], xs[j])
  }

  /** A descendant field by field: everything it says of an artifact is what the catalog's
      entry says, or a default that is not a guess in its favour. */
  lemma DescendantMeans(edges: seq<Edge>, source: Urn, entities: map<Urn, Entity>, ns: Namespace, lost: set<Purpose>, targets: seq<Urn>, urn: Urn)
    ensures var d := DescendantOf(edges, source, entities, ns, lost, targets, urn);
            && d.urn == urn
            && d.artifactClass == (if urn in entities && entities[urn].artifactClass.Some? then entities[urn].artifactClass.value else UnknownClass)
            && d.exposure == (if urn in entities && entities[urn].exposure.Some? then entities[urn].exposure.value else Internal)
            && d.criticality == (if urn in entities && entities[urn].criticality.Some? then entities[urn].criticality.value else Medium)
            && (d.rebuildable <==> urn in entities && entities[urn].rebuildable)
            && (forall p :: p in d.purposes <==> Declares(entities, urn, p))
            && (d.contaminated <==> PassesThroughLost(d, entities, targets, lost))
            && InOrderOnce(d.missingEvidence)
  {
    var d := DescendantOf(edges, source, entities, ns, lost, targets, urn);
    forall p ensures p in d.purposes <==> Declares(entities, urn, p) { PurposesMean(entities, urn, p); }
    ContaminationMeans(d.urn, d.paths, entities, targets, lost, d);
    var validation := ValidateEntity(EntityFor(entities, urn), urn, ns);
    var own := IssuesOf(entities, ns, urn) + if validation.IsUsable() then [] else validation.issues;
    var all := own + PathIssues(d.paths, IssueTable(entities, ns, targets));
    assert d.missingEvidence == SortedStrings(Dedup(all));
    EvidenceInOrder(all);
  }

  lemma EvidenceInOrder(all: seq<string>)
    ensures InOrderOnce(SortedStrings(Dedup(all)))
  {
    BasicOrders();
    DedupKeepsTheSet(all);
    SortKeepsDistinct(Dedup(all), StringOrder());
    SortSorts(Dedup(all), StringOrder());
  }

  /** An issue of a node strictly inside a discovered path, with that node's name. */
  ghost predicate IsInherited(d: Descendant, entities: map<Urn, Entity>, ns: Namespace, targets: seq<Urn>, text: string) {
    exists p, q: nat | p in d.paths && 1 <= q < |p.hops| - 1 :: IsIssueOf(entities, ns, targets, p.hops[q], text)
  }

  ghost predicate IsIssueOf(entities: map<Urn, Entity>, ns: Namespace, targets: seq<Urn>, hop: Urn, text: string) {
    hop in targets && exists issue | issue in IssuesOf(entities, ns, hop) :: text == UrnName(hop) + ": " + issue
  }

  /** The evidence list names exactly the artifact's own issues and, by name, those of the
      nodes inside its paths. */
  lemma EvidenceMeans(edges: seq<Edge>, source: Urn, entities: map<Urn, Entity>, ns: Namespace, lost: set<Purpose>, targets: seq<Urn>, urn: Urn, text: string)
    ensures var d := DescendantOf(edges, source, entities, ns, lost, targets, urn);
            text in d.missingEvidence <==> text in IssuesOf(entities, ns, urn) || IsInherited(d, entities, ns, targets, text)
  {
    var d := DescendantOf(edges, source, entities, ns, lost, targets, urn);
    var validation := ValidateEntity(EntityFor(entities, urn), urn, ns);
    var own := IssuesOf(entities, ns, urn) + if validation.IsUsable() then [] else validation.issues;
    var inherited := PathIssues(d.paths, IssueTable(entities, ns, targets));
    DedupKeepsTheSet(own + inherited);
    SortPermutes(Dedup(own + inherited), StringOrder());
    PathIssueMembers(d.paths, IssueTable(entities, ns, targets), text);
    InheritedMeans(d, entities, ns, targets, text);
  }

  ghost predicate NamesIssue(issues: map<Urn, seq<string>>, hop: Urn, text: string) {
    hop in issues && exists issue | issue in issues[hop] :: text == UrnName(hop) + ": " + issue
  }

  lemma InheritedMeans(d: Descendant, entities: map<Urn, Entity>, ns: Namespace, targets: seq<Urn>, text: string)
    ensures IsInherited(d, entities, ns, targets, text) <==>
              exists p, hop | p in d.paths && hop in Intermediates(p.hops) :: NamesIssue(IssueTable(entities, ns, targets), hop, text)
  {
    var table := IssueTable(entities, ns, targets);
    forall hop ensures NamesIssue(table, hop, text) <==> IsIssueOf(entities, ns, targets, hop, text) {
      assert hop in targets ==> table[hop] == IssuesOf(entities, ns, hop);
    }
    if p, q: nat :| p in d.paths && 1 <= q < |p.hops| - 1 && IsIssueOf(entities, ns, targets, p.hops[q], text) {
      InsideAt(p.hops, q);
      assert NamesIssue(table, p.hops[q], text);
    }
    if p, hop :| p in d.paths && hop in Intermediates(p.hops) && NamesIssue(table, hop, text) {
      var q := PlaceOf(p.hops, hop);
      assert IsIssueOf(entities, ns, targets, p.hops[q], text);
    }
  }

  lemma InsideAt(hops: seq<Urn>, q: nat)
    requires 1 <= q < |hops| - 1
    ensures hops[q] in Intermediates(hops)
  {
    assert hops[1..|hops| - 1][q - 1] == hops[q];
  }

  lemma PlaceOf(hops: seq<Urn>, hop: Urn) returns (q: nat)
    requires hop in Intermediates(hops)
    ensures 1 <= q < |hops| - 1 && hops[q] == hop
  {
    var k :| 0 <= k < |hops| - 2 && hops[1..|hops| - 1][k] == hop;
    q := k + 1;
  }

  lemma {:induction false} HopIssueMembers(hops: seq<Urn>, issues: map<Urn, seq<string>>, text: string)
    ensures text in HopIssues(hops, issues) <==> exists hop | hop in hops :: NamesIssue(issues, hop, text)
  {
    if hops != [] {
      var n := |hops| - 1;
      HopIssueMembers(hops[..n], issues, text);
      assert hops == hops[..n] + [hops[n]];
      AttributedMembers(hops[n], if hops[n] in issues then issues[hops[n]] else [], text);
      assert text in HopIssues(hops, issues) <==> text in HopIssues(hops[..n], issues) || NamesIssue(issues, hops[n], text);
      if hop :| hop in hops && NamesIssue(issues, hop, text) {
        assert hop in hops[..n] || hop == hops[n];
      }
    }
  }

  lemma AttributedMembers(hop: Urn, issues: seq<string>, text: string)
    ensures text in Attributed(hop, issues) <==> exists issue | issue in issues :: text == UrnName(hop) + ": " + issue
  {
    if text in Attributed(hop, issues) {
      var i :| 0 <= i < |issues| && Attributed(hop, issues)[i] == text;
      assert issues[i] in issues;
    }
    if issue :| issue in issues && text == UrnName(hop) + ": " + issue {
      var i :| 0 <= i < |issues| && issues[i] == issue;
      assert Attributed(hop, issues)[i] == text;
    }
  }

  lemma {:induction false} PathIssueMembers(paths: seq<LineagePath>, issues: map<Urn, seq<string>>, text: string)
    ensures text in PathIssues(paths, issues) <==>
              exists p, hop | p in paths && hop in Intermediates(p.hops) :: NamesIssue(issues, hop, text)
  {
    if paths != [] {
      var n := |paths| - 1;
      PathIssueMembers(paths[..n], issues, text);
      HopIssueMembers(Intermediates(paths[n].hops), issues, text);
      assert paths == paths[..n] + [paths[n]];
    }
  }

  lemma ContaminationMeans(urn: Urn, paths: seq<LineagePath>, entities: map<Urn, Entity>, targets: seq<Urn>, lost: set<Purpose>, d: Descendant)
    requires d.urn == urn && d.paths == paths
    ensures IsContaminated(urn, paths, PurposeTable(entities, targets), lost) <==> PassesThroughLost(d, entities, targets, lost)
  {
    var table := PurposeTable(entities, targets);
    if IsContaminated(urn, paths, table, lost) {
      var p, hop :| p in paths && hop in Intermediates(p.hops) && hop != urn && hop in table && table[hop] * lost != {};
      var purpose :| purpose in table[hop] * lost;
      PurposesMean(entities, hop, purpose);
      var q := PlaceOf(p.hops, hop);
      assert Declares(entities, p.hops[q], purpose);
    }
    if PassesThroughLost(d, entities, targets, lost) {
      var p, q: nat :| p in d.paths && 1 <= q < |p.hops| - 1 && p.hops[q] != d.urn && p.hops[q] in targets
                       && exists purpose | purpose in lost :: Declares(entities, p.hops[q], purpose);
      var purpose :| purpose in lost && Declares(entities, p.hops[q], purpose);
      PurposesMean(entities, p.hops[q], purpose);
      InsideAt(p.hops, q);
      assert purpose in table[p.hops[q]] * lost;
    }
  }

  ghost predicate IsDescendant(edges: seq<Edge>, source: Urn, entities: map<Urn, Entity>, ns: Namespace, lost: set<Purpose>, d: Descendant) {
    && d.urn != source && d.urn in Heads(edges)
    && d == DescendantOf(edges, source, entities, ns, lost, TargetsOf(edges, source), d.urn)
  }

  /** One description for each target, each once, by URN. */
  ghost predicate AreDescriptions(describe: Urn -> Descendant, targets: seq<Urn>, ds: seq<Descendant>) {
    && (forall d | d in ds :: d.urn in targets && d == describe(d.urn))
    && (forall u | u in targets :: describe(u) in ds)
    && (forall i, j | 0 <= i < j < |ds| :: ds[i].urn != ds[j].urn && UrnOrder()(ds[i].urn, ds[j].urn))
  }

  lemma SortedDescriptions(describe: Urn -> Descendant, targets: seq<Urn>)
    requires Distinct(targets) && forall u | u in targets :: describe(u).urn == u
    ensures AreDescriptions(describe, targets, Sort(Map(describe, targets), DescendantOrder()))
  {
    var described := Map(describe, targets);
    SortPermutes(described, DescendantOrder());
    forall d | d in described ensures d.urn in targets && d == describe(d.urn) { DescribedMembers(describe, targets, d); }
    forall u | u in targets ensures describe(u) in described { DescribedMembers(describe, targets, describe(u)); }
    forall i, j | 0 <= i < j < |described| ensures described[i].urn != described[j].urn {
      assert targets[i] in targets && targets[j] in targets;
    }
    SortedByUrn(described);
  }

  /** The descendants are those of the downstream ends of the edges, each once, by URN;
      the source is not its own descendant. */
  lemma DescendantsMean(edges: seq<Edge>, source: Urn, entities: map<Urn, Entity>, ns: Namespace, lost: set<Purpose>)
    ensures var ds := DescendantsOf(edges, source, entities, ns, lost);
            && (forall d | d in ds :: IsDescendant(edges, source, entities, ns, lost, d))
            && (forall u | u != source && u in Heads(edges) :: exists d | d in ds :: d.urn == u)
            && (forall i, j | 0 <= i < j < |ds| :: ds[i].urn != ds[j].urn && UrnOrder()(ds[i].urn, ds[j].urn))
  {
    var targets, describe := TargetsOf(edges, source), Describer(edges, source, entities, ns, lost);
    TargetMembers(edges, source);
    SortedDescriptions(describe, targets);
    forall u | u != source && u in Heads(edges) ensures exists d | d in DescendantsOf(edges, source, entities, ns, lost) :: d.urn == u {
      assert describe(u).urn == u;
    }
  }

  lemma DescribedMembers(describe: Urn -> Descendant, targets: seq<Urn>, d: Descendant)
    requires forall u | u in targets :: describe(u).urn == u
    ensures d in Map(describe, targets) <==> d.urn in targets && d == describe(d.urn)
  {
    var described := Map(describe, targets);
    if d in described {
      var i :| 0 <= i < |described| && described[i] == d;
      assert targets[i] in targets;
    }
    if d.urn in targets && d == describe(d.urn) {
      var i :| 0 <= i < |targets| && targets[i] == d.urn;
      assert described[i] == d;
    }
  }

  lemma SortedByUrn(described: seq<Descendant>)
    requires forall i, j | 0 <= i < j < |described| :: described[i].urn != described[j].urn
    ensures var ds := Sort(described, DescendantOrder());
            forall i, j | 0 <= i < j < |ds| :: ds[i].urn != ds[j].urn && UrnOrder()(ds[i].urn, ds[j].urn)
  {
    var ds := Sort(described, DescendantOrder());
    UrnOrderIsTotal();
    ByIsPreorder((d: Descendant) => d.urn, UrnOrder());
    SortPermutes(described, DescendantOrder());
    SortSorts(described, DescendantOrder());
    DistinctUrns(described, ds);
    forall i, j | 0 <= i < j < |ds| ensures UrnOrder()(ds[i].urn, ds[j].urn) { assert DescendantOrder()(ds[i], ds[j]); }
  }

  lemma DistinctUrns(described: seq<Descendant>, ds: seq<Descendant>)
    requires multiset(described) == multiset(ds)
    requires forall i, j | 0 <= i < j < |described| :: described[i].urn != described[j].urn
    ensures forall i, j | 0 <= i < j < |ds| :: ds[i].urn != ds[j].urn
  {
    var urns := Map((d: Descendant) => d.urn, described);
    assert Distinct(urns);
    DistinctKeysPermute(described, ds, (d: Descendant) => d.urn);
    var others := Map((d: Descendant) => d.urn, ds);
    forall i, j | 0 <= i < j < |ds| ensures ds[i].urn != ds[j].urn { assert others[i] != others[j]; }
  }
}
