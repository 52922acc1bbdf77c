/** What a probe says of the estate: each passes exactly when the artifact is as it
    should be, told from its rows, entries, files and states. */
module Probing {
  import opened Ordering
  import opened Rights
  import opened Plan
  import opened Estate
  import opened Provenance
  import opened Execution
  import opened Verification
  import opened Containment
  import opened Products

  // --- as it should be ----------------------------------------------------------------

  ghost predicate HoldsNoPartnerRow(c: Content, t: Table) {
    t in c.tables && forall i | 0 <= i < |c.tables[t]| :: !("P-" <= c.tables[t][i].id)
  }

  /** Nothing indexed comes from the partner feed, and files and manifest agree. */
  ghost predicate IndexIsContained(c: Content) {
    match (c.vectors, c.manifest)
    case (None, Some(PurgedManifest)) => true
    case (Some(v), Some(BuiltManifest(_, _, rowIds, artifact))) =>
      && (forall i | 0 <= i < |rowIds| :: !("P-" <= rowIds[i]))
      && (forall i | 0 <= i < |v.entries| :: !("P-" <= v.entries[i].id))
      && multiset(rowIds) == multiset(Map((e: Entry) => e.id, v.entries))
      && artifact == v
    case _ => false
  }

  /** The version being served has a manifest that cites nothing revoked and no partner
      row, and is the file its manifest was written for. */
  ghost predicate ServesCleanly(c: Content, name: ModelName) {
    && name in c.models && c.models[name].active.Some?
    && var v := c.models[name].active.value;
       && v in c.models[name].versions
       && var d := c.models[name].versions[v];
          && d.manifest.Some? && d.model == Some(d.manifest.value.artifact)
          && (forall i | 0 <= i < |d.manifest.value.rowIds| :: !("P-" <= d.manifest.value.rowIds[i]))
          && (forall i | 0 <= i < |d.manifest.value.sources| ::
                d.manifest.value.sources[i] !in {Local(PartnerFeed), Local(NormalizedReviews), Local(Features)})
  }

  ghost predicate IsContained(c: Content, artifact: Artifact) {
    match artifact
    case PredictApi => PREDICT_API in c.serving && c.serving[PREDICT_API] == Blocked
    case ReviewIndex => IndexIsContained(c)
    case ReviewsExtract => c.published == None
    case SentimentModel => ServesCleanly(c, ReviewSentimentModel)
    case ApprovedModel => ServesCleanly(c, ApprovedSentimentModel)
    case NormalizedReviews => HoldsNoPartnerRow(c, NormalizedTable)
    case Features => HoldsNoPartnerRow(c, SentimentTable)
    case LegacySnapshot => HoldsNoPartnerRow(c, SnapshotTable)
    case PartnerFeed => HoldsNoPartnerRow(c, PartnerFeedTable)
    case ApprovedFeed => HoldsNoPartnerRow(c, ApprovedFeedTable)
    case ReviewVolume => c.report != None
  }

  ghost predicate HoldsRows(c: Content, t: Table) { t in c.tables && |c.tables[t]| > 0 }

  ghost predicate IsWorking(c: Content, artifact: Artifact) {
    match artifact
    case SentimentModel => ServesCleanly(c, ReviewSentimentModel)
    case ApprovedModel => ServesCleanly(c, ApprovedSentimentModel)
    case NormalizedReviews => HoldsRows(c, NormalizedTable)
    case Features => HoldsRows(c, SentimentTable)
    case LegacySnapshot => HoldsRows(c, SnapshotTable)
    case PartnerFeed => HoldsRows(c, PartnerFeedTable)
    case ApprovedFeed => HoldsRows(c, ApprovedFeedTable)
    case ReviewVolume => c.report.Some? && |c.report.value| > 0
    case _ => false
  }

  // --- each probe -------------------------------------------------------------------------

  lemma IndexProbeIsExact(c: Content)
    ensures IndexHolds(c) <==> IndexIsContained(c)
  {
    BasicOrders();
    var stored, listed := StoredIds(c), ManifestIds(c);
    SortCanonical(stored, listed, StringOrder());
    match (c.vectors, c.manifest)
    case (Some(v), Some(BuiltManifest(_, _, rowIds, artifact))) =>
      assert stored == Map((e: Entry) => e.id, v.entries) && listed == rowIds;
      assert forall i | 0 <= i < |v.entries| :: stored[i] == v.entries[i].id;
      NoPartnerMeans(stored);
      NoPartnerMeans(listed);
    case _ =>
  }

  lemma NoPartnerMeans(ids: seq<string>)
    ensures NoPartner(ids) <==> forall i | 0 <= i < |ids| :: !("P-" <= ids[i])
  {
    assert forall id :: FromPartner(id) <==> "P-" <= id;
    if forall i | 0 <= i < |ids| :: !("P-" <= ids[i]) {
      forall id | id in ids ensures !FromPartner(id) {
        var i :| 0 <= i < |ids| && ids[i] == id;
      }
    } else {
      var i :| 0 <= i < |ids| && "P-" <= ids[i];
      assert ids[i] in ids;
    }
  }

  lemma UntaintedMeans(sources: seq<Urn>)
    ensures (forall s | s in sources :: !IsTainted(s)) <==>
              forall i | 0 <= i < |sources| :: sources[i] !in {Local(PartnerFeed), Local(NormalizedReviews), Local(Features)}
  {
    assert forall s :: IsTainted(s) <==> s in {Local(PartnerFeed), Local(NormalizedReviews), Local(Features)};
    if i :| 0 <= i < |sources| && sources[i] in {Local(PartnerFeed), Local(NormalizedReviews), Local(Features)} {
      assert sources[i] in sources;
    }
  }

  lemma ModelProbeIsExact(c: Content, name: ModelName)
    ensures ModelTrusted(c, name) <==> ServesCleanly(c, name)
  {
    match ActiveVersion(c, name)
    case Some(v) =>
      if ManifestOf(c, name, v).Some? {
        var m := ManifestOf(c, name, v).value;
        NoPartnerMeans(m.rowIds);
        UntaintedMeans(m.sources);
      }
    case None =>
  }

  lemma TableProbeIsExact(c: Content, t: Table)
    ensures TableClean(c, t) <==> HoldsNoPartnerRow(c, t)
  {
    assert forall id :: FromPartner(id) <==> "P-" <= id;
    if t in c.tables && HoldsNoPartnerRow(c, t) {
      forall r | r in c.tables[t] ensures !FromPartner(r.id) {
        var i :| 0 <= i < |c.tables[t]| && c.tables[t][i] == r;
      }
    }
  }

  lemma PassesExactly(c: Content, artifact: Artifact)
    ensures ResolveArtifact(Local(artifact)).Some?
    ensures ContainmentPasses(c, ResolveArtifact(Local(artifact)).value) <==> IsContained(c, artifact)
    ensures IsAvailable(c, ResolveArtifact(Local(artifact)).value) <==> IsWorking(c, artifact)
  {
    match ResolveArtifact(Local(artifact)).value
    case TableRecord(t) => TableProbeIsExact(c, t);
    case ModelRecord(name) => ModelProbeIsExact(c, name);
    case IndexRecord => IndexProbeIsExact(c);
    case _ =>
  }

  // --- the report ---------------------------------------------------------------------------

  predicate Destroys(d: Decision) {
    exists a | a in d.actions :: a in {Freeze, Quarantine, Purge, Rebuild, Retrain, Replace}
  }

  lemma DestroysIsDestructive(d: Decision)
    ensures d.IsDestructive() <==> Destroys(d)
  {
  }

  /** The decision calls for this probe, and the probe tells the truth. */
  ghost predicate TrulyProbes(d: Decision, c: Content, p: Probe) {
    && Escalate !in d.actions && p.urn == d.urn && p.containment == Destroys(d)
    && if d.urn.Foreign? then !p.passed
       else if Destroys(d) then p.passed == IsContained(c, d.urn.artifact)
       else NoAction in d.actions && p.passed == IsWorking(c, d.urn.artifact)
  }

  lemma ProbeIsTrue(d: Decision, c: Content, p: Probe)
    ensures p in ProbeOf(d, c) <==> TrulyProbes(d, c, p)
  {
    assert d.IsDestructive() <==> Destroys(d);
    match d.urn
    case Local(artifact) => PassesExactly(c, artifact);
    case Foreign(_) =>
  }

  /** A decision that has the approved model probed already. */
  ghost predicate ProbesApprovedModel(d: Decision) {
    d.urn == Local(ApprovedModel) && Escalate !in d.actions && (Destroys(d) || NoAction in d.actions)
  }

  lemma ApprovedIsProbed(plan: ImpactPlan, c: Content)
    ensures Probes(ProbesOf(plan.decisions, c), APPROVED_MODEL) <==> exists d | d in plan.decisions :: ProbesApprovedModel(d)
  {
    var probes := ProbesOf(plan.decisions, c);
    if Probes(probes, APPROVED_MODEL) {
      var i :| 0 <= i < |probes| && probes[i].urn == APPROVED_MODEL;
      ProbeMembers(plan.decisions, c, probes[i]);
      var d :| d in plan.decisions && probes[i] in ProbeOf(d, c);
      ProbeIsTrue(d, c, probes[i]);
      assert ProbesApprovedModel(d);
    }
    if d :| d in plan.decisions && ProbesApprovedModel(d) {
      var p := Probe(d.urn, if Destroys(d) then IsContained(c, ApprovedModel) else IsWorking(c, ApprovedModel), Destroys(d));
      ProbeIsTrue(d, c, p);
      ProbeMembers(plan.decisions, c, p);
      var i :| 0 <= i < |probes| && probes[i] == p;
    }
  }

  /** The report holds exactly the probes the decisions call for, each telling the
      truth, and one of the approved model in any case; containment probes come first,
      then by URN; and coverage is complete unless something escalated. */
  lemma ReportIsTrue(plan: ImpactPlan, c: Content)
    ensures var report := VerifyPlan(plan, c);
            && (forall p :: p in report.probes <==>
                  || (exists d | d in plan.decisions :: TrulyProbes(d, c, p))
                  || (p == Probe(Local(ApprovedModel), IsWorking(c, ApprovedModel), false)
                      && !exists d | d in plan.decisions :: ProbesApprovedModel(d)))
            && (forall i, j | 0 <= i < j < |report.probes| ::
                  if report.probes[i].containment == report.probes[j].containment
                  then UrnOrder()(report.probes[i].urn, report.probes[j].urn) else report.probes[i].containment)
            && (report.coverageComplete <==> forall d | d in plan.decisions :: Escalate !in d.actions)
  {
    var report := VerifyPlan(plan, c);
    PassesExactly(c, ApprovedModel);
    ApprovedIsProbed(plan, c);
    forall p ensures p in report.probes <==>
                  || (exists d | d in plan.decisions :: TrulyProbes(d, c, p))
                  || (p == Probe(Local(ApprovedModel), IsWorking(c, ApprovedModel), false)
                      && !exists d | d in plan.decisions :: ProbesApprovedModel(d))
    {
      ReportMembers(plan, c, p);
      forall d | d in plan.decisions ensures p in ProbeOf(d, c) <==> TrulyProbes(d, c, p) { ProbeIsTrue(d, c, p); }
    }
    forall i, j | 0 <= i < j < |report.probes|
      ensures if report.probes[i].containment == report.probes[j].containment
              then UrnOrder()(report.probes[i].urn, report.probes[j].urn) else report.probes[i].containment
    {
      ProbesInOrder(plan, c, i, j);
    }
  }

  lemma ProbesInOrder(plan: ImpactPlan, c: Content, i: nat, j: nat)
    requires i < j < |VerifyPlan(plan, c).probes|
    ensures var probes := VerifyPlan(plan, c).probes;
            if probes[i].containment == probes[j].containment
            then UrnOrder()(probes[i].urn, probes[j].urn) else probes[i].containment
  {
    var key := Then(BoolOrder(), Then(NatOrder(), StringOrder()));
    BasicOrders();
    ThenIsTotalOrder(NatOrder(), StringOrder());
    ThenIsTotalOrder(BoolOrder(), Then(NatOrder(), StringOrder()));
    ByIsPreorder((p: Probe) => ProbeKey(p), key);
    SortSorts(Unsorted(plan, c), ProbeOrder());
    assert ProbeOrder()(VerifyPlan(plan, c).probes[i], VerifyPlan(plan, c).probes[j]);
  }

  // --- the estate as built ----------------------------------------------------------------

  lemma DerivedKeepsIds(rows: seq<Row>, feed: seq<Row>, origin: Feed, k: nat) returns (i: nat)
    requires DerivedFrom(rows, feed, origin) && k < |feed|
    ensures i < |rows| && rows[i].id == feed[k].id
  {
    var f := (r: Row) => (r.id, r.text, r.target, r.rating);
    var g := (r: Row) => (r.id, Normalized(r.text), r.target, r.rating);
    assert Map(g, feed)[k] in multiset(Map(g, feed));
    assert Map(g, feed)[k] in multiset(Map(f, rows));
    i :| 0 <= i < |rows| && Map(f, rows)[i] == Map(g, feed)[k];
  }

  lemma ListedIds(ids: seq<string>, rows: seq<Row>, i: nat) returns (k: nat)
    requires IdsOf(ids, rows) && i < |rows|
    ensures k < |ids| && ids[k] == rows[i].id
  {
    var f := (r: Row) => r.id;
    assert Map(f, rows)[i] in multiset(Map(f, rows));
    assert rows[i].id in multiset(ids);
    k :| 0 <= k < |ids| && ids[k] == rows[i].id;
  }

  lemma BuiltRowsAreTainted(partner: seq<Row>, approved: seq<Row>, report: seq<(int, int)>, k: nat) returns (i: nat)
    requires k < |partner| && "P-" <= partner[k].id
    ensures var c := Built(partner, approved, report);
            && i < |c.tables[NormalizedTable]| && "P-" <= c.tables[NormalizedTable][i].id
            && i < |c.tables[SentimentTable]| && "P-" <= c.tables[SentimentTable][i].id
  {
    BuiltHolds(partner, approved, report);
    var c := Built(partner, approved, report);
    i := DerivedKeepsIds(c.tables[NormalizedTable], partner, PartnerLabel, k);
  }

  lemma BuiltIndexIsTainted(partner: seq<Row>, approved: seq<Row>, report: seq<(int, int)>, k: nat)
    requires k < |partner| && "P-" <= partner[k].id
    ensures !IndexIsContained(Built(partner, approved, report))
  {
    var c := Built(partner, approved, report);
    BuiltHolds(partner, approved, report);
    var i := BuiltRowsAreTainted(partner, approved, report, k);
    var listed := ListedIds(c.manifest.value.rowIds, c.tables[NormalizedTable], i);
  }

  /** Before anything is contained every probe says so: on an estate as built from a
      partner corpus with at least one partner row, the normalized table, the features,
      the index, the endpoint, the export and the model are all not contained. */
  lemma NothingBuiltIsContained(partner: seq<Row>, approved: seq<Row>, report: seq<(int, int)>, k: nat)
    requires k < |partner| && "P-" <= partner[k].id
    ensures var c := Built(partner, approved, report);
            forall a | a in {NormalizedReviews, Features, ReviewIndex, PredictApi, ReviewsExtract, SentimentModel} ::
              !IsContained(c, a)
  {
    var c := Built(partner, approved, report);
    var i := BuiltRowsAreTainted(partner, approved, report, k);
    BuiltIndexIsTainted(partner, approved, report, k);
    BuiltModelIsTainted(partner, approved, report);
    TaintedTable(c, NormalizedTable, i);
    TaintedTable(c, SentimentTable, i);
    assert c.published.Some? && c.serving[PREDICT_API] == ServingOn;
  }

  lemma TaintedTable(c: Content, t: Table, i: nat)
    requires t in c.tables && i < |c.tables[t]| && "P-" <= c.tables[t][i].id
    ensures !HoldsNoPartnerRow(c, t)
  {
  }

  lemma BuiltModelIsTainted(partner: seq<Row>, approved: seq<Row>, report: seq<(int, int)>)
    ensures !ServesCleanly(Built(partner, approved, report), ReviewSentimentModel)
  {
    var c := Built(partner, approved, report);
    var d := c.models[ReviewSentimentModel].versions[V1];
    assert d.manifest.value.sources[0] == Local(Features);
  }

  /** So a plan to contain one of them is told that it is not. */
  lemma BuiltEstateFailsProbes(partner: seq<Row>, approved: seq<Row>, report: seq<(int, int)>, k: nat, plan: ImpactPlan, d: Decision)
    requires k < |partner| && "P-" <= partner[k].id
    requires d in plan.decisions && Destroys(d) && Escalate !in d.actions
    requires d.urn.Local? && d.urn.artifact in {NormalizedReviews, Features, ReviewIndex, PredictApi, ReviewsExtract, SentimentModel}
    ensures Probe(d.urn, false, true) in VerifyPlan(plan, Built(partner, approved, report)).probes
    ensures !VerifyPlan(plan, Built(partner, approved, report)).ChecksPassed()
  {
    var c := Built(partner, approved, report);
    NothingBuiltIsContained(partner, approved, report, k);
    ReportIsTrue(plan, c);
    assert TrulyProbes(d, c, Probe(d.urn, false, true));
  }

  // --- completed means contained ------------------------------------------------------------

  /** Completed implies verified, in these terms: after every history from an estate as
      built, once every step is completed, whatever the plan set out to contain and did
      not escalate is contained, unless it is the revoked model and nothing replaced it. */
  lemma CompletedIsContained(base: Content, plan: ImpactPlan, w: World, events: seq<HistoryEvent>, x: World, d: Decision)
    requires IsBuilt(base) && IsFresh(w) && w.disk.content == base
    requires Undisturbed(events) && x in History(w, events)
    requires x.run.Some? && x.run.value.planHash == HashOf(plan) && AllDone(PlanSteps(plan), x)
    requires d in plan.decisions && Destroys(d) && Escalate !in d.actions && RevokedModelReplaced(plan)
    ensures d.urn.Local? && IsContained(x.disk.content, d.urn.artifact)
  {
    CompletedImpliesVerified(base, plan, w, events, x);
    VerifiedIsContained(plan, x.disk.content, d);
  }

  lemma VerifiedIsContained(plan: ImpactPlan, c: Content, d: Decision)
    requires ContainmentVerified(plan, c) && d in plan.decisions && Destroys(d) && Escalate !in d.actions
    ensures d.urn.Local? && IsContained(c, d.urn.artifact)
  {
    ReportIsTrue(plan, c);
    var p := Probe(d.urn, d.urn.Local? && IsContained(c, d.urn.artifact), true);
    assert TrulyProbes(d, c, p) && p in VerifyPlan(plan, c).probes;
  }
}
