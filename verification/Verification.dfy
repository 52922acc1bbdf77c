/** Verification by probing the artifacts (app/verification.py). */
module Verification {
  import opened Ordering
  import opened Rights
  import opened Plan
  import opened Estate
  import opened Provenance
  import opened Reports

  datatype Probe = Probe(urn: Urn, passed: bool, containment: bool)

  datatype VerificationReport = VerificationReport(probes: seq<Probe>, coverageComplete: bool)
  {
    predicate ChecksPassed() {
      probes != [] && forall i | 0 <= i < |probes| :: probes[i].passed
    }

    predicate IsContained() { coverageComplete && ChecksPassed() }
  }

  // --- containment probes -----------------------------------------------------

  /** The endpoint answers with a refusal. */
  predicate EndpointRefuses(c: Content) { ServingOf(c, PREDICT_API) == Blocked }

  function ManifestIds(c: Content): seq<string> {
    match c.manifest
    case Some(BuiltManifest(_, _, rowIds, _)) => rowIds
    case _ => []
  }

  function StoredIds(c: Content): seq<string> {
    if c.vectors.Some? then EntryIds(c.vectors.value) else []
  }

  predicate NoPartner(ids: seq<string>) { forall id | id in ids :: !FromPartner(id) }

  /** Nothing indexed traces to the partner feed, and the manifest tells the truth
      about what is stored.  (What a search returns is among the stored entries.) */
  predicate IndexHolds(c: Content) {
    && NoPartner(ManifestIds(c)) && NoPartner(StoredIds(c))
    && Sort(StoredIds(c), StringOrder()) == Sort(ManifestIds(c), StringOrder())
    && if c.vectors.Some? then
         c.manifest.Some? && c.manifest.value.BuiltManifest? && c.manifest.value.artifact == c.vectors.value
       else c.manifest == Some(PurgedManifest)
  }

  predicate ExportGone(c: Content) { c.published.None? }

  predicate IsTainted(u: Urn) { u == SOURCE || u == NORMALIZED || u == FEATURES }

  /** The served version cites approved sources only and matches its manifest. */
  predicate ModelTrusted(c: Content, name: ModelName) {
    match ActiveVersion(c, name)
    case None => false
    case Some(v) =>
      var m := ManifestOf(c, name, v);
      && m.Some?
      && NoPartner(m.value.rowIds)
      && (forall s | s in m.value.sources :: !IsTainted(s))
      && VersionOf(c, name, v).value.model == Some(m.value.artifact)
  }

  predicate TableClean(c: Content, t: Table) {
    t in c.tables && forall r | r in c.tables[t] :: !FromPartner(r.id)
  }

  function ContainmentPasses(c: Content, record: Record): bool {
    match record
    case ServiceRecord => EndpointRefuses(c)
    case IndexRecord => IndexHolds(c)
    case ExportRecord => ExportGone(c)
    case ModelRecord(name) => ModelTrusted(c, name)
    case TableRecord(t) => TableClean(c, t)
    case ReportRecord => c.report.Some?
  }

  // --- precision probes ---------------------------------------------------------

  function IsAvailable(c: Content, record: Record): bool {
    match record
    case ModelRecord(name) => ModelTrusted(c, name)
    case TableRecord(t) => t in c.tables && c.tables[t] != []
    case ReportRecord => c.report.Some? && c.report.value != []
    case _ => false
  }

  // --- dispatch -----------------------------------------------------------------

  /** The probe a decision gets, if any. */
  function ProbeOf(d: Decision, c: Content): seq<Probe> {
    if d.IsEscalation() then []
    else
      match ResolveArtifact(d.urn)
      case None => [Probe(d.urn, false, d.IsDestructive())]
      case Some(record) =>
        if d.IsDestructive() then [Probe(d.urn, ContainmentPasses(c, record), true)]
        else if NoAction in d.actions then [Probe(d.urn, IsAvailable(c, record), false)]
        else []
  }

  function ProbesOf(decisions: seq<Decision>, c: Content): seq<Probe> {
    if decisions == [] then []
    else ProbesOf(decisions[..|decisions| - 1], c) + ProbeOf(decisions[|decisions| - 1], c)
  }

  predicate Probes(probes: seq<Probe>, urn: Urn) {
    exists i | 0 <= i < |probes| :: probes[i].urn == urn
  }

  function ApprovedModelProbe(c: Content): Probe {
    Probe(APPROVED_MODEL, IsAvailable(c, ModelRecord(ApprovedSentimentModel)), false)
  }

  function ProbeKey(p: Probe): (bool, (nat, string)) { (!p.containment, UrnKey(p.urn)) }

  function ProbeOrder(): (Probe, Probe) -> bool {
    By((p: Probe) => ProbeKey(p), Then(BoolOrder(), Then(NatOrder(), StringOrder())))
  }

  function Unsorted(plan: ImpactPlan, c: Content): seq<Probe> {
    var probes := ProbesOf(plan.decisions, c);
    if Probes(probes, APPROVED_MODEL) then probes else probes + [ApprovedModelProbe(c)]
  }

  function VerifyPlan(plan: ImpactPlan, c: Content): VerificationReport {
    VerificationReport(Sort(Unsorted(plan, c), ProbeOrder()),
                       forall i | 0 <= i < |plan.decisions| :: !plan.decisions[i].IsEscalation())
  }

  /** verify_plan: probe decision by decision, then the approved branch, then sort. */
  method RunProbes(plan: ImpactPlan, c: Content) returns (report: VerificationReport)
    ensures report == VerifyPlan(plan, c)
  {
    var probes: seq<Probe> := [];
    for i := 0 to |plan.decisions|
      invariant probes == ProbesOf(plan.decisions[..i], c)
    {
      var d := plan.decisions[i];
      assert plan.decisions[..i + 1][..i] == plan.decisions[..i];
      if d.IsEscalation() {
        continue;
      }
      var record := ResolveArtifact(d.urn);
      if record.None? {
        probes := probes + [Probe(d.urn, false, d.IsDestructive())];
      } else if d.IsDestructive() {
        probes := probes + [Probe(d.urn, ContainmentPasses(c, record.value), true)];
      } else if NoAction in d.actions {
        probes := probes + [Probe(d.urn, IsAvailable(c, record.value), false)];
      }
    }
    assert plan.decisions[..|plan.decisions|] == plan.decisions;
    if !Probes(probes, APPROVED_MODEL) {
      probes := probes + [ApprovedModelProbe(c)];
    }
    report := VerificationReport(Sort(probes, ProbeOrder()),
      forall i | 0 <= i < |plan.decisions| :: !plan.decisions[i].IsEscalation());
  }

  lemma {:induction false} ProbeMembers(decisions: seq<Decision>, c: Content, p: Probe)
    ensures p in ProbesOf(decisions, c) <==> exists d | d in decisions :: p in ProbeOf(d, c)
  {
    if decisions != [] {
      var n := |decisions| - 1;
      ProbeMembers(decisions[..n], c, p);
      assert decisions == decisions[..n] + [decisions[n]];
    }
  }

  /** The report holds the probes of the decisions and the approved model's, once
      sorted, and nothing else. */
  lemma ReportMembers(plan: ImpactPlan, c: Content, p: Probe)
    ensures p in VerifyPlan(plan, c).probes <==>
              || (exists d | d in plan.decisions :: p in ProbeOf(d, c))
              || (p == ApprovedModelProbe(c) && !Probes(ProbesOf(plan.decisions, c), APPROVED_MODEL))
  {
    SortPermutes(Unsorted(plan, c), ProbeOrder());
    ProbeMembers(plan.decisions, c, p);
  }

  /** Every destructive decision that did not escalate has its own probe, and the
      approved model is always probed. */
  lemma EveryDecisionIsProbed(plan: ImpactPlan, c: Content)
    ensures forall d | d in plan.decisions && d.IsDestructive() && !d.IsEscalation() ::
              exists p | p in VerifyPlan(plan, c).probes :: p.urn == d.urn && p.containment
    ensures exists p | p in VerifyPlan(plan, c).probes :: p.urn == APPROVED_MODEL
  {
    forall d | d in plan.decisions && d.IsDestructive() && !d.IsEscalation()
      ensures exists p | p in VerifyPlan(plan, c).probes :: p.urn == d.urn && p.containment
    {
      var p := ProbeOf(d, c)[0];
      ReportMembers(plan, c, p);
    }
    SortPermutes(Unsorted(plan, c), ProbeOrder());
    var probes := Unsorted(plan, c);
    if Probes(ProbesOf(plan.decisions, c), APPROVED_MODEL) {
      var i :| 0 <= i < |probes| && probes[i].urn == APPROVED_MODEL;
      assert probes[i] in probes;
    } else {
      assert ApprovedModelProbe(c) in probes;
    }
  }
}
