/** The verdict over a run (app/evidence.py), derived from what the executor
    reported and what the probes observed. */
module Evidence {
  import opened Ordering
  import opened Rights
  import opened Plan
  import opened Approvals
  import opened Estate
  import opened Execution
  import opened JournalSafety
  import opened JournalState
  import opened Reports
  import opened Provenance
  import opened Verification
  import opened Containment
  import opened Probing

  datatype ExecutionReport = ExecutionReport(outcomes: seq<Outcome>, residual: seq<Residual>)

  datatype Bundle = Bundle(plan: ImpactPlan, execution: Option<ExecutionReport>, verification: Option<VerificationReport>)

  datatype Verdict = NotStarted | Contained | EscalatedOnly | ResidualLeft

  // --- the residual list --------------------------------------------------------

  function FailureOf(p: Probe): seq<Residual> {
    if p.passed then [] else [Residual(p.urn, VerificationFailed, None)]
  }

  /** One entry for each probe that failed. */
  function ProbeResiduals(probes: seq<Probe>): seq<Residual> {
    if probes == [] then [] else FailureOf(probes[0]) + ProbeResiduals(probes[1..])
  }

  function Collected(b: Bundle): seq<Residual> {
    (if b.execution.Some? then b.execution.value.residual else [])
    + (if b.verification.Some? then ProbeResiduals(b.verification.value.probes) else [])
  }

  function BundleResidual(b: Bundle): seq<Residual> {
    Sort(Dedup(Collected(b)), ResidualOrder())
  }

  method CollectResidual(b: Bundle) returns (unique: seq<Residual>)
    ensures unique == BundleResidual(b)
  {
    var collected := Collected(b);
    var seen: set<Residual> := {};
    unique := [];
    for i := 0 to |collected|
      invariant forall r :: r in seen <==> r in collected[..i]
      invariant unique == Dedup(collected[..i])
    {
      var entry := collected[i];
      DedupNext(collected, i);
      if entry in seen {
        continue;
      }
      seen := seen + {entry};
      unique := unique + [entry];
    }
    assert collected[..|collected|] == collected;
    unique := Sort(unique, ResidualOrder());
  }

  lemma {:induction false} ProbeResidualMembers(probes: seq<Probe>, r: Residual)
    ensures r in ProbeResiduals(probes) <==> exists p | p in probes :: !p.passed && r == Residual(p.urn, VerificationFailed, None)
  {
    if probes != [] {
      ProbeResidualMembers(probes[1..], r);
      assert probes == [probes[0]] + probes[1..];
    }
  }

  ghost predicate ReportedBy(b: Bundle, r: Residual) {
    || (b.execution.Some? && r in b.execution.value.residual)
    || (b.verification.Some? && exists p | p in b.verification.value.probes ::
          !p.passed && r == Residual(p.urn, VerificationFailed, None))
  }

  /** The list names exactly the exposures either side reported, each once. */
  lemma ResidualIsTheUnion(b: Bundle)
    ensures forall r :: r in BundleResidual(b) <==> ReportedBy(b, r)
    ensures Distinct(BundleResidual(b))
  {
    var all := Collected(b);
    DedupKeepsTheSet(all);
    SortPermutes(Dedup(all), ResidualOrder());
    SortKeepsDistinct(Dedup(all), ResidualOrder());
    forall r ensures r in BundleResidual(b) <==> ReportedBy(b, r) {
      if b.verification.Some? { ProbeResidualMembers(b.verification.value.probes, r); }
    }
  }

  /** By URN and, for one URN, by reason. */
  lemma ResidualIsInOrder(b: Bundle, i: nat, j: nat)
    requires i < j < |BundleResidual(b)|
    ensures ResidualsInOrder(BundleResidual(b)[i], BundleResidual(b)[j])
  {
    ResidualOrderIsPreorder();
    SortSorts(Dedup(Collected(b)), ResidualOrder());
    OrderedResiduals(BundleResidual(b)[i], BundleResidual(b)[j]);
  }

  // --- the verdict ----------------------------------------------------------------

  predicate AnyFailed(outcomes: seq<Outcome>) {
    exists k | 0 <= k < |outcomes| :: outcomes[k].status == Failed
  }

  function VerdictOf(b: Bundle): Verdict {
    if b.execution.None? then NotStarted
    else
      var residual := BundleResidual(b);
      if residual == [] && !AnyFailed(b.execution.value.outcomes)
         && b.verification.Some? && b.verification.value.IsContained() then Contained
      else if b.verification.Some? && b.verification.value.ChecksPassed() && residual != []
              && (forall r | r in residual :: r.reason == Escalated) then EscalatedOnly
      else ResidualLeft
  }

  lemma NotStartedExactly(b: Bundle)
    ensures VerdictOf(b) == NotStarted <==> b.execution == None
  {
  }

  /** The probes in the bundle are those of its own plan, on the estate `c`. */
  ghost predicate VerifiedOn(b: Bundle, c: Content) { b.verification == Some(VerifyPlan(b.plan, c)) }

  /** The residual list is the one the executor derives from the outcomes. */
  ghost predicate ReportsOwnResidual(b: Bundle) {
    b.execution.Some? && b.execution.value.residual == ResidualOf(b.plan, b.execution.value.outcomes)
  }

  ghost predicate AllPass(plan: ImpactPlan, c: Content) {
    forall p | p in VerifyPlan(plan, c).probes :: p.passed
  }

  lemma ReportFacts(plan: ImpactPlan, c: Content)
    ensures VerifyPlan(plan, c).ChecksPassed() <==> AllPass(plan, c)
    ensures VerifyPlan(plan, c).coverageComplete <==> NothingEscalated(plan)
  {
    EveryDecisionIsProbed(plan, c);
    var probes := VerifyPlan(plan, c).probes;
    if AllPass(plan, c) {
      forall i | 0 <= i < |probes| ensures probes[i].passed {
        assert probes[i] in probes;
      }
    }
    if VerifyPlan(plan, c).coverageComplete {
      forall d | d in plan.decisions ensures !d.IsEscalation() {
        var i :| 0 <= i < |plan.decisions| && plan.decisions[i] == d;
      }
    }
  }

  /** With every probe passed, what is left is what execution left. */
  lemma PassedLeavesExecution(b: Bundle, c: Content)
    requires VerifiedOn(b, c) && AllPass(b.plan, c) && b.execution.Some?
    ensures forall r :: r in BundleResidual(b) <==> r in b.execution.value.residual
    ensures BundleResidual(b) == [] <==> b.execution.value.residual == []
  {
    var residual := b.execution.value.residual;
    ResidualIsTheUnion(b);
    forall r ensures r in BundleResidual(b) <==> r in residual {
      assert r in BundleResidual(b) <==> ReportedBy(b, r);
    }
    assert residual != [] ==> residual[0] in BundleResidual(b);
    assert BundleResidual(b) != [] ==> BundleResidual(b)[0] in residual;
  }

  lemma FailedProbeRemains(b: Bundle, c: Content)
    requires VerifiedOn(b, c) && !AllPass(b.plan, c) && b.execution.Some?
    ensures VerdictOf(b) == ResidualLeft
  {
    ReportFacts(b.plan, c);
  }

  /** The verdict, exactly, for any outcomes and any residual list.  It says
      "contained" when and only when execution reports no failure and nothing
      residual, every probe passed and nothing escalated; "escalated" when and only
      when every probe passed and all that execution reports is escalations. */
  lemma VerdictIsExact(b: Bundle, c: Content)
    requires VerifiedOn(b, c) && b.execution.Some?
    ensures var e := b.execution.value;
            && (VerdictOf(b) == Contained <==>
                  e.residual == [] && !AnyFailed(e.outcomes) && AllPass(b.plan, c) && NothingEscalated(b.plan))
            && (VerdictOf(b) == EscalatedOnly <==>
                  e.residual != [] && AllPass(b.plan, c) && forall r | r in e.residual :: r.reason == Escalated)
            && VerdictOf(b) != NotStarted
  {
    ReportFacts(b.plan, c);
    if AllPass(b.plan, c) {
      PassedLeavesExecution(b, c);
    } else {
      FailedProbeRemains(b, c);
    }
  }

  /** For a report of its own outcomes, finished or not: "residual" if a step stopped
      short or a probe failed, and otherwise "escalated" or "contained" according to
      whether anything escalated.  A step still in progress, or without an outcome,
      does not count against it. */
  lemma ReportVerdict(b: Bundle, c: Content)
    requires VerifiedOn(b, c) && ReportsOwnResidual(b)
    ensures VerdictOf(b) == if !(NoneStopped(b.execution.value.outcomes) && AllPass(b.plan, c)) then ResidualLeft
                            else if NothingEscalated(b.plan) then Contained else EscalatedOnly
  {
    var outcomes := b.execution.value.outcomes;
    VerdictIsExact(b, c);
    ResidualAccounts(b.plan, outcomes);
    if NoneStopped(outcomes) {
      OnlyEscalationsRemain(b.plan, outcomes);
    } else {
      var k :| 0 <= k < |outcomes| && !(outcomes[k].Succeeded() || outcomes[k].status.InProgress?);
      StepEntry(b.plan, outcomes, k);
    }
  }

  lemma OnlyEscalationsRemain(plan: ImpactPlan, outcomes: seq<Outcome>)
    requires NoneStopped(outcomes)
    ensures forall r | r in ResidualOf(plan, outcomes) :: r.reason == Escalated
    ensures ResidualOf(plan, outcomes) == [] <==> NothingEscalated(plan)
    ensures !AnyFailed(outcomes)
  {
    forall r | r in ResidualOf(plan, outcomes) ensures r.reason == Escalated {
      ResidualMembers(plan, outcomes, r);
      forall o | o in outcomes ensures !Exposes(o, r) {
        var k :| 0 <= k < |outcomes| && outcomes[k] == o;
      }
    }
    ResidualAccounts(plan, outcomes);
  }

  /** A step reported as stopped short has an entry of its own. */
  lemma StepEntry(plan: ImpactPlan, outcomes: seq<Outcome>, k: nat)
    requires k < |outcomes| && ReasonFor(outcomes[k].status).Some?
    ensures exists r | r in ResidualOf(plan, outcomes) :: r.reason != Escalated
  {
    var o := outcomes[k];
    var r := Residual(o.step.urn, ReasonFor(o.status).value, Some(o.step.action));
    ResidualMembers(plan, outcomes, r);
    assert o in outcomes && Exposes(o, r);
  }

  /** "Contained" is never said over an escalation, an unprobed or failing decision,
      or a residual entry, whatever execution reports. */
  lemma ContainedIsSound(b: Bundle, c: Content)
    requires VerifiedOn(b, c) && VerdictOf(b) == Contained
    ensures BundleResidual(b) == []
    ensures NothingEscalated(b.plan)
    ensures forall d | d in b.plan.decisions && d.IsDestructive() ::
              exists p | p in VerifyPlan(b.plan, c).probes :: p.urn == d.urn && p.containment && p.passed
  {
    VerdictIsExact(b, c);
    EveryDecisionIsProbed(b.plan, c);
    forall d | d in b.plan.decisions && d.IsDestructive()
      ensures exists p | p in VerifyPlan(b.plan, c).probes :: p.urn == d.urn && p.containment && p.passed
    {
      var p :| p in VerifyPlan(b.plan, c).probes && p.urn == d.urn && p.containment;
    }
  }

  // --- what the bundle lists as contained -------------------------------------------

  function ConfirmedUrns(probes: seq<Probe>): seq<Urn> {
    Map((p: Probe) => p.urn, Filter((p: Probe) => p.containment && p.passed, probes))
  }

  function ContainedUrns(b: Bundle): seq<Urn> {
    if b.verification.None? then [] else Sort(ConfirmedUrns(b.verification.value.probes), UrnOrder())
  }

  ghost predicate Confirmed(plan: ImpactPlan, c: Content, urn: Urn) {
    && (exists d | d in plan.decisions :: d.urn == urn && d.IsDestructive() && !d.IsEscalation())
    && ResolveArtifact(urn).Some? && ContainmentPasses(c, ResolveArtifact(urn).value)
  }

  lemma ConfirmedMembers(probes: seq<Probe>, urn: Urn)
    ensures urn in ConfirmedUrns(probes) <==> Probe(urn, true, true) in probes
  {
    var confirmed := Filter((p: Probe) => p.containment && p.passed, probes);
    if urn in ConfirmedUrns(probes) {
      var k :| 0 <= k < |confirmed| && ConfirmedUrns(probes)[k] == urn;
      assert confirmed[k] in confirmed;
    }
    if Probe(urn, true, true) in probes {
      var k :| 0 <= k < |confirmed| && confirmed[k] == Probe(urn, true, true);
      assert ConfirmedUrns(probes)[k] == urn;
    }
  }

  lemma PassingProbeIsConfirmed(plan: ImpactPlan, c: Content, urn: Urn)
    ensures Probe(urn, true, true) in VerifyPlan(plan, c).probes <==> Confirmed(plan, c, urn)
  {
    var p := Probe(urn, true, true);
    ReportMembers(plan, c, p);
    if d :| d in plan.decisions && p in ProbeOf(d, c) {
      assert d.urn == urn && d.IsDestructive() && !d.IsEscalation();
    }
    if Confirmed(plan, c, urn) {
      var d :| d in plan.decisions && d.urn == urn && d.IsDestructive() && !d.IsEscalation();
      assert ProbeOf(d, c) == [p];
    }
  }

  /** A URN is listed exactly when a decision to contain it was probed and the
      probe of its record passed. */
  lemma ListedIsConfirmed(b: Bundle, c: Content, urn: Urn)
    requires VerifiedOn(b, c)
    ensures urn in ContainedUrns(b) <==> Confirmed(b.plan, c, urn)
  {
    var probes := VerifyPlan(b.plan, c).probes;
    SortPermutes(ConfirmedUrns(probes), UrnOrder());
    ConfirmedMembers(probes, urn);
    PassingProbeIsConfirmed(b.plan, c, urn);
  }

  lemma ListedInOrder(b: Bundle, i: nat, j: nat)
    requires i < j < |ContainedUrns(b)|
    ensures UrnOrder()(ContainedUrns(b)[i], ContainedUrns(b)[j])
  {
    UrnOrderIsTotal();
    SortSorts(ConfirmedUrns(b.verification.value.probes), UrnOrder());
  }

  /** The same read off the estate: listed are exactly the local artifacts that the plan
      set out to contain, did not escalate, and that are contained. */
  lemma ListedIsContained(b: Bundle, c: Content, urn: Urn)
    requires VerifiedOn(b, c)
    ensures urn in ContainedUrns(b) <==>
              && (exists d | d in b.plan.decisions :: d.urn == urn && Destroys(d) && Escalate !in d.actions)
              && urn.Local? && IsContained(c, urn.artifact)
  {
    ListedIsConfirmed(b, c, urn);
    forall d | d in b.plan.decisions
      ensures (d.IsDestructive() && !d.IsEscalation()) <==> (Destroys(d) && Escalate !in d.actions)
    {
      DestroysIsDestructive(d);
    }
    if urn.Local? { PassesExactly(c, urn.artifact); }
  }

  // --- the bundle of a stored run -----------------------------------------------------

  /** The bundle built from what is stored in `x`: the report read back from the
      journal, and the probes of the estate as it is. */
  function StoredBundle(plan: ImpactPlan, x: World): Bundle {
    var outcomes := LoadOutcomes(plan, x, 0);
    Bundle(plan, Some(ExecutionReport(outcomes, ResidualOf(plan, outcomes))), Some(VerifyPlan(plan, x.disk.content)))
  }

  /** The verdict on any stored run, returned or interrupted. */
  lemma StoredVerdict(plan: ImpactPlan, x: World)
    ensures VerdictOf(StoredBundle(plan, x)) ==
              if !(NoRowStopped(PlanSteps(plan), x) && AllPass(plan, x.disk.content)) then ResidualLeft
              else if NothingEscalated(plan) then Contained else EscalatedOnly
  {
    ReportVerdict(StoredBundle(plan, x), x.disk.content);
    ReloadsAsExecuted(plan, x);
  }

  /** "Contained" on a stored run means that every planned step was completed exactly
      when each has a row and none is in progress; an interrupted run can be called
      contained with steps it never came to. */
  lemma ContainedMeansCompleted(plan: ImpactPlan, x: World)
    requires VerdictOf(StoredBundle(plan, x)) == Contained
    ensures AllDone(PlanSteps(plan), x) <==> HasEveryRow(PlanSteps(plan), x) && NoneUnderWay(PlanSteps(plan), x)
  {
    StoredVerdict(plan, x);
    if HasEveryRow(PlanSteps(plan), x) && NoneUnderWay(PlanSteps(plan), x) {
      forall s: nat | s < |PlanSteps(plan)| ensures IsDone(x, s) {
        assert s in x.rows;
      }
    } else if AllDone(PlanSteps(plan), x) {
      forall s: nat | s < |PlanSteps(plan)| ensures s in x.rows && !x.rows[s].status.InProgress? {
        assert IsDone(x, s);
      }
    }
  }

  // --- what the plan leaves alone -------------------------------------------------------

  predicate IsLeftAlone(d: Decision) { !d.IsDestructive() && !d.IsEscalation() }

  /** The estates on which the probe of a record left alone can pass at all. */
  lemma AvailabilityIsPossible(record: Record)
    ensures (exists c :: IsAvailable(c, record)) <==> record.ModelRecord? || record.TableRecord? || record.ReportRecord?
  {
    match record
    case ModelRecord(name) =>
      var d := VersionDir(Some(ModelFile([])), Some(TrainingManifest([], ApprovedFeedTable, [], ModelFile([]))));
      var c := Content(map[], None, None, None, map[name := ModelDir(Some(V1), map[V1 := d])], None, None, false, map[]);
      assert IsAvailable(c, record);
    case TableRecord(t) =>
      var c := Content(map[t := [Row("", Raw(""), 0, 0, NoFeed)]], None, None, None, map[], None, None, false, map[]);
      assert IsAvailable(c, record);
    case ReportRecord =>
      var c := Content(map[], Some([(0, 0)]), None, None, map[], None, None, false, map[]);
      assert IsAvailable(c, record);
    case _ =>
  }

  /** Leaving alone an endpoint, an index, an export or anything without a local
      record rules out every verdict but "residual", on every stored run. */
  lemma LeftAloneUnreadable(plan: ImpactPlan, x: World, d: Decision)
    requires d in plan.decisions && IsLeftAlone(d)
    requires ResolveArtifact(d.urn).None?
          || (NoAction in d.actions && forall c :: !IsAvailable(c, ResolveArtifact(d.urn).value))
    ensures VerdictOf(StoredBundle(plan, x)) == ResidualLeft
  {
    var p := Probe(d.urn, false, false);
    assert ResolveArtifact(d.urn).Some? ==> !IsAvailable(x.disk.content, ResolveArtifact(d.urn).value);
    assert ProbeOf(d, x.disk.content) == [p];
    ReportMembers(plan, x.disk.content, p);
    StoredVerdict(plan, x);
  }

  /** Whether every decision that leaves its artifact alone can be verified, once the
      plan is carried out on an estate built as `base`. */
  ghost predicate LeavesWorking(plan: ImpactPlan, base: Content, c: Content) {
    forall d | d in plan.decisions && IsLeftAlone(d) :: DecisionLeavesWorking(plan, base, c, d)
  }

  ghost predicate DecisionLeavesWorking(plan: ImpactPlan, base: Content, c: Content, d: Decision) {
    (ResolveArtifact(d.urn).Some? && NoAction !in d.actions) || LeftWorking(base, PlanSteps(plan), c, d.urn)
  }

  ghost predicate PrecisionVerified(plan: ImpactPlan, c: Content) {
    forall p | p in VerifyPlan(plan, c).probes && !p.containment :: p.passed
  }

  ghost predicate ProbesPass(d: Decision, c: Content) {
    forall p | p in ProbeOf(d, c) :: p.passed
  }

  /** A precision probe is that of a decision that leaves its artifact alone, or the
      approved model's own. */
  lemma PrecisionProbeOf(plan: ImpactPlan, c: Content, p: Probe)
    requires AvailableAt(c, APPROVED_MODEL) && p in VerifyPlan(plan, c).probes && !p.containment
    ensures p.passed || exists d | d in plan.decisions && IsLeftAlone(d) :: p in ProbeOf(d, c)
  {
    ReportMembers(plan, c, p);
    if d :| d in plan.decisions && p in ProbeOf(d, c) {
      assert IsLeftAlone(d);
    }
  }

  lemma LeftAloneIsPrecision(plan: ImpactPlan, c: Content, d: Decision, p: Probe)
    requires d in plan.decisions && IsLeftAlone(d) && p in ProbeOf(d, c)
    ensures p in VerifyPlan(plan, c).probes && !p.containment
  {
    ReportMembers(plan, c, p);
  }

  /** The precision probes read off the decisions. */
  lemma PrecisionFromDecisions(plan: ImpactPlan, c: Content)
    requires AvailableAt(c, APPROVED_MODEL)
    ensures PrecisionVerified(plan, c) <==> forall d | d in plan.decisions && IsLeftAlone(d) :: ProbesPass(d, c)
  {
    forall d, p | d in plan.decisions && IsLeftAlone(d) && p in ProbeOf(d, c)
      ensures p in VerifyPlan(plan, c).probes && !p.containment
    {
      LeftAloneIsPrecision(plan, c, d, p);
    }
    forall p | p in VerifyPlan(plan, c).probes && !p.containment
      ensures p.passed || exists d | d in plan.decisions && IsLeftAlone(d) :: p in ProbeOf(d, c)
    {
      PrecisionProbeOf(plan, c, p);
    }
  }

  lemma PrecisionExactly(base: Content, plan: ImpactPlan, x: World)
    requires ApprovedIsClean(base) && ServedAsBuilt(base) && Achieved(base, PlanSteps(plan), x) && AllDone(PlanSteps(plan), x)
    ensures PrecisionVerified(plan, x.disk.content) <==> LeavesWorking(plan, base, x.disk.content)
  {
    var c := x.disk.content;
    LeftWorkingExactly(base, PlanSteps(plan), x, APPROVED_MODEL);
    PrecisionFromDecisions(plan, c);
    forall d | d in plan.decisions && IsLeftAlone(d)
      ensures ProbesPass(d, c) <==> DecisionLeavesWorking(plan, base, c, d)
    {
      LeftWorkingExactly(base, PlanSteps(plan), x, d.urn);
      LeftAloneProbe(d, c);
    }
  }

  lemma LeftAloneProbe(d: Decision, c: Content)
    requires IsLeftAlone(d)
    ensures ProbesPass(d, c) <==> (ResolveArtifact(d.urn).Some? && NoAction !in d.actions) || AvailableAt(c, d.urn)
  {
    if ProbeOf(d, c) != [] {
      assert ProbeOf(d, c)[0] in ProbeOf(d, c);
    }
  }

  /** With one decision for each URN, a table left alone is not purged by the plan:
      whether it can be verified is then a matter of the plan and the estate as built. */
  lemma LeftAloneIsNotPurged(plan: ImpactPlan, d: Decision, t: Table)
    requires UniqueUrns(plan.decisions) && d in plan.decisions && IsLeftAlone(d)
    requires ResolveArtifact(d.urn) == Some(TableRecord(t))
    ensures !PurgesTable(PlanSteps(plan), t)
  {
    var steps := PlanSteps(plan);
    forall s: nat | s < |steps| ensures !IsPurgeOf(steps[s].urn, steps[s].action, t) {
      StepComesFromDecision(plan, s);
      var e :| e in plan.decisions && StepOfDecision(steps[s], e);
      assert e.IsDestructive();
      if e.urn == d.urn { SameUrnSameDecision(plan.decisions, d, e); }
    }
  }

  lemma SameUrnSameDecision(decisions: seq<Decision>, d: Decision, e: Decision)
    requires UniqueUrns(decisions) && d in decisions && e in decisions && d.urn == e.urn
    ensures d == e
  {
    var i :| 0 <= i < |decisions| && decisions[i] == d;
    var j :| 0 <= j < |decisions| && decisions[j] == e;
  }

  /** So the condition can be read before the run: it is one on the plan and on the
      estate as built, whatever estate the run leaves. */
  lemma LeavesWorkingIsKnownBefore(plan: ImpactPlan, base: Content, c: Content, other: Content)
    requires UniqueUrns(plan.decisions)
    ensures LeavesWorking(plan, base, c) <==> LeavesWorking(plan, base, other)
  {
    forall d | d in plan.decisions && IsLeftAlone(d)
      ensures DecisionLeavesWorking(plan, base, c, d) <==> DecisionLeavesWorking(plan, base, other, d)
    {
      match ResolveArtifact(d.urn)
      case Some(TableRecord(t)) => LeftAloneIsNotPurged(plan, d, t);
      case _ =>
    }
  }

  // --- end to end -------------------------------------------------------------------

  /** From an estate as built, over every history of attempts, failures, crashes and
      resumes: once every step is completed, the verdict on what is stored is
      "contained", or "escalated" if the plan escalates something, exactly when the
      plan replaces the revoked model if it contains it, and everything it leaves
      alone can be verified; otherwise it is "residual". */
  lemma CompletedRunVerdict(base: Content, plan: ImpactPlan, w: World, events: seq<HistoryEvent>, x: World)
    requires IsBuilt(base) && IsFresh(w) && w.disk.content == base
    requires Undisturbed(events) && x in History(w, events)
    requires x.run.Some? && x.run.value.planHash == HashOf(plan) && AllDone(PlanSteps(plan), x)
    ensures VerdictOf(StoredBundle(plan, x)) ==
              if !(RevokedModelReplaced(plan) && LeavesWorking(plan, base, x.disk.content)) then ResidualLeft
              else if NothingEscalated(plan) then Contained else EscalatedOnly
  {
    var c := x.disk.content;
    BuiltFacts(base);
    HistoryIsAchieved(base, plan, w, events, x);
    StoredVerdict(plan, x);
    CompletedImpliesVerified(base, plan, w, events, x);
    PrecisionExactly(base, plan, x);
    assert AllPass(plan, c) <==> ContainmentVerified(plan, c) && PrecisionVerified(plan, c);
  }

  /** With one decision per URN, as the planner makes them, that verdict can be told
      from the plan and the estate as built, before anything has run. */
  lemma VerdictIsKnownBefore(base: Content, plan: ImpactPlan, w: World, events: seq<HistoryEvent>, x: World)
    requires IsBuilt(base) && IsFresh(w) && w.disk.content == base && UniqueUrns(plan.decisions)
    requires Undisturbed(events) && x in History(w, events)
    requires x.run.Some? && x.run.value.planHash == HashOf(plan) && AllDone(PlanSteps(plan), x)
    ensures VerdictOf(StoredBundle(plan, x)) ==
              if !(RevokedModelReplaced(plan) && LeavesWorking(plan, base, base)) then ResidualLeft
              else if NothingEscalated(plan) then Contained else EscalatedOnly
  {
    CompletedRunVerdict(base, plan, w, events, x);
    LeavesWorkingIsKnownBefore(plan, base, x.disk.content, base);
  }
}
