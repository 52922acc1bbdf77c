/** Runs that show the failing side of the exact conditions: an interruption that
    cannot be resumed, a completed run that does not verify, and stored runs whose
    report or verdict says more than was done.  Each starts from an unused run id, with
    an approved plan. */
module Exhibits {
  import opened Ordering
  import opened Rights
  import opened Plan
  import opened Approvals
  import opened Estate
  import opened Execution
  import opened JournalSafety
  import opened JournalState
  import opened ResumeAdmission
  import opened CrashConvergence
  import opened Reports
  import opened Provenance
  import opened Verification
  import opened Containment
  import Evidence

  // --- approved requests ------------------------------------------------------------

  function Decide(urn: Urn, artifactClass: ArtifactClass, actions: seq<Action>): Decision {
    Decision(urn, artifactClass, actions, ["R"], "", [], 0, [], true)
  }

  function PlanOf(decisions: seq<Decision>): ImpactPlan {
    ImpactPlan(Event("event", 1, "contents"), decisions, [], 0, "policy", "replacement", "context")
  }

  /** The plan's whole scope, approved; its only recorded decision. */
  function ApprovalOf(plan: ImpactPlan): Approval {
    Approval(1, HashOf(plan), plan.event.id, plan.event.contentHash, Approved, "operator", "", EnforcementScope(plan), 0)
  }

  function StoreOf(plan: ImpactPlan): Tables {
    Tables([ApprovalOf(plan)], map[HashOf(plan) := plan], map[(plan.event.id, plan.event.version) := plan.event.contentHash])
  }

  function ApprovedRequest(plan: ImpactPlan, perform: (Content, Urn, Action) -> Effect, faults: map<nat, nat>): Request {
    Request(plan, ApprovalOf(plan), StoreOf(plan), perform, NoLedger, faults)
  }

  lemma ApprovedPasses(plan: ImpactPlan, perform: (Content, Urn, Action) -> Effect, faults: map<nat, nat>)
    ensures GateRefusal(ApprovedRequest(plan, perform, faults)).None?
  {
    var rows := [ApprovalOf(plan)];
    assert rows[..0] == [];
    assert Latest(rows, HashOf(plan)) == Some(ApprovalOf(plan));
  }

  // --- the first two steps of a first attempt -----------------------------------------

  /** What the first step of a fresh attempt leaves. */
  function AfterFirst(req: Request, w: World): World
    requires PlanSteps(req.plan) != []
  {
    var begun, step := Started(req, w), PlanSteps(req.plan)[0];
    LastWorld(begun, Perform(req, begun, step, CallEffect(req, begun.disk.content, step)).trace)
  }

  ghost predicate StartsOn(req: Request, w: World) {
    && IsFresh(w) && GateRefusal(req).None? && PlanSteps(req.plan) != []
    && Covers(req.approval.scope, PlanSteps(req.plan)[0].urn, PlanSteps(req.plan)[0].action)
  }

  lemma FirstStepHappens(req: Request, w: World)
    requires StartsOn(req, w)
    ensures Intended(Started(req, w), PlanSteps(req.plan)[0]) in Run(req, w).trace
    ensures AfterFirst(req, w) in Run(req, w).trace
  {
    var begun, steps := Started(req, w), PlanSteps(req.plan);
    assert DoneRows(begun) == map[] && Pending(begun) == {};
    var s := Perform(req, begun, steps[0], CallEffect(req, begun.disk.content, steps[0]));
    assert s == StepAt(req, steps, begun, DoneRows(begun), 0, []);
    assert s.trace[0] == Intended(begun, steps[0]);
    assert s.trace[|s.trace| - 1] == AfterFirst(req, w);
    RunIsLoop(req, w);
    LoopStartsWith(req, steps, begun, s);
  }

  lemma LoopStartsWith(req: Request, steps: seq<Step>, begun: World, s: StepRun)
    requires steps != [] && DoneRows(begun) == map[] && s == StepAt(req, steps, begun, DoneRows(begun), 0, [])
    ensures s.trace <= Loop(req, steps, begun, DoneRows(begun), 0, []).trace
  {
  }

  lemma FirstStepRow(req: Request, w: World)
    requires StartsOn(req, w)
    ensures var x, step := AfterFirst(req, w), PlanSteps(req.plan)[0];
            var e := CallEffect(req, w.disk.content, step);
            && x.rows == map[0 := JournalRow(step.urn, step.action, StatusOf(e.status), e.changed)]
            && x.disk.content == Last(w.disk.content, e.after)
            && x.run.Some? && x.run.value.planHash == HashOf(req.plan)
  {
    PlanIsNumbered(req.plan);
    var begun, step := Started(req, w), PlanSteps(req.plan)[0];
    var e := CallEffect(req, begun.disk.content, step);
    var called := Called(Intended(begun, step), step);
    var writes := EstateWrites(called, e.after);
    EstateWritesKeep(called, e.after);
    EstateWritesContents(called, e.after);
    var o := Outcome(step, StatusOf(e.status), e.changed, false);
    var written := LastWorld(called, writes);
    var tail := Conclude(req, written, o);
    assert AfterFirst(req, w) == tail[|tail| - 1];
    ConcludeStates(req, written, o, tail[|tail| - 1]);
    assert called.rows == map[0 := JournalRow(step.urn, step.action, InProgress, false)];
  }

  /** A second step that depends on nothing begins, whatever became of the first. */
  lemma SecondStepBegins(req: Request, w: World)
    requires StartsOn(req, w) && |PlanSteps(req.plan)| >= 2 && !IsDependent(PlanSteps(req.plan)[1].action)
    ensures Intended(AfterFirst(req, w), PlanSteps(req.plan)[1]) in Run(req, w).trace
  {
    var begun, steps := Started(req, w), PlanSteps(req.plan);
    assert DoneRows(begun) == map[] && Pending(begun) == {};
    var s := Perform(req, begun, steps[0], CallEffect(req, begun.disk.content, steps[0]));
    assert s == StepAt(req, steps, begun, DoneRows(begun), 0, []);
    var v := LastWorld(begun, s.trace);
    var t := StepAt(req, steps, v, DoneRows(begun), 1, [s.outcome]);
    SecondIntent(req, v, steps[1], [s.outcome], t);
    RunIsLoop(req, w);
    LoopGoesOn(req, steps, begun, s, t);
  }

  lemma SecondIntent(req: Request, v: World, step: Step, outcomes: seq<Outcome>, t: StepRun)
    requires !IsDependent(step.action) && t == RunStep(req, v, step, outcomes)
    ensures Intended(v, step) in t.trace
  {
    assert t.trace[0] == Intended(v, step);
  }

  lemma LoopGoesOn(req: Request, steps: seq<Step>, begun: World, s: StepRun, t: StepRun)
    requires |steps| >= 2 && DoneRows(begun) == map[] && s == StepAt(req, steps, begun, DoneRows(begun), 0, [])
    requires t == StepAt(req, steps, LastWorld(begun, s.trace), DoneRows(begun), 1, [s.outcome])
    ensures forall x | x in t.trace :: x in Loop(req, steps, begun, DoneRows(begun), 0, []).trace
  {
    assert [] + [s.outcome] == [s.outcome];
    var v := LastWorld(begun, s.trace);
    assert Loop(req, steps, v, DoneRows(begun), 1, [s.outcome]).trace
        == t.trace + Loop(req, steps, LastWorld(v, t.trace), DoneRows(begun), 2, [s.outcome] + [t.outcome]).trace;
  }

  // --- an interruption that cannot be resumed -----------------------------------------

  const TWO_SURFACES := PlanOf([Decide(PREDICT_API, ApiClass, [Freeze]), Decide(Local(ReviewsExtract), ExportClass, [Quarantine])])

  /** The only steps of that plan, in one order or the other; neither waits for the other. */
  lemma TwoSurfaceSteps()
    ensures var steps := PlanSteps(TWO_SURFACES);
            && |steps| >= 2 && !IsDependent(steps[1].action)
            && Covers(EnforcementScope(TWO_SURFACES), steps[0].urn, steps[0].action)
            && Covers(EnforcementScope(TWO_SURFACES), steps[1].urn, steps[1].action)
  {
    var steps, ds := PlanSteps(TWO_SURFACES), TWO_SURFACES.decisions;
    assert UniqueUrns(ds);
    ScopeIsTheSteps(TWO_SURFACES);
    assert ds[0] in ds && ds[1] in ds;
    DecisionBecomesStep(TWO_SURFACES, ds[0], Freeze);
    DecisionBecomesStep(TWO_SURFACES, ds[1], Quarantine);
    var i :| 0 <= i < |steps| && steps[i].action == Freeze;
    var j :| 0 <= j < |steps| && steps[j].action == Quarantine;
    StepComesFromDecision(TWO_SURFACES, 1);
    assert steps[0] in steps && steps[1] in steps;
  }

  /** The first step fails and the process dies inside the second: a state the next
      attempt is admitted from. */
  lemma FailedThenInterrupted(req: Request, w: World) returns (x: World)
    requires StartsOn(req, w) && |PlanSteps(req.plan)| >= 2 && !IsDependent(PlanSteps(req.plan)[1].action)
    requires 0 in req.faults
    ensures x in Run(req, w).trace && HasEarlierUnfinished(x) && IsAdmitted(req, x) && OwnRun(req, x)
  {
    x := Intended(AfterFirst(req, w), PlanSteps(req.plan)[1]);
    SecondStepBegins(req, w);
    FirstStepRow(req, w);
    PlanIsNumbered(req.plan);
    assert 1 in Pending(x) && !IsDone(x, 0);
    FirstInterruptionResumes(req, req, w, x);
    RunStaysOwn(req, w);
  }

  /** From an unused run id: a failed first step, a crash inside the second, a resume
      that is admitted, a crash in its retry of the first, and no further resume. */
  lemma ResumeCanBeLost(perform: (Content, Urn, Action) -> Effect, w: World) returns (req: Request, x: World, y: World)
    requires IsFresh(w)
    ensures req == ApprovedRequest(TWO_SURFACES, perform, map[0 := 0])
    ensures x in Run(req, w).trace && IsAdmitted(req, x) && HasEarlierUnfinished(x)
    ensures y in Run(req, x).trace && !IsAdmitted(req, y)
  {
    req := ApprovedRequest(TWO_SURFACES, perform, map[0 := 0]);
    ApprovedPasses(TWO_SURFACES, perform, map[0 := 0]);
    TwoSurfaceSteps();
    x := FailedThenInterrupted(req, w);
    y := EarlierUnfinishedBlocksResume(req, x);
  }

  // --- a completed run that does not verify ------------------------------------------

  const RETRAIN_ONLY := PlanOf([Decide(Local(SentimentModel), ModelClass, [Retrain])])

  /** An estate as built with an approved feed that a classifier can be trained on. */
  ghost predicate IsStocked(base: Content) {
    IsBuilt(base) && ApprovedFeedTable in base.tables && IsTrainable(base.tables[ApprovedFeedTable])
  }

  lemma SomeEstateIsStocked() returns (base: Content)
    ensures IsStocked(base)
  {
    var good, bad := Row("A-1", Raw("good"), 1, 5, NoFeed), Row("A-2", Raw("bad"), 0, 1, NoFeed);
    var rows := [good, bad];
    assert "A-1"[0] != PARTNER_PREFIX[0] && "A-2"[0] != PARTNER_PREFIX[0];
    assert CleanInputs(rows);
    assert good in rows && bad in rows;
    base := Built([], rows, [(1, 1)]);
  }

  const LOCAL := Context((u: Urn) => true, Some(REPLACEMENT_SOURCE))

  /** A plan of one decision with one action has that one step, in scope. */
  lemma SingleStep(urn: Urn, artifactClass: ArtifactClass, a: Action)
    requires Rights.IsDestructive(a)
    ensures var plan := PlanOf([Decide(urn, artifactClass, [a])]);
            && PlanSteps(plan) == [Step(0, urn, a, artifactClass)]
            && Covers(EnforcementScope(plan), urn, a)
  {
    var d := Decide(urn, artifactClass, [a]);
    var plan := PlanOf([d]);
    var c := Candidate(ExecutionStage(a, artifactClass), urn, a, artifactClass);
    assert [a][1..] == [] && [d][1..] == [] && d.actions == [a];
    assert ActionCandidates(d, [a]) == [c];
    assert Candidates([d]) == ActionCandidates(d, d.actions) + Candidates([]);
    assert [c][1..] == [];
    assert Sort([c], CandidateOrder()) == [c];
    assert UniqueUrns(plan.decisions) && d in plan.decisions;
    ScopeIsTheSteps(plan);
    assert PlanSteps(plan)[0] in PlanSteps(plan);
  }

  /** A first attempt that nothing stops, as the history it is. */
  lemma AttemptIsHistory(req: Request, w: World, x: World) returns (events: seq<HistoryEvent>)
    requires x in Run(req, w).trace
    ensures x in History(w, events) && forall e | e in events :: e.Attempted? && e.req == req
  {
    var trace := Run(req, w).trace;
    var e := Attempted(req, |trace|);
    events := [e];
    assert Happens(w, e) == trace && events[1..] == [];
    assert History(w, events) == trace + History(LastWorld(w, trace), []);
  }

  lemma RetrainSucceeds(base: Content)
    requires IsStocked(base)
    ensures Execute(LOCAL, base, Local(SentimentModel), Retrain).status.Succeeded?
  {
  }

  /** A request for this estate, started from `base` as built. */
  ghost predicate StartsLocally(base: Content, req: Request, w: World) {
    && StartsOn(req, w) && IsBuilt(base) && w.disk.content == base
    && req.perform == DefaultRegistry(LOCAL) && req.faults == map[]
  }

  lemma FirstCallIsLocal(base: Content, req: Request, w: World)
    requires StartsLocally(base, req, w)
    ensures var step := PlanSteps(req.plan)[0];
            CallEffect(req, base, step) == Execute(LOCAL, base, step.urn, step.action)
  {
  }

  /** A plan whose only step retrains the revoked model completes and does not verify. */
  lemma OnlyRetrained(base: Content, req: Request, w: World)
    requires StartsLocally(base, req, w) && IsStocked(base) && !RevokedModelReplaced(req.plan)
    requires |PlanSteps(req.plan)| == 1
    requires PlanSteps(req.plan)[0].urn == Local(SentimentModel) && PlanSteps(req.plan)[0].action.Retrain?
    ensures var x := AfterFirst(req, w);
            && x in Run(req, w).trace && AllDone(PlanSteps(req.plan), x)
            && !ContainmentVerified(req.plan, x.disk.content)
  {
    FirstStepHappens(req, w);
    FirstCallIsLocal(base, req, w);
    RetrainSucceeds(base);
    FirstStepDone(req, w);
    var events := AttemptIsHistory(req, w, AfterFirst(req, w));
    OwnEventsAreUndisturbed(req, events);
    OneStepAllDone(PlanSteps(req.plan), AfterFirst(req, w));
    DoneButUnverified(base, req.plan, w, events, AfterFirst(req, w));
  }

  /** A first call that succeeds is on record as completed. */
  lemma FirstStepDone(req: Request, w: World)
    requires StartsOn(req, w) && CallEffect(req, w.disk.content, PlanSteps(req.plan)[0]).status.Succeeded?
    ensures var x := AfterFirst(req, w);
            && x.rows.Keys == {0} && IsDone(x, 0)
            && x.disk.content == Last(w.disk.content, CallEffect(req, w.disk.content, PlanSteps(req.plan)[0]).after)
            && x.run.Some? && x.run.value.planHash == HashOf(req.plan)
  {
    FirstStepRow(req, w);
  }

  lemma OwnEventsAreUndisturbed(req: Request, events: seq<HistoryEvent>)
    requires req.perform == DefaultRegistry(LOCAL) && forall e | e in events :: e.Attempted? && e.req == req
    ensures Undisturbed(events)
  {
    assert LocalRegistry(req, LOCAL);
  }

  lemma OneStepAllDone(steps: seq<Step>, x: World)
    requires |steps| == 1 && IsDone(x, 0)
    ensures AllDone(steps, x)
  {
  }

  lemma DoneButUnverified(base: Content, plan: ImpactPlan, w: World, events: seq<HistoryEvent>, x: World)
    requires IsBuilt(base) && IsFresh(w) && w.disk.content == base && Undisturbed(events) && x in History(w, events)
    requires !RevokedModelReplaced(plan) && AllDone(PlanSteps(plan), x)
    requires x.run.Some? && x.run.value.planHash == HashOf(plan)
    ensures !ContainmentVerified(plan, x.disk.content)
  {
    CompletedImpliesVerified(base, plan, w, events, x);
  }

  lemma NothingReplaced()
    ensures !RevokedModelReplaced(RETRAIN_ONLY)
  {
    var d := RETRAIN_ONLY.decisions[0];
    assert d in RETRAIN_ONLY.decisions && d.actions[0] == Retrain;
    assert Retrain in d.actions && d.IsDestructive() && !d.IsEscalation();
  }

  lemma RetrainOnlyStep()
    ensures |PlanSteps(RETRAIN_ONLY)| == 1
    ensures var step := PlanSteps(RETRAIN_ONLY)[0];
            && step.urn == Local(SentimentModel) && step.action.Retrain?
            && Covers(EnforcementScope(RETRAIN_ONLY), step.urn, step.action)
  {
    SingleStep(Local(SentimentModel), ModelClass, Retrain);
  }

  lemma StartsWithStep(base: Content, plan: ImpactPlan, w: World, urn: Urn, a: Action)
    requires IsBuilt(base) && IsFresh(w) && w.disk.content == base && PlanSteps(plan) != []
    requires PlanSteps(plan)[0].urn == urn && PlanSteps(plan)[0].action == a && Covers(EnforcementScope(plan), urn, a)
    ensures StartsLocally(base, ApprovedRequest(plan, DefaultRegistry(LOCAL), map[]), w)
  {
    ApprovedPasses(plan, DefaultRegistry(LOCAL), map[]);
  }

  ghost predicate RetrainsOnly(plan: ImpactPlan) {
    && |PlanSteps(plan)| == 1 && PlanSteps(plan)[0].urn == Local(SentimentModel) && PlanSteps(plan)[0].action.Retrain?
    && Covers(EnforcementScope(plan), Local(SentimentModel), Retrain) && !RevokedModelReplaced(plan)
  }

  lemma RetrainOnlyRetrains()
    ensures RetrainsOnly(RETRAIN_ONLY)
  {
    RetrainOnlyStep();
    NothingReplaced();
  }

  /** On any estate as built, under any plan that retrains the revoked model and leaves
      it served as it was: every step completes and a containment probe fails. */
  lemma RetrainOnlyFails(base: Content, plan: ImpactPlan, w: World) returns (req: Request, x: World)
    requires RetrainsOnly(plan) && IsStocked(base) && IsFresh(w) && w.disk.content == base
    ensures req == ApprovedRequest(plan, DefaultRegistry(LOCAL), map[])
    ensures x in Run(req, w).trace && AllDone(PlanSteps(plan), x) && !ContainmentVerified(plan, x.disk.content)
  {
    req := ApprovedRequest(plan, DefaultRegistry(LOCAL), map[]);
    x := AfterFirst(req, w);
    StartsWithStep(base, plan, w, Local(SentimentModel), Retrain);
    OnlyRetrained(base, req, w);
  }

  // --- a stored run that says more than was done ------------------------------------------

  /** Of any plan with a step and nothing escalated: a run cut off inside its first
      step reloads as fully executed. */
  lemma InterruptedReloadsAsExecuted(req: Request, w: World)
    requires StartsOn(req, w) && NothingEscalated(req.plan)
    ensures var x := Intended(Started(req, w), PlanSteps(req.plan)[0]);
            var outcomes := LoadOutcomes(req.plan, x, 0);
            && x in Run(req, w).trace && !IsDone(x, 0)
            && FullyExecuted(outcomes, ResidualOf(req.plan, outcomes))
  {
    var steps := PlanSteps(req.plan);
    var x := Intended(Started(req, w), steps[0]);
    FirstStepHappens(req, w);
    PlanIsNumbered(req.plan);
    assert x.rows.Keys == {0} && x.rows[0].status.InProgress?;
    ReloadsAsExecuted(req.plan, x);
  }

  // --- a receipt that outlives the failure it tells of ----------------------------------

  lemma OneStepLoop(req: Request, steps: seq<Step>, w: World)
    requires |steps| == 1
    ensures var s, a := RunStep(req, w, steps[0], []), Loop(req, steps, w, map[], 0, []);
            a.result == Returned([s.outcome]) && LastWorld(w, a.trace) == Finished(LastWorld(w, s.trace)) && a.trace != []
  {
    var s := StepAt(req, steps, w, map[], 0, []);
    assert [] + [s.outcome] == [s.outcome];
    assert Loop(req, steps, LastWorld(w, s.trace), map[], 1, [s.outcome]).trace == [Finished(LastWorld(w, s.trace))];
  }

  /** A first step whose call raises at once: the attempt returns, reporting the failure. */
  lemma FirstStepFails(req: Request, w: World) returns (x: World)
    requires StartsOn(req, w) && |PlanSteps(req.plan)| == 1 && req.faults == map[0 := 0]
    requires req.perform(w.disk.content, PlanSteps(req.plan)[0].urn, PlanSteps(req.plan)[0].action).status.Succeeded?
    ensures x in Run(req, w).trace && x == LastWorld(w, Run(req, w).trace) && DoneRows(x) == map[]
    ensures Run(req, w).result.Returned? && |Run(req, w).result.outcomes| == 1 && Run(req, w).result.outcomes[0].status.Failed?
  {
    var begun, steps := Started(req, w), PlanSteps(req.plan);
    PlanIsNumbered(req.plan);
    assert DoneRows(begun) == map[] && Pending(begun) == {};
    OneStepLoop(req, steps, begun);
    RunIsLoop(req, w);
    x := LastWorld(w, Run(req, w).trace);
    FirstStepRow(req, w);
    assert x == Finished(AfterFirst(req, w));
    assert x.rows == map[0 := JournalRow(steps[0].urn, steps[0].action, Failed, false)];
  }

  /** The resume of that run, whose call does not raise. */
  lemma ThenCompletes(req: Request, x: World)
    requires IsAdmitted(req, x) && |PlanSteps(req.plan)| == 1 && x.run.Some? && DoneRows(x) == map[] && req.faults == map[]
    requires Covers(req.approval.scope, PlanSteps(req.plan)[0].urn, PlanSteps(req.plan)[0].action)
    requires req.perform(x.disk.content, PlanSteps(req.plan)[0].urn, PlanSteps(req.plan)[0].action).status.Succeeded?
    ensures Run(req, x).result.Returned? && |Run(req, x).result.outcomes| == 1 && Run(req, x).result.outcomes[0].Succeeded()
  {
    PlanIsNumbered(req.plan);
    OneStepLoop(req, PlanSteps(req.plan), x);
    RunIsLoop(req, x);
  }

  const FREEZE_ONLY := PlanOf([Decide(PREDICT_API, ApiClass, [Freeze])])

  lemma FreezeSucceeds(c: Content)
    ensures DefaultRegistry(LOCAL)(c, PREDICT_API, Freeze).status.Succeeded?
  {
  }

  /** With a ledger the step of a one-step plan fails, then a resume completes it: the
      report says completed, and the step's one receipt still says failed. */
  lemma ReceiptStaysFailed(w: World) returns (req: Request, again: Request, x: World)
    requires IsFresh(w)
    ensures req == ApprovedRequest(FREEZE_ONLY, DefaultRegistry(LOCAL), map[0 := 0]).(ledger := IntactLedger)
    ensures again == req.(faults := map[]) && Run(req, w).result.Returned? && x == LastWorld(w, Run(req, w).trace)
    ensures var a := Run(again, x);
            && a.result.Returned? && |a.result.outcomes| == |PlanSteps(FREEZE_ONLY)| == 1 && a.result.outcomes[0].Succeeded()
            && exists l :: LinesOf(LastWorld(x, a.trace).log, 0) == [l] && l.status.Failed?
  {
    req := ApprovedRequest(FREEZE_ONLY, DefaultRegistry(LOCAL), map[0 := 0]).(ledger := IntactLedger);
    again := req.(faults := map[]);
    ApprovedPasses(FREEZE_ONLY, DefaultRegistry(LOCAL), map[0 := 0]);
    SingleStep(PREDICT_API, ApiClass, Freeze);
    FreezeSucceeds(w.disk.content);
    x := FirstStepFails(req, w);
    FirstInterruptionResumes(req, again, w, x);
    FreezeSucceeds(x.disk.content);
    RunStarts(req, w);
    ThenCompletes(again, x);
    ReceiptOfFailure(req, again, w, x);
  }

  /** Every state of an admitted attempt is one of a run that was opened. */
  lemma RunStarts(req: Request, w: World)
    requires IsFresh(w)
    ensures forall x | x in Run(req, w).trace :: x.run.Some?
  {
    forall x | x in Run(req, w).trace ensures x.run.Some? { RunFixesPlan(req, w, x); }
  }

  lemma ReceiptOfFailure(req: Request, again: Request, w: World, x: World)
    requires IsFresh(w) && req.ledger.IntactLedger? && again.plan == req.plan
    requires Run(req, w).result.Returned? && x == LastWorld(w, Run(req, w).trace) && Run(again, x).result.Returned?
    requires |Run(req, w).result.outcomes| == 1 && Run(req, w).result.outcomes[0].status.Failed?
    ensures exists l :: LinesOf(LastWorld(x, Run(again, x).trace).log, 0) == [l] && l.status.Failed?
  {
    PlanIsNumbered(req.plan);
    ReceiptsAreExact(req, w);
    ReceiptsAreExact(again, x);
    var o := Run(req, w).result.outcomes[0];
    assert ReceiptIs(req, w.log, x.log, o) && LinesOf(x.log, 0) == [LineOf(o)];
    LinesOfMembers(x.log, 0);
    assert ReceiptIs(again, x.log, LastWorld(x, Run(again, x).trace).log, Run(again, x).result.outcomes[0]);
  }

  const PURGE_AND_REBUILD := PlanOf([Decide(Local(ReviewIndex), VectorIndexClass, [Purge, Rebuild])])

  lemma PurgeComesFirst() returns (r: nat)
    ensures 0 < r < |PlanSteps(PURGE_AND_REBUILD)|
    ensures var step := PlanSteps(PURGE_AND_REBUILD)[0];
            && step.urn == Local(ReviewIndex) && step.action.Purge?
            && Covers(EnforcementScope(PURGE_AND_REBUILD), step.urn, step.action)
  {
    var plan := PURGE_AND_REBUILD;
    var steps, d := PlanSteps(plan), plan.decisions[0];
    assert d in plan.decisions && d.actions[0] == Purge && d.actions[1] == Rebuild;
    DecisionBecomesStep(plan, d, Purge);
    DecisionBecomesStep(plan, d, Rebuild);
    var i: nat :| i < |steps| && StepOfDecision(steps[i], d) && steps[i].action == Purge;
    r :| r < |steps| && StepOfDecision(steps[r], d) && steps[r].action == Rebuild;
    StepComesFromDecision(plan, 0);
    if i > 0 { StepsAreStaged(plan, 0, i); }
    assert UniqueUrns(plan.decisions);
    ScopeIsTheSteps(plan);
    assert steps[0] in steps;
  }

  /** A plan that purges the index first and has more to do. */
  lemma OnlyPurged(base: Content, req: Request, w: World)
    requires StartsLocally(base, req, w) && NothingEscalated(req.plan) && |PlanSteps(req.plan)| > 1
    requires PlanSteps(req.plan)[0].urn == Local(ReviewIndex) && PlanSteps(req.plan)[0].action.Purge?
    requires Evidence.AllPass(req.plan, Last(base, PurgeIndexEffect(base).after))
    ensures var x := AfterFirst(req, w);
            && x in Run(req, w).trace && !AllDone(PlanSteps(req.plan), x)
            && Evidence.VerdictOf(Evidence.StoredBundle(req.plan, x)) == Evidence.Contained
  {
    FirstStepHappens(req, w);
    FirstCallIsLocal(base, req, w);
    PurgeIsLocal(base);
    FirstStepDone(req, w);
    OneRowIsContained(req.plan, AfterFirst(req, w));
  }

  lemma PurgeIsLocal(base: Content)
    ensures Execute(LOCAL, base, Local(ReviewIndex), Purge) == PurgeIndexEffect(base)
  {
  }

  lemma OneRowIsContained(plan: ImpactPlan, x: World)
    requires |PlanSteps(plan)| > 1 && x.rows.Keys == {0} && IsDone(x, 0)
    requires NothingEscalated(plan) && Evidence.AllPass(plan, x.disk.content)
    ensures !AllDone(PlanSteps(plan), x) && Evidence.VerdictOf(Evidence.StoredBundle(plan, x)) == Evidence.Contained
  {
    assert !IsDone(x, 1);
    Evidence.StoredVerdict(plan, x);
  }

  ghost predicate PurgesFirst(plan: ImpactPlan) {
    && |PlanSteps(plan)| > 1 && PlanSteps(plan)[0].urn == Local(ReviewIndex) && PlanSteps(plan)[0].action.Purge?
    && Covers(EnforcementScope(plan), Local(ReviewIndex), Purge) && NothingEscalated(plan)
  }

  lemma PurgedIsContained(base: Content, plan: ImpactPlan, w: World) returns (req: Request, x: World)
    requires IsBuilt(base) && IsFresh(w) && w.disk.content == base && PurgesFirst(plan)
    requires Evidence.AllPass(plan, Last(base, PurgeIndexEffect(base).after))
    ensures req == ApprovedRequest(plan, DefaultRegistry(LOCAL), map[]) && x in Run(req, w).trace
    ensures Evidence.VerdictOf(Evidence.StoredBundle(plan, x)) == Evidence.Contained && !AllDone(PlanSteps(plan), x)
  {
    req := ApprovedRequest(plan, DefaultRegistry(LOCAL), map[]);
    x := AfterFirst(req, w);
    StartsWithStep(base, plan, w, Local(ReviewIndex), Purge);
    OnlyPurged(base, req, w);
  }

  /** On any estate as built: the index is purged and the process dies before the
      rebuild has even a row.  The verdict on what is stored is "contained", with a
      planned step not done. */
  lemma ContainedBeforeCompleted(base: Content, w: World) returns (req: Request, x: World)
    requires IsBuilt(base) && IsFresh(w) && w.disk.content == base
    ensures req == ApprovedRequest(PURGE_AND_REBUILD, DefaultRegistry(LOCAL), map[]) && x in Run(req, w).trace
    ensures Evidence.VerdictOf(Evidence.StoredBundle(PURGE_AND_REBUILD, x)) == Evidence.Contained
    ensures !AllDone(PlanSteps(PURGE_AND_REBUILD), x)
  {
    PurgeAndRebuildPurgesFirst();
    BuiltFacts(base);
    PurgedPasses(base, Last(base, PurgeIndexEffect(base).after));
    req, x := PurgedIsContained(base, PURGE_AND_REBUILD, w);
  }

  lemma PurgeAndRebuildPurgesFirst()
    ensures PurgesFirst(PURGE_AND_REBUILD)
  {
    var r := PurgeComesFirst();
    PurgeEscalatesNothing();
  }

  lemma PurgeEscalatesNothing()
    ensures NothingEscalated(PURGE_AND_REBUILD)
  {
  }

  lemma PurgedPasses(base: Content, c: Content)
    requires ServedAsBuilt(base) && c == Last(base, PurgeIndexEffect(base).after)
    ensures Evidence.AllPass(PURGE_AND_REBUILD, c)
  {
    var plan := PURGE_AND_REBUILD;
    assert c.models == base.models && ModelTrusted(c, ApprovedSentimentModel);
    assert IndexHolds(c);
    forall p | p in VerifyPlan(plan, c).probes ensures p.passed {
      ReportMembers(plan, c, p);
      if d :| d in plan.decisions && p in ProbeOf(d, c) {
        assert d == plan.decisions[0] && d.actions[0] == Purge;
      }
    }
  }

  // --- an artifact left alone that can never be verified -----------------------------------

  const LEAVE_INDEX := PlanOf([Decide(Local(ReviewIndex), VectorIndexClass, [NoAction])])

  /** A plan that does nothing but leave the index alone: its run completes, the index
      is as it was, and the verdict is "residual". */
  lemma LeftAloneIsResidual(w: World) returns (req: Request, x: World)
    requires IsFresh(w)
    ensures req == ApprovedRequest(LEAVE_INDEX, DefaultRegistry(LOCAL), map[]) && x in Run(req, w).trace
    ensures AllDone(PlanSteps(LEAVE_INDEX), x) && x.disk == w.disk
    ensures Evidence.VerdictOf(Evidence.StoredBundle(LEAVE_INDEX, x)) == Evidence.ResidualLeft
  {
    var plan, d := LEAVE_INDEX, LEAVE_INDEX.decisions[0];
    req := ApprovedRequest(plan, DefaultRegistry(LOCAL), map[]);
    ApprovedPasses(plan, DefaultRegistry(LOCAL), map[]);
    assert [NoAction][1..] == [] && plan.decisions[1..] == [];
    assert Candidates(plan.decisions) == [] && PlanSteps(plan) == [];
    var begun := Started(req, w);
    assert Pending(begun) == {};
    x := Finished(begun);
    RunIsLoop(req, w);
    assert Run(req, w).trace == [begun, x];
    assert d in plan.decisions && d.actions[0] == NoAction && Evidence.IsLeftAlone(d);
    Evidence.LeftAloneUnreadable(plan, x, d);
  }
}
