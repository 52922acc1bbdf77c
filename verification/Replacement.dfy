/** Retrain, then replace: a first attempt that nothing stops puts the replacement for
    a model in service. */
module Replacement {
  import opened Rights
  import opened Plan
  import opened Approvals
  import opened Estate
  import opened Provenance
  import opened Execution
  import opened JournalSafety
  import opened JournalState
  import opened Containment
  import opened Products
  import opened Dependencies
  import CrashConvergence
  import ResumeAdmission

  /** The new version is there, whole, as training on the approved feed makes it. */
  ghost predicate IsTrained(base: Content, c: Content, name: ModelName) {
    VersionOf(c, name, V2Approved) == Some(ApprovedVersion(base))
  }

  lemma TrainedStays(base: Content, ctx: Context, c: Content, urn: Urn, a: Action, x: Content, name: ModelName)
    requires Sound(base, c) && IsTrained(base, c, name) && x in Execute(ctx, c, urn, a).after
    ensures IsTrained(base, x, name)
  {
    match ResolveArtifact(urn).value
    case ModelRecord(other) =>
      if a.Retrain? {
        RetrainStates(ctx, c, other, x);
        if other == name { RetrainKeepsWhole(ctx, c, name, x); }
      }
    case _ => TableActionsLeaveModels(ctx, c, urn, a, x);
  }

  ghost predicate CanRetrain(ctx: Context, base: Content, urn: Urn) {
    ctx.owned(urn) && HasReplacement(ctx) && HasTwoLabels(base)
  }

  lemma RetrainTrains(base: Content, ctx: Context, c: Content, urn: Urn, name: ModelName)
    requires Sound(base, c) && CanRetrain(ctx, base, urn) && IsModel(urn, name)
    ensures Execute(ctx, c, urn, Retrain).status.Succeeded?
    ensures IsTrained(base, Last(c, Execute(ctx, c, urn, Retrain).after), name)
  {
    SameLabels(base, c);
    TwoLabelsTrain(c);
    assert Execute(ctx, c, urn, Retrain) == RetrainEffect(ctx, c, name);
    RetrainEndsRetrained(ctx, c, name);
    RetrainedIsTrained(base, c, name);
  }

  lemma SameLabels(base: Content, c: Content)
    requires InputsUnchanged(base, c) && HasTwoLabels(base)
    ensures HasTwoLabels(c) && c.tables[ApprovedFeedTable] == base.tables[ApprovedFeedTable]
  {
  }

  lemma RetrainedIsTrained(base: Content, c: Content, name: ModelName)
    requires ApprovedFeedTable in base.tables && ApprovedFeedTable in c.tables
    requires c.tables[ApprovedFeedTable] == base.tables[ApprovedFeedTable]
    ensures IsTrained(base, Retrained(c, name), name)
  {
  }

  lemma ReplaceActivates(base: Content, ctx: Context, c: Content, urn: Urn, name: ModelName)
    requires CanRetrain(ctx, base, urn) && IsModel(urn, name) && IsTrained(base, c, name)
    ensures Execute(ctx, c, urn, Replace).status.Succeeded?
  {
    assert HasCandidate(ctx, c, name);
    ReplaceLeaves(ctx, c, urn, name);
  }

  // --- what is kept from step to step ----------------------------------------------------

  /** What the retraining and replacing of `urn` need besides each other: nothing else on
      it, and nothing inside a path to it, that did not succeed. */
  ghost predicate NothingElseFails(plan: ImpactPlan, outcomes: seq<Outcome>, urn: Urn) {
    forall k | 0 <= k < |outcomes| && outcomes[k].status != Completed ::
      if outcomes[k].step.urn == urn then outcomes[k].step.action in {Retrain, Replace}
      else !LiesBetween(plan, urn, outcomes[k].step.urn)
  }

  ghost predicate IsRetrained(steps: seq<Step>, urn: Urn, k: nat) {
    exists r: nat | r < k && r < |steps| :: steps[r].urn == urn && steps[r].action == Retrain
  }

  /** Every retraining and replacing of `urn` among the first `k` steps completed, and
      where one was retrained the version is there. */
  ghost predicate GoesWell(base: Content, req: Request, steps: seq<Step>, urn: Urn, name: ModelName, x: World, k: nat, outcomes: seq<Outcome>) {
    && Sound(base, x.disk.content) && |outcomes| == k <= |steps|
    && (forall i | 0 <= i < k :: outcomes[i].step == steps[i])
    && (NothingElseFails(req.plan, outcomes, urn) ==>
          && (IsRetrained(steps, urn, k) ==> IsTrained(base, x.disk.content, name))
          && (forall i | 0 <= i < k && steps[i].urn == urn && steps[i].action in {Retrain, Replace} ::
                outcomes[i].status == Completed))
  }

  /** Every step on the URN that replaces has one that retrains before it, and both are
      approved. */
  ghost predicate IsLaidOut(req: Request, steps: seq<Step>, urn: Urn) {
    && (forall j: nat | j < |steps| && steps[j].urn == urn && steps[j].action == Replace :: IsRetrained(steps, urn, j))
    && Covers(req.approval.scope, urn, Retrain) && Covers(req.approval.scope, urn, Replace)
  }

  lemma StepEffect(req: Request, steps: seq<Step>, ctx: Context, w: World, i: nat, outcomes: seq<Outcome>, s: StepRun)
    requires i < |steps| && |outcomes| == i && LocalRegistry(req, ctx) && req.faults == map[]
    requires s == StepAt(req, steps, w, map[], i, outcomes)
    ensures s.outcome.step == steps[i]
    ensures var e, c := Execute(ctx, w.disk.content, steps[i].urn, steps[i].action), LastWorld(w, s.trace).disk.content;
            if MustWait(req.plan, steps[i], outcomes, i) || !Covers(req.approval.scope, steps[i].urn, steps[i].action)
            then c == w.disk.content
            else c == Last(w.disk.content, e.after) && (s.outcome.status.Completed? <==> e.status.Succeeded?)
  {
    var step := steps[i];
    WaitingIsBlocked(req.plan, step, outcomes);
    if IsBlocked(req.plan, step, outcomes) {
      ConcludeStates(req, w, s.outcome, LastWorld(w, s.trace));
    } else if !Covers(req.approval.scope, step.urn, step.action) {
      var v := Intended(w, step);
      var tail := Conclude(req, v, s.outcome);
      assert LastWorld(w, s.trace) == tail[|tail| - 1];
      ConcludeStates(req, v, s.outcome, tail[|tail| - 1]);
    } else {
      CrashConvergence.PerformEndContent(req, w, step, CallEffect(req, w.disk.content, step));
    }
  }

  lemma LastKeeps(base: Content, ctx: Context, c: Content, urn: Urn, a: Action, name: ModelName)
    requires Sound(base, c)
    ensures var x := Last(c, Execute(ctx, c, urn, a).after);
            Sound(base, x) && (IsTrained(base, c, name) ==> IsTrained(base, x, name))
  {
    var after := Execute(ctx, c, urn, a).after;
    if after != [] {
      WritesKeepSound(base, ctx, c, urn, a, Last(c, after));
      if IsTrained(base, c, name) { TrainedStays(base, ctx, c, urn, a, Last(c, after), name); }
    }
  }

  lemma DoesNotWait(plan: ImpactPlan, steps: seq<Step>, urn: Urn, outcomes: seq<Outcome>, i: nat)
    requires i < |steps| && |outcomes| == i && steps[i].urn == urn && NothingElseFails(plan, outcomes, urn)
    requires forall k | 0 <= k < i :: outcomes[k].step == steps[k]
    requires forall k | 0 <= k < i && steps[k].urn == urn && steps[k].action in {Retrain, Replace} :: outcomes[k].status == Completed
    ensures !MustWait(plan, steps[i], outcomes, i)
  {
  }

  lemma ModelStepCompletes(base: Content, req: Request, steps: seq<Step>, ctx: Context, urn: Urn, name: ModelName, w: World, i: nat, outcomes: seq<Outcome>, s: StepRun)
    requires LocalRegistry(req, ctx) && req.faults == map[] && CanRetrain(ctx, base, urn) && IsModel(urn, name)
    requires i < |steps| && IsLaidOut(req, steps, urn) && GoesWell(base, req, steps, urn, name, w, i, outcomes)
    requires s == StepAt(req, steps, w, map[], i, outcomes) && NothingElseFails(req.plan, outcomes, urn)
    requires steps[i].urn == urn && steps[i].action in {Retrain, Replace}
    ensures s.outcome.status == Completed
    ensures steps[i].action == Retrain ==> IsTrained(base, LastWorld(w, s.trace).disk.content, name)
  {
    StepEffect(req, steps, ctx, w, i, outcomes, s);
    DoesNotWait(req.plan, steps, urn, outcomes, i);
    if steps[i].action == Retrain {
      RetrainTrains(base, ctx, w.disk.content, urn, name);
    } else {
      ReplaceActivates(base, ctx, w.disk.content, urn, name);
    }
  }

  lemma StepGoesWell(base: Content, req: Request, steps: seq<Step>, ctx: Context, urn: Urn, name: ModelName, w: World, i: nat, outcomes: seq<Outcome>, s: StepRun)
    requires LocalRegistry(req, ctx) && req.faults == map[] && CanRetrain(ctx, base, urn) && IsModel(urn, name)
    requires i < |steps| && IsLaidOut(req, steps, urn) && GoesWell(base, req, steps, urn, name, w, i, outcomes)
    requires s == StepAt(req, steps, w, map[], i, outcomes)
    ensures GoesWell(base, req, steps, urn, name, LastWorld(w, s.trace), i + 1, outcomes + [s.outcome])
  {
    var more, v, c := outcomes + [s.outcome], LastWorld(w, s.trace), w.disk.content;
    StepEffect(req, steps, ctx, w, i, outcomes, s);
    LastKeeps(base, ctx, c, steps[i].urn, steps[i].action, name);
    if NothingElseFails(req.plan, more, urn) {
      assert forall k | 0 <= k < i :: more[k] == outcomes[k];
      assert NothingElseFails(req.plan, outcomes, urn);
      if steps[i].urn == urn && steps[i].action in {Retrain, Replace} {
        ModelStepCompletes(base, req, steps, ctx, urn, name, w, i, outcomes, s);
      }
    }
  }

  lemma LoopGoesWell(base: Content, req: Request, steps: seq<Step>, ctx: Context, urn: Urn, name: ModelName, w: World)
    requires LocalRegistry(req, ctx) && req.faults == map[] && CanRetrain(ctx, base, urn) && IsModel(urn, name)
    requires IsLaidOut(req, steps, urn) && Sound(base, w.disk.content)
    ensures var a := Loop(req, steps, w, map[], 0, []);
            a.result.Returned? ==> GoesWell(base, req, steps, urn, name, LastWorld(w, a.trace), |steps|, a.result.outcomes)
  {
    ghost var inv := (x: World, k: nat, os: seq<Outcome>) => GoesWell(base, req, steps, urn, name, x, k, os);
    ghost var step := (x: World, t: seq<World>) => true;
    ghost var whole := (x: World, a: Attempt) =>
      a.result.Returned? ==> GoesWell(base, req, steps, urn, name, LastWorld(x, a.trace), |steps|, a.result.outcomes);
    forall x: World, k: nat, os: seq<Outcome> ensures StepGoes(req, steps, map[], inv, step, x, k, os) {
      if k < |steps| && GoesWell(base, req, steps, urn, name, x, k, os) {
        StepGoesWell(base, req, steps, ctx, urn, name, x, k, os, StepAt(req, steps, x, map[], k, os));
      }
    }
    forall x: World, t: seq<World>, a: Attempt ensures Joins(step, whole, x, t, a) {
      LastOfConcat(x, t, a.trace);
    }
    LoopTraces(req, steps, map[], inv, step, whole, w, 0, []);
  }

  // --- the attempt ------------------------------------------------------------------------

  /** By the order of the steps alone, whatever is replaced was retrained before. */
  lemma RetrainComesFirst(plan: ImpactPlan, urn: Urn, d: Decision)
    requires d in plan.decisions && d.urn == urn && Retrain in d.actions
    ensures var steps := PlanSteps(plan);
            forall j: nat | j < |steps| && steps[j].urn == urn && steps[j].action == Replace :: IsRetrained(steps, urn, j)
  {
    var steps := PlanSteps(plan);
    DecisionBecomesStep(plan, d, Retrain);
    var s :| s in steps && StepOfDecision(s, d) && s.action == Retrain;
    var r: nat :| r < |steps| && steps[r] == s;
    forall j: nat | j < |steps| && steps[j].urn == urn && steps[j].action == Replace ensures IsRetrained(steps, urn, j) {
      if j < r { StepsAreInOrder(plan, j, r); }
    }
  }

  /** From an estate as built with a feed to train on, and a usable replacement: a first
      attempt that passes the gate, with no call raising, at any plan that proposes to
      retrain a model and to replace it, completes both, unless something else on the
      model or inside a path to it did not succeed. */
  lemma ModelIsReplaced(base: Content, req: Request, ctx: Context, w: World, d: Decision, name: ModelName)
    requires IsBuilt(base) && IsFresh(w) && w.disk.content == base && GateRefusal(req).None?
    requires LocalRegistry(req, ctx) && req.faults == map[] && CanRetrain(ctx, base, d.urn) && IsModel(d.urn, name)
    requires d in req.plan.decisions && Retrain in d.actions && Replace in d.actions
    requires Covers(req.approval.scope, d.urn, Retrain) && Covers(req.approval.scope, d.urn, Replace)
    ensures var a := Run(req, w);
            && a.result.Returned?
            && (NothingElseFails(req.plan, a.result.outcomes, d.urn) ==>
                  && (forall o | o in a.result.outcomes && o.step.urn == d.urn && o.step.action in {Retrain, Replace} :: o.Succeeded())
                  && (exists o | o in a.result.outcomes :: o.step.urn == d.urn && o.step.action == Retrain)
                  && (exists o | o in a.result.outcomes :: o.step.urn == d.urn && o.step.action == Replace))
  {
    var steps, begun := PlanSteps(req.plan), Begun(req, w);
    PlanIsNumbered(req.plan);
    BuiltFacts(base);
    RetrainComesFirst(req.plan, d.urn, d);
    FreshReturns(req, w);
    LoopGoesWell(base, req, steps, ctx, d.urn, name, begun);
    WentWell(base, req, d, name, LastWorld(begun, Loop(req, steps, begun, map[], 0, []).trace), Run(req, w).result.outcomes);
  }

  lemma WentWell(base: Content, req: Request, d: Decision, name: ModelName, x: World, outcomes: seq<Outcome>)
    requires d in req.plan.decisions && Retrain in d.actions && Replace in d.actions
    requires GoesWell(base, req, PlanSteps(req.plan), d.urn, name, x, |PlanSteps(req.plan)|, outcomes)
    ensures NothingElseFails(req.plan, outcomes, d.urn) ==>
              && (forall o | o in outcomes && o.step.urn == d.urn && o.step.action in {Retrain, Replace} :: o.Succeeded())
              && (exists o | o in outcomes :: o.step.urn == d.urn && o.step.action == Retrain)
              && (exists o | o in outcomes :: o.step.urn == d.urn && o.step.action == Replace)
  {
    BothAreSteps(req.plan, d, outcomes, Retrain);
    BothAreSteps(req.plan, d, outcomes, Replace);
    if NothingElseFails(req.plan, outcomes, d.urn) {
      forall o | o in outcomes && o.step.urn == d.urn && o.step.action in {Retrain, Replace} ensures o.Succeeded() {
        var i :| 0 <= i < |outcomes| && outcomes[i] == o;
      }
    }
  }

  lemma BothAreSteps(plan: ImpactPlan, d: Decision, outcomes: seq<Outcome>, a: Action)
    requires d in plan.decisions && a in d.actions && Rights.IsDestructive(a)
    requires |outcomes| == |PlanSteps(plan)| && forall i | 0 <= i < |outcomes| :: outcomes[i].step == PlanSteps(plan)[i]
    ensures exists o | o in outcomes :: o.step.urn == d.urn && o.step.action == a
  {
    DecisionBecomesStep(plan, d, a);
    var s :| s in PlanSteps(plan) && StepOfDecision(s, d) && s.action == a;
    var i :| 0 <= i < |PlanSteps(plan)| && PlanSteps(plan)[i] == s;
    assert outcomes[i] in outcomes;
  }

  /** A first attempt that passes the gate runs to its report. */
  lemma FreshReturns(req: Request, w: World)
    requires IsFresh(w) && GateRefusal(req).None?
    ensures Run(req, w).result.Returned? && DoneRows(Begun(req, w)) == map[]
    ensures Run(req, w).result == Loop(req, PlanSteps(req.plan), Begun(req, w), map[], 0, []).result
  {
    var begun := Begun(req, w);
    assert Pending(begun) == {};
    assert IsAdmitted(req, w);
    RunIsLoop(req, w);
    assert forall i | 0 <= i < |PlanSteps(req.plan)| :: !SkipRefused(req, PlanSteps(req.plan), map[], i);
    ResumeAdmission.LoopReturns(req, PlanSteps(req.plan), begun, map[], 0, []);
  }
}
