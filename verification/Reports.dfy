/** What a run reports, and what the journal and the receipts say about it later. */
module Reports {
  import opened Ordering
  import opened Rights
  import opened Plan
  import opened Approvals
  import opened Estate
  import opened Execution
  import opened JournalSafety
  import opened JournalState

  datatype Reason = ActionFailed | NoAdapter | OutsideApproval | Escalated | VerificationFailed

  datatype Residual = Residual(urn: Urn, reason: Reason, action: Option<Action>)

  function ReasonName(r: Reason): string {
    match r
    case ActionFailed => "action_failed"
    case NoAdapter => "no_adapter"
    case OutsideApproval => "not_approved"
    case Escalated => "escalated"
    case VerificationFailed => "verification_failed"
  }

  function ResidualKey(r: Residual): ((nat, string), (string, string)) {
    (UrnKey(r.urn), (ReasonName(r.reason), if r.action.Some? then ActionName(r.action.value) else ""))
  }

  function ResidualOrder(): (Residual, Residual) -> bool {
    By((r: Residual) => ResidualKey(r),
       Then(Then(NatOrder(), StringOrder()), Then(StringOrder(), StringOrder())))
  }

  // --- residual exposure ------------------------------------------------------

  function ReasonFor(s: StepStatus): Option<Reason> {
    match s
    case Failed => Some(ActionFailed)
    case Unsupported => Some(NoAdapter)
    case NotApproved => Some(OutsideApproval)
    case Completed => None
    case InProgress => None
  }

  function OutcomeResiduals(outcomes: seq<Outcome>): seq<Residual> {
    if outcomes == [] then []
    else
      var o := outcomes[|outcomes| - 1];
      OutcomeResiduals(outcomes[..|outcomes| - 1])
      + match ReasonFor(o.status)
        case None => []
        case Some(reason) => [Residual(o.step.urn, reason, Some(o.step.action))]
  }

  function EscalationResiduals(decisions: seq<Decision>): seq<Residual> {
    if decisions == [] then []
    else
      var d := decisions[|decisions| - 1];
      EscalationResiduals(decisions[..|decisions| - 1])
      + if d.IsEscalation() then [Residual(d.urn, Escalated, Some(Escalate))] else []
  }

  function ResidualOf(plan: ImpactPlan, outcomes: seq<Outcome>): seq<Residual> {
    Sort(OutcomeResiduals(outcomes) + EscalationResiduals(plan.decisions), ResidualOrder())
  }

  method ResidualExposure(plan: ImpactPlan, outcomes: seq<Outcome>) returns (residual: seq<Residual>)
    ensures residual == ResidualOf(plan, outcomes)
  {
    residual := [];
    for i := 0 to |outcomes|
      invariant residual == OutcomeResiduals(outcomes[..i])
    {
      var o := outcomes[i];
      assert outcomes[..i + 1][..i] == outcomes[..i];
      if o.status == Failed {
        residual := residual + [Residual(o.step.urn, ActionFailed, Some(o.step.action))];
      } else if o.status == Unsupported {
        residual := residual + [Residual(o.step.urn, NoAdapter, Some(o.step.action))];
      } else if o.status == NotApproved {
        residual := residual + [Residual(o.step.urn, OutsideApproval, Some(o.step.action))];
      }
    }
    assert outcomes[..|outcomes|] == outcomes;
    ghost var fromSteps := residual;
    for i := 0 to |plan.decisions|
      invariant residual == fromSteps + EscalationResiduals(plan.decisions[..i])
    {
      var d := plan.decisions[i];
      assert plan.decisions[..i + 1][..i] == plan.decisions[..i];
      if d.IsEscalation() {
        residual := residual + [Residual(d.urn, Escalated, Some(Escalate))];
      }
    }
    assert plan.decisions[..|plan.decisions|] == plan.decisions;
    residual := Sort(residual, ResidualOrder());
  }

  function CountNotCompleted(outcomes: seq<Outcome>): nat {
    if outcomes == [] then 0
    else CountNotCompleted(outcomes[..|outcomes| - 1]) + if outcomes[|outcomes| - 1].Succeeded() then 0 else 1
  }

  function CountEscalations(decisions: seq<Decision>): nat {
    if decisions == [] then 0
    else CountEscalations(decisions[..|decisions| - 1]) + if decisions[|decisions| - 1].IsEscalation() then 1 else 0
  }

  /** A report is fully executed when nothing failed and nothing is left exposed. */
  predicate FullyExecuted(outcomes: seq<Outcome>, residual: seq<Residual>) {
    (forall k | 0 <= k < |outcomes| :: outcomes[k].status != Failed) && residual == []
  }

  ghost predicate Concluded(outcomes: seq<Outcome>) {
    forall k | 0 <= k < |outcomes| :: !outcomes[k].status.InProgress?
  }

  function CountInProgress(outcomes: seq<Outcome>): nat {
    if outcomes == [] then 0
    else CountInProgress(outcomes[..|outcomes| - 1]) + if outcomes[|outcomes| - 1].status.InProgress? then 1 else 0
  }

  /** No step is reported as stopped short: each is completed, or still under way. */
  ghost predicate NoneStopped(outcomes: seq<Outcome>) {
    forall k | 0 <= k < |outcomes| :: outcomes[k].Succeeded() || outcomes[k].status.InProgress?
  }

  lemma {:induction false} OutcomeResidualCount(outcomes: seq<Outcome>)
    ensures |OutcomeResiduals(outcomes)| + CountInProgress(outcomes) == CountNotCompleted(outcomes)
    ensures CountInProgress(outcomes) == 0 <==> Concluded(outcomes)
    ensures OutcomeResiduals(outcomes) == [] <==> NoneStopped(outcomes)
  {
    if outcomes != [] {
      OutcomeResidualCount(outcomes[..|outcomes| - 1]);
      assert outcomes == outcomes[..|outcomes| - 1] + [outcomes[|outcomes| - 1]];
    }
  }

  lemma {:induction false} EscalationCount(decisions: seq<Decision>)
    ensures |EscalationResiduals(decisions)| == CountEscalations(decisions)
    ensures CountEscalations(decisions) == 0 <==> forall d | d in decisions :: !d.IsEscalation()
  {
    if decisions != [] {
      EscalationCount(decisions[..|decisions| - 1]);
      assert decisions == decisions[..|decisions| - 1] + [decisions[|decisions| - 1]];
    }
  }

  ghost predicate Exposes(o: Outcome, r: Residual) {
    ReasonFor(o.status) == Some(r.reason) && r.urn == o.step.urn && r.action == Some(o.step.action)
  }

  lemma {:induction false} OutcomeResidualMember(outcomes: seq<Outcome>, r: Residual)
    ensures r in OutcomeResiduals(outcomes) <==> exists o | o in outcomes :: Exposes(o, r)
  {
    if outcomes != [] {
      var n := |outcomes| - 1;
      OutcomeResidualMember(outcomes[..n], r);
      assert outcomes == outcomes[..n] + [outcomes[n]];
      if r in OutcomeResiduals(outcomes) && r !in OutcomeResiduals(outcomes[..n]) {
        assert Exposes(outcomes[n], r);
      }
    }
  }

  lemma {:induction false} EscalationMember(decisions: seq<Decision>, r: Residual)
    ensures r in EscalationResiduals(decisions) <==>
              exists d | d in decisions :: d.IsEscalation() && r == Residual(d.urn, Escalated, Some(Escalate))
  {
    if decisions != [] {
      EscalationMember(decisions[..|decisions| - 1], r);
      assert decisions == decisions[..|decisions| - 1] + [decisions[|decisions| - 1]];
    }
  }

  /** `r` is the entry of a step that did not complete, or of an escalation. */
  ghost predicate Explained(plan: ImpactPlan, outcomes: seq<Outcome>, r: Residual) {
    || (exists o | o in outcomes :: Exposes(o, r))
    || (exists d | d in plan.decisions :: d.IsEscalation() && r == Residual(d.urn, Escalated, Some(Escalate)))
  }

  lemma ResidualMembers(plan: ImpactPlan, outcomes: seq<Outcome>, r: Residual)
    ensures r in ResidualOf(plan, outcomes) <==> Explained(plan, outcomes, r)
  {
    SortPermutes(OutcomeResiduals(outcomes) + EscalationResiduals(plan.decisions), ResidualOrder());
    OutcomeResidualMember(outcomes, r);
    EscalationMember(plan.decisions, r);
  }

  ghost predicate NothingEscalated(plan: ImpactPlan) {
    forall d | d in plan.decisions :: !d.IsEscalation()
  }

  /** For every list of outcomes: one entry for each step reported as stopped short,
      one for each escalation, and no others.  A step reported as in progress has
      none, so a report counts as fully executed exactly when nothing escalated and
      every reported step is completed or in progress. */
  lemma ResidualAccounts(plan: ImpactPlan, outcomes: seq<Outcome>)
    ensures |ResidualOf(plan, outcomes)| + CountInProgress(outcomes) == CountNotCompleted(outcomes) + CountEscalations(plan.decisions)
    ensures forall r :: r in ResidualOf(plan, outcomes) <==> Explained(plan, outcomes, r)
    ensures FullyExecuted(outcomes, ResidualOf(plan, outcomes)) <==> NoneStopped(outcomes) && NothingEscalated(plan)
  {
    var all := OutcomeResiduals(outcomes) + EscalationResiduals(plan.decisions);
    SortPermutes(all, ResidualOrder());
    OutcomeResidualCount(outcomes);
    EscalationCount(plan.decisions);
    forall r ensures r in ResidualOf(plan, outcomes) <==> Explained(plan, outcomes, r) {
      ResidualMembers(plan, outcomes, r);
    }
    assert |ResidualOf(plan, outcomes)| == 0 <==> ResidualOf(plan, outcomes) == [];
  }

  /** What an operator is told of a step: that it failed, that nothing can do it, or that
      it was not approved. */
  ghost predicate TellsOfStep(r: Residual, o: Outcome) {
    && r.urn == o.step.urn && r.action == Some(o.step.action)
    && ((o.status == Failed && r.reason == ActionFailed) || (o.status == Unsupported && r.reason == NoAdapter)
        || (o.status == NotApproved && r.reason == OutsideApproval))
  }

  /** The order of the reasons, which is that of their names. */
  predicate ReasonBefore(a: Reason, b: Reason) {
    match a
    case ActionFailed => b != ActionFailed
    case Escalated => b in {NoAdapter, OutsideApproval, VerificationFailed}
    case NoAdapter => b in {OutsideApproval, VerificationFailed}
    case OutsideApproval => b == VerificationFailed
    case VerificationFailed => false
  }

  lemma ReasonsAreOrdered(a: Reason, b: Reason)
    ensures StringOrder()(ReasonName(a), ReasonName(b)) <==> a == b || ReasonBefore(a, b)
  {
    BasicOrders();
    if a != b {
      var k := if (a.NoAdapter? && b.OutsideApproval?) || (a.OutsideApproval? && b.NoAdapter?) then 2 else 0;
      assert ReasonName(a)[..k] == ReasonName(b)[..k];
      LexAt(CharOrder(), ReasonName(a), ReasonName(b), k);
    } else {
      assert StringOrder()(ReasonName(a), ReasonName(a)) || StringOrder()(ReasonName(a), ReasonName(a));
    }
  }

  /** The residual list entry by entry: its members read off the outcomes and decisions,
      in order of URN and, for one URN, of reason. */
  lemma ResidualIsExact(plan: ImpactPlan, outcomes: seq<Outcome>)
    ensures forall r :: r in ResidualOf(plan, outcomes) <==>
              || (exists o | o in outcomes :: TellsOfStep(r, o))
              || (exists d | d in plan.decisions :: Escalate in d.actions && r == Residual(d.urn, Escalated, Some(Escalate)))
    ensures forall i, j | 0 <= i < j < |ResidualOf(plan, outcomes)| ::
              ResidualsInOrder(ResidualOf(plan, outcomes)[i], ResidualOf(plan, outcomes)[j])
  {
    ResidualAccounts(plan, outcomes);
    forall r, o | o in outcomes ensures Exposes(o, r) <==> TellsOfStep(r, o) {
    }
    var all := OutcomeResiduals(outcomes) + EscalationResiduals(plan.decisions);
    ResidualOrderIsPreorder();
    SortSorts(all, ResidualOrder());
    forall i, j | 0 <= i < j < |ResidualOf(plan, outcomes)|
      ensures ResidualsInOrder(ResidualOf(plan, outcomes)[i], ResidualOf(plan, outcomes)[j])
    {
      OrderedResiduals(ResidualOf(plan, outcomes)[i], ResidualOf(plan, outcomes)[j]);
    }
  }

  ghost predicate ResidualsInOrder(r: Residual, q: Residual) {
    UrnOrder()(r.urn, q.urn) && (r.urn == q.urn ==> r.reason == q.reason || ReasonBefore(r.reason, q.reason))
  }

  lemma ResidualOrderIsPreorder()
    ensures TotalPreorder(ResidualOrder())
  {
    BasicOrders();
    ThenIsTotalOrder(NatOrder(), StringOrder());
    ThenIsTotalOrder(StringOrder(), StringOrder());
    ThenIsTotalOrder(Then(NatOrder(), StringOrder()), Then(StringOrder(), StringOrder()));
    ByIsPreorder((r: Residual) => ResidualKey(r), Then(Then(NatOrder(), StringOrder()), Then(StringOrder(), StringOrder())));
  }

  lemma OrderedResiduals(r: Residual, q: Residual)
    requires ResidualOrder()(r, q)
    ensures ResidualsInOrder(r, q)
  {
    BasicOrders();
    UrnOrderIsTotal();
    ReasonsAreOrdered(r.reason, q.reason);
    assert UrnOrder()(r.urn, r.urn) || UrnOrder()(r.urn, r.urn);
  }

  // --- what a stored run reloads as -------------------------------------------------

  ghost predicate HasEveryRow(steps: seq<Step>, x: World) {
    forall s: nat | s < |steps| :: s in x.rows
  }

  ghost predicate NoneUnderWay(steps: seq<Step>, x: World) {
    forall s: nat | s < |steps| && s in x.rows :: !x.rows[s].status.InProgress?
  }

  /** The reported outcome of step `s`. */
  function RowOutcome(steps: seq<Step>, x: World, s: nat): Outcome
    requires s < |steps| && s in x.rows
  {
    Outcome(steps[s], x.rows[s].status, x.rows[s].changed, true)
  }

  ghost predicate IsRowFrom(steps: seq<Step>, x: World, i: nat, o: Outcome) {
    exists s: nat | i <= s < |steps| && s in x.rows :: o == RowOutcome(steps, x, s)
  }

  lemma RowFromNext(steps: seq<Step>, x: World, i: nat, o: Outcome)
    requires i < |steps|
    ensures IsRowFrom(steps, x, i, o) <==> (i in x.rows && o == RowOutcome(steps, x, i)) || IsRowFrom(steps, x, i + 1, o)
  {
  }

  /** The reload lists the rows the planned steps have, and nothing else. */
  lemma {:induction false} LoadedMembers(plan: ImpactPlan, x: World, i: nat, o: Outcome)
    requires i <= |PlanSteps(plan)|
    ensures o in LoadOutcomes(plan, x, i) <==> IsRowFrom(PlanSteps(plan), x, i, o)
    decreases |PlanSteps(plan)| - i
  {
    if i < |PlanSteps(plan)| {
      PlanIsNumbered(plan);
      LoadedMembers(plan, x, i + 1, o);
      RowFromNext(PlanSteps(plan), x, i, o);
    }
  }

  /** How many of the planned steps from `i` on are not completed. */
  function CountUndone(x: World, i: nat, n: nat): nat
    requires i <= n
    decreases n - i
  {
    if i == n then 0 else (if IsDone(x, i) then 0 else 1) + CountUndone(x, i + 1, n)
  }

  lemma {:induction false} OutcomeResidualsCons(o: Outcome, rest: seq<Outcome>)
    ensures OutcomeResiduals([o] + rest) == OutcomeResiduals([o]) + OutcomeResiduals(rest)
  {
    if rest != [] {
      var n := |rest| - 1;
      assert ([o] + rest)[..n + 1] == [o] + rest[..n] && ([o] + rest)[n + 1] == rest[n];
      OutcomeResidualsCons(o, rest[..n]);
    }
  }

  ghost predicate RowsFrom(steps: seq<Step>, x: World, i: nat) {
    forall s: nat | i <= s < |steps| :: s in x.rows
  }

  lemma RowsFromNext(steps: seq<Step>, x: World, i: nat)
    requires i < |steps|
    ensures RowsFrom(steps, x, i) <==> i in x.rows && RowsFrom(steps, x, i + 1)
  {
  }

  predicate IsReported(x: World, s: nat) { s in x.rows && !x.rows[s].status.InProgress? }

  /** How many of the planned steps from `i` on have no row, or one in progress. */
  function CountUnreported(x: World, i: nat, n: nat): nat
    requires i <= n
    decreases n - i
  {
    if i == n then 0 else (if IsReported(x, i) then 0 else 1) + CountUnreported(x, i + 1, n)
  }

  lemma {:induction false} NoneUnreported(x: World, i: nat, n: nat)
    requires i <= n
    ensures CountUnreported(x, i, n) == 0 <==> forall s: nat | i <= s < n :: IsReported(x, s)
    decreases n - i
  {
    if i < n { NoneUnreported(x, i + 1, n); }
  }

  lemma {:induction false} LoadLength(plan: ImpactPlan, x: World, i: nat)
    requires i <= |PlanSteps(plan)|
    ensures |LoadOutcomes(plan, x, i)| <= |PlanSteps(plan)| - i
    ensures |LoadOutcomes(plan, x, i)| == |PlanSteps(plan)| - i <==> RowsFrom(PlanSteps(plan), x, i)
    decreases |PlanSteps(plan)| - i
  {
    if i < |PlanSteps(plan)| {
      PlanIsNumbered(plan);
      LoadLength(plan, x, i + 1);
      RowsFromNext(PlanSteps(plan), x, i);
    }
  }

  lemma CountsCons(steps: seq<Step>, x: World, i: nat, rest: seq<Outcome>)
    requires i < |steps|
    requires |OutcomeResiduals(rest)| + CountUnreported(x, i + 1, |steps|) == CountUndone(x, i + 1, |steps|)
    ensures var loaded := (if i in x.rows then [RowOutcome(steps, x, i)] else []) + rest;
            |OutcomeResiduals(loaded)| + CountUnreported(x, i, |steps|) == CountUndone(x, i, |steps|)
  {
    if i in x.rows {
      OutcomeResidualsCons(RowOutcome(steps, x, i), rest);
      OneOutcome(RowOutcome(steps, x, i));
    } else {
      assert [] + rest == rest;
    }
  }

  lemma {:induction false} LoadCounts(plan: ImpactPlan, x: World, i: nat)
    requires i <= |PlanSteps(plan)|
    ensures |OutcomeResiduals(LoadOutcomes(plan, x, i))| + CountUnreported(x, i, |PlanSteps(plan)|) == CountUndone(x, i, |PlanSteps(plan)|)
    decreases |PlanSteps(plan)| - i
  {
    if i < |PlanSteps(plan)| {
      PlanIsNumbered(plan);
      LoadCounts(plan, x, i + 1);
      CountsCons(PlanSteps(plan), x, i, LoadOutcomes(plan, x, i + 1));
    } else {
      assert LoadOutcomes(plan, x, i) == [];
    }
  }

  lemma OneOutcome(o: Outcome)
    ensures |OutcomeResiduals([o])| == if ReasonFor(o.status).Some? then 1 else 0
  {
    assert [o][..0] == [];
  }

  lemma ResidualLength(plan: ImpactPlan, outcomes: seq<Outcome>)
    ensures |ResidualOf(plan, outcomes)| == |OutcomeResiduals(outcomes)| + CountEscalations(plan.decisions)
  {
    SortPermutes(OutcomeResiduals(outcomes) + EscalationResiduals(plan.decisions), ResidualOrder());
    EscalationCount(plan.decisions);
  }

  lemma ReportedRows(steps: seq<Step>, x: World)
    ensures HasEveryRow(steps, x) && NoneUnderWay(steps, x) <==> CountUnreported(x, 0, |steps|) == 0
    ensures HasEveryRow(steps, x) <==> RowsFrom(steps, x, 0)
  {
    NoneUnreported(x, 0, |steps|);
    if HasEveryRow(steps, x) && NoneUnderWay(steps, x) {
      forall s: nat | s < |steps| ensures IsReported(x, s) {
        assert s in x.rows;
      }
    }
    if forall s: nat | s < |steps| :: IsReported(x, s) {
      forall s: nat | s < |steps| ensures s in x.rows && !x.rows[s].status.InProgress? {
        assert IsReported(x, s);
      }
    }
  }

  /** For every stored run, returned or not: the reload has an outcome for each
      planned step exactly when each has a row; no outcome is in progress exactly
      when no row of a step is; and every step that is not completed has its own
      residual entry exactly when both hold. */
  lemma ReloadedExactly(plan: ImpactPlan, x: World)
    ensures |LoadOutcomes(plan, x, 0)| == |PlanSteps(plan)| <==> HasEveryRow(PlanSteps(plan), x)
    ensures Concluded(LoadOutcomes(plan, x, 0)) <==> NoneUnderWay(PlanSteps(plan), x)
    ensures HasEveryRow(PlanSteps(plan), x) && NoneUnderWay(PlanSteps(plan), x) <==>
              |ResidualOf(plan, LoadOutcomes(plan, x, 0))| == CountUndone(x, 0, |PlanSteps(plan)|) + CountEscalations(plan.decisions)
  {
    LoadLength(plan, x, 0);
    ReportedRows(PlanSteps(plan), x);
    ReloadedConcluded(plan, x);
    LoadCounts(plan, x, 0);
    ResidualLength(plan, LoadOutcomes(plan, x, 0));
  }

  lemma ReloadedConcluded(plan: ImpactPlan, x: World)
    ensures Concluded(LoadOutcomes(plan, x, 0)) <==> NoneUnderWay(PlanSteps(plan), x)
  {
    var steps, outcomes := PlanSteps(plan), LoadOutcomes(plan, x, 0);
    if NoneUnderWay(steps, x) {
      forall k | 0 <= k < |outcomes| ensures !outcomes[k].status.InProgress? {
        LoadedMembers(plan, x, 0, outcomes[k]);
      }
    }
    forall s: nat | s < |steps| && s in x.rows ensures RowOutcome(steps, x, s) in outcomes {
      LoadedMembers(plan, x, 0, RowOutcome(steps, x, s));
    }
  }

  ghost predicate NoRowStopped(steps: seq<Step>, x: World) {
    forall s: nat | s < |steps| && s in x.rows :: IsDone(x, s) || x.rows[s].status.InProgress?
  }

  /** A stored run reloads as fully executed exactly when nothing escalated and no
      row of a step says that it stopped short. */
  lemma ReloadsAsExecuted(plan: ImpactPlan, x: World)
    ensures NoneStopped(LoadOutcomes(plan, x, 0)) <==> NoRowStopped(PlanSteps(plan), x)
    ensures var outcomes := LoadOutcomes(plan, x, 0);
            FullyExecuted(outcomes, ResidualOf(plan, outcomes)) <==> NoRowStopped(PlanSteps(plan), x) && NothingEscalated(plan)
  {
    var steps, outcomes := PlanSteps(plan), LoadOutcomes(plan, x, 0);
    if NoRowStopped(steps, x) {
      forall k | 0 <= k < |outcomes| ensures outcomes[k].Succeeded() || outcomes[k].status.InProgress? {
        LoadedMembers(plan, x, 0, outcomes[k]);
      }
    }
    forall s: nat | s < |steps| && s in x.rows ensures RowOutcome(steps, x, s) in outcomes {
      LoadedMembers(plan, x, 0, RowOutcome(steps, x, s));
    }
    ResidualAccounts(plan, outcomes);
  }

  // --- the journal reproduces the report ----------------------------------------

  function AsResumed(outcomes: seq<Outcome>): seq<Outcome> {
    Map((o: Outcome) => o.(resumed := true), outcomes)
  }

  lemma {:induction false} LoadReproduces(plan: ImpactPlan, w: World, outcomes: seq<Outcome>, i: nat)
    requires i <= |PlanSteps(plan)| && |outcomes| == |PlanSteps(plan)|
    requires Reflected(PlanSteps(plan), w, outcomes)
    ensures LoadOutcomes(plan, w, i) == AsResumed(outcomes)[i..]
    decreases |PlanSteps(plan)| - i
  {
    if i < |PlanSteps(plan)| {
      PlanIsNumbered(plan);
      assert Reflects(w, i, outcomes[i]);
      LoadReproduces(plan, w, outcomes, i + 1);
    }
  }

  lemma {:induction false} ResumedResiduals(outcomes: seq<Outcome>)
    ensures OutcomeResiduals(AsResumed(outcomes)) == OutcomeResiduals(outcomes)
  {
    if outcomes != [] {
      ResumedResiduals(outcomes[..|outcomes| - 1]);
      assert AsResumed(outcomes)[..|outcomes| - 1] == AsResumed(outcomes[..|outcomes| - 1]);
    }
  }

  /** A returned report has one outcome for each planned step, in order, none left
      in progress; loading it back from the journal gives the same steps, statuses,
      changed flags and residual list. */
  lemma ReportRoundTrip(req: Request, w: World)
    requires RunJournalled(req.plan, w) && Run(req, w).result.Returned?
    ensures var outcomes, final := Run(req, w).result.outcomes, LastWorld(w, Run(req, w).trace);
            && |outcomes| == |PlanSteps(req.plan)|
            && (forall k | 0 <= k < |outcomes| :: outcomes[k].step == PlanSteps(req.plan)[k])
            && Concluded(outcomes)
            && LoadOutcomes(req.plan, final, 0) == AsResumed(outcomes)
            && ResidualOf(req.plan, LoadOutcomes(req.plan, final, 0)) == ResidualOf(req.plan, outcomes)
  {
    ReturnedIsReflected(req, w);
    var outcomes, final := Run(req, w).result.outcomes, LastWorld(w, Run(req, w).trace);
    forall k | 0 <= k < |outcomes| ensures !outcomes[k].status.InProgress? {
      assert Reflects(final, k, outcomes[k]);
    }
    LoadReproduces(req.plan, final, outcomes, 0);
    ResumedResiduals(outcomes);
  }

  /** What a returned attempt reports is what its journal holds. */
  lemma ReturnedIsReflected(req: Request, w: World)
    requires RunJournalled(req.plan, w) && Run(req, w).result.Returned?
    ensures |Run(req, w).result.outcomes| == |PlanSteps(req.plan)|
    ensures Reflected(PlanSteps(req.plan), LastWorld(w, Run(req, w).trace), Run(req, w).result.outcomes)
  {
    var begun := Begun(req, w);
    PlanIsNumbered(req.plan);
    BegunSnapshot(begun);
    RunIsLoop(req, w);
    LoopJournal(req, PlanSteps(req.plan), begun, DoneRows(begun), 0, []);
  }

  // --- receipts -------------------------------------------------------------

  /** The receipts of step `s`. */
  function LinesOf(log: seq<LogLine>, s: nat): seq<LogLine>
    decreases |log|
  {
    if log == [] then []
    else LinesOf(log[..|log| - 1], s) + if log[|log| - 1].seqNo == s then [log[|log| - 1]] else []
  }

  lemma LinesAppend(log: seq<LogLine>, l: LogLine, s: nat)
    ensures LinesOf(log + [l], s) == LinesOf(log, s) + if l.seqNo == s then [l] else []
  {
    assert (log + [l])[..|log|] == log;
  }

  lemma {:induction false} LinesOfMembers(log: seq<LogLine>, s: nat)
    ensures forall l :: l in LinesOf(log, s) <==> l in log && l.seqNo == s
    ensures IsLogged(log, s) <==> LinesOf(log, s) != []
    decreases |log|
  {
    if log != [] {
      LinesOfMembers(log[..|log| - 1], s);
      assert log == log[..|log| - 1] + [log[|log| - 1]];
    }
    if LinesOf(log, s) != [] {
      assert LinesOf(log, s)[0] in log;
    }
    if IsLogged(log, s) {
      var k :| 0 <= k < |log| && log[k].seqNo == s;
      assert log[k] in LinesOf(log, s);
    }
  }

  /** What the log is once a step is over: at most the line of its own outcome is new,
      and only if the step had none. */
  function LogAfter(req: Request, log: seq<LogLine>, o: Outcome): seq<LogLine> {
    if req.ledger.NoLedger? || IsLogged(log, o.step.seqNo) then log else log + [LineOf(o)]
  }

  /** The line, if there is one, is the last write of the step. */
  ghost predicate LogsLast(req: Request, w: World, trace: seq<World>, o: Outcome) {
    && (forall x | x in trace :: x.log == w.log || x == LastWorld(w, trace))
    && LastWorld(w, trace).log == LogAfter(req, w.log, o)
  }

  lemma ConcludeLogs(req: Request, w: World, o: Outcome)
    ensures LogsLast(req, w, Conclude(req, w, o), o)
  {
  }

  lemma LogsLastAfter(req: Request, w: World, a: seq<World>, v: World, b: seq<World>, o: Outcome)
    requires v == LastWorld(w, a) && v.log == w.log && (forall x | x in a :: x.log == w.log) && LogsLast(req, v, b, o)
    ensures LogsLast(req, w, a + b, o)
  {
    LastOfConcat(w, a, b);
  }

  lemma PerformLogs(req: Request, w: World, step: Step, e: Effect, s: StepRun)
    requires s == Perform(req, w, step, e)
    ensures LogsLast(req, w, s.trace, s.outcome)
  {
    var intended := Intended(w, step);
    var called := Called(intended, step);
    var writes := EstateWrites(called, e.after);
    EstateWritesKeep(called, e.after);
    var written := LastWorld(called, writes);
    var before := [intended, called] + writes;
    LastOfConcat(w, [intended, called], writes);
    assert forall x | x in before :: x.log == w.log;
    ConcludeLogs(req, written, s.outcome);
    LogsLastAfter(req, w, before, written, Conclude(req, written, s.outcome), s.outcome);
  }

  lemma StepLogs(req: Request, steps: seq<Step>, w: World, done: map<nat, JournalRow>, i: nat, outcomes: seq<Outcome>, s: StepRun)
    requires i < |steps| && s == StepAt(req, steps, w, done, i, outcomes)
    ensures s.outcome.step == steps[i] && LogsLast(req, w, s.trace, s.outcome)
  {
    var step := steps[i];
    if i in done {
    } else if IsBlocked(req.plan, step, outcomes) {
      ConcludeLogs(req, w, s.outcome);
    } else if !Covers(req.approval.scope, step.urn, step.action) {
      var v := Intended(w, step);
      ConcludeLogs(req, v, s.outcome);
      LogsLastAfter(req, w, [v], v, Conclude(req, v, s.outcome), s.outcome);
    } else {
      PerformLogs(req, w, step, CallEffect(req, w.disk.content, step), s);
    }
  }

  // --- what the receipts of an attempt say ---------------------------------------

  /** The receipts of `o`'s step when the attempt that reports `o` is over: those it
      started with, or else the line of `o` itself. */
  ghost predicate ReceiptIs(req: Request, was: seq<LogLine>, log: seq<LogLine>, o: Outcome) {
    var s := o.step.seqNo;
    LinesOf(log, s) == if req.ledger.NoLedger? || IsLogged(was, s) then LinesOf(was, s) else [LineOf(o)]
  }

  /** Steps before `k` are reported in `outcomes` and have their receipts; the others
      have those they started with. */
  ghost predicate ReceiptsTo(req: Request, steps: seq<Step>, was: seq<LogLine>, log: seq<LogLine>, k: nat, outcomes: seq<Outcome>) {
    && |outcomes| == k <= |steps|
    && (forall t | 0 <= t < k :: outcomes[t].step == steps[t] && ReceiptIs(req, was, log, outcomes[t]))
    && (forall t: nat | t >= k :: LinesOf(log, t) == LinesOf(was, t))
  }

  lemma StepReceipt(req: Request, steps: seq<Step>, was: seq<LogLine>, log: seq<LogLine>, k: nat, outcomes: seq<Outcome>, o: Outcome)
    requires IsNumbered(steps) && k < |steps| && ReceiptsTo(req, steps, was, log, k, outcomes) && o.step == steps[k]
    ensures ReceiptsTo(req, steps, was, LogAfter(req, log, o), k + 1, outcomes + [o])
  {
    var more, next := LogAfter(req, log, o), outcomes + [o];
    LinesOfMembers(log, k);
    LinesOfMembers(was, k);
    forall t: nat | t != k ensures LinesOf(more, t) == LinesOf(log, t) {
      if more != log { LinesAppend(log, LineOf(o), t); }
    }
    if more != log { LinesAppend(log, LineOf(o), k); }
    assert ReceiptIs(req, was, more, o);
    forall t | 0 <= t < k + 1 ensures next[t].step == steps[t] && ReceiptIs(req, was, more, next[t]) {
      if t < k { assert steps[t].seqNo == t && ReceiptIs(req, was, log, outcomes[t]); }
    }
  }

  lemma LoopReceipts(req: Request, steps: seq<Step>, w: World, done: map<nat, JournalRow>)
    requires IsNumbered(steps)
    ensures var a := Loop(req, steps, w, done, 0, []);
            a.result.Returned? ==> ReceiptsTo(req, steps, w.log, LastWorld(w, a.trace).log, |steps|, a.result.outcomes)
  {
    ghost var was := w.log;
    ghost var inv := (x: World, k: nat, os: seq<Outcome>) => ReceiptsTo(req, steps, was, x.log, k, os);
    ghost var step := (x: World, t: seq<World>) => true;
    ghost var whole := (x: World, a: Attempt) =>
      a.result.Returned? ==> ReceiptsTo(req, steps, was, LastWorld(x, a.trace).log, |steps|, a.result.outcomes);
    forall x: World, k: nat, os: seq<Outcome> ensures StepGoes(req, steps, done, inv, step, x, k, os) {
      if k < |steps| && ReceiptsTo(req, steps, was, x.log, k, os) {
        var s := StepAt(req, steps, x, done, k, os);
        StepLogs(req, steps, x, done, k, os, s);
        StepReceipt(req, steps, was, x.log, k, os, s.outcome);
      }
    }
    forall x: World, t: seq<World>, a: Attempt ensures Joins(step, whole, x, t, a) {
      LastOfConcat(x, t, a.trace);
    }
    LoopTraces(req, steps, done, inv, step, whole, w, 0, []);
  }

  /** What every receipt says when an attempt returns: a step that had a receipt before
      keeps it whatever is reported now, any other has the line of the outcome reported
      for it, or none without a ledger. */
  lemma ReceiptsAreExact(req: Request, w: World)
    requires Run(req, w).result.Returned?
    ensures var outcomes, final := Run(req, w).result.outcomes, LastWorld(w, Run(req, w).trace);
            && |outcomes| == |PlanSteps(req.plan)|
            && forall k | 0 <= k < |outcomes| ::
                 outcomes[k].step == PlanSteps(req.plan)[k] && ReceiptIs(req, w.log, final.log, outcomes[k])
  {
    var begun := Begun(req, w);
    PlanIsNumbered(req.plan);
    RunIsLoop(req, w);
    LoopReceipts(req, PlanSteps(req.plan), begun, DoneRows(begun));
  }

  /** Every receipt of the outcome's step says how the step ended. */
  ghost predicate Tells(log: seq<LogLine>, o: Outcome) {
    forall l | l in log && l.seqNo == o.step.seqNo :: l.status == o.status
  }

  /** So the receipts of a returned attempt tell how its steps ended if and only if those
      it started with already did. */
  lemma ReceiptsTellExactly(req: Request, w: World, o: Outcome)
    requires Run(req, w).result.Returned? && o in Run(req, w).result.outcomes
    ensures Tells(LastWorld(w, Run(req, w).trace).log, o) <==> Tells(w.log, o)
  {
    var final, s := LastWorld(w, Run(req, w).trace), o.step.seqNo;
    ReceiptsAreExact(req, w);
    assert ReceiptIs(req, w.log, final.log, o);
    LinesOfMembers(final.log, s);
    LinesOfMembers(w.log, s);
    LinesDecideTelling(final.log, o);
    LinesDecideTelling(w.log, o);
  }

  lemma LinesDecideTelling(log: seq<LogLine>, o: Outcome)
    ensures Tells(log, o) <==> forall l | l in LinesOf(log, o.step.seqNo) :: l.status == o.status
  {
    LinesOfMembers(log, o.step.seqNo);
  }

  /** No planned step has a receipt that says anything but completed. */
  ghost predicate OnlyCompletions(plan: ImpactPlan, log: seq<LogLine>) {
    forall l | l in log && l.seqNo < |PlanSteps(plan)| :: l.status.Completed?
  }

  /** An attempt that completes every step leaves receipts that say so if and only if
      none it started with says anything else. */
  lemma CompletedReceiptsExactly(req: Request, w: World)
    requires Run(req, w).result.Returned? && forall o | o in Run(req, w).result.outcomes :: o.Succeeded()
    ensures OnlyCompletions(req.plan, LastWorld(w, Run(req, w).trace).log) <==> OnlyCompletions(req.plan, w.log)
  {
    var outcomes, final := Run(req, w).result.outcomes, LastWorld(w, Run(req, w).trace);
    PlanIsNumbered(req.plan);
    ReceiptsAreExact(req, w);
    forall o | o in outcomes ensures Tells(final.log, o) <==> Tells(w.log, o) {
      ReceiptsTellExactly(req, w, o);
    }
    TellingIsCompletion(req.plan, outcomes, final.log);
    TellingIsCompletion(req.plan, outcomes, w.log);
  }

  lemma TellingIsCompletion(plan: ImpactPlan, outcomes: seq<Outcome>, log: seq<LogLine>)
    requires IsNumbered(PlanSteps(plan)) && |outcomes| == |PlanSteps(plan)|
    requires forall k | 0 <= k < |outcomes| :: outcomes[k].step == PlanSteps(plan)[k] && outcomes[k].Succeeded()
    ensures OnlyCompletions(plan, log) <==> forall o | o in outcomes :: Tells(log, o)
  {
    if forall o | o in outcomes :: Tells(log, o) {
      forall l | l in log && l.seqNo < |PlanSteps(plan)| ensures l.status.Completed? {
        assert outcomes[l.seqNo] in outcomes && Tells(log, outcomes[l.seqNo]);
      }
    } else {
      var o :| o in outcomes && !Tells(log, o);
      var k :| 0 <= k < |outcomes| && outcomes[k] == o;
    }
  }

  // --- receipts over histories ------------------------------------------------------

  ghost predicate OneLineEach(log: seq<LogLine>) {
    forall a, b | 0 <= a < b < |log| :: log[a].seqNo != log[b].seqNo
  }

  /** A receipt that says completed is what the journal says, changed flag included. */
  ghost predicate CompletionsHold(x: World) {
    forall l | l in x.log && l.status.Completed? ::
      l.seqNo in x.rows && x.rows[l.seqNo] == JournalRow(l.urn, l.action, Completed, l.changed)
  }

  ghost predicate LogOk(x: World) { OneLineEach(x.log) && CompletionsHold(x) }

  ghost predicate LogsStayOk(trace: seq<World>) {
    forall x | x in trace :: LogOk(x)
  }

  lemma KeptLogOk(w: World, x: World)
    requires LogOk(w) && Keeps(w, x) && x.log == w.log
    ensures LogOk(x)
  {
    forall l | l in x.log && l.status.Completed?
      ensures l.seqNo in x.rows && x.rows[l.seqNo] == JournalRow(l.urn, l.action, Completed, l.changed)
    {
      assert IsDone(w, l.seqNo);
    }
  }

  lemma LoggedOk(w: World, x: World, o: Outcome)
    requires LogOk(w) && Keeps(w, x) && x.log == w.log + [LineOf(o)] && !IsLogged(w.log, o.step.seqNo)
    requires Reflects(x, o.step.seqNo, o)
    ensures LogOk(x)
  {
    KeptLogOk(w, x.(log := w.log));
    forall a, b | 0 <= a < b < |x.log| ensures x.log[a].seqNo != x.log[b].seqNo {
      assert x.log[a] == w.log[a];
    }
    forall l | l in x.log && l.status.Completed?
      ensures l.seqNo in x.rows && x.rows[l.seqNo] == JournalRow(l.urn, l.action, Completed, l.changed)
    {
      if l in w.log { assert IsDone(w, l.seqNo); }
    }
  }

  lemma StepKeepsLogOk(req: Request, steps: seq<Step>, w: World, done: map<nat, JournalRow>, i: nat, outcomes: seq<Outcome>, s: StepRun)
    requires i < |steps| && IsNumbered(steps) && s == StepAt(req, steps, w, done, i, outcomes) && LogOk(w)
    requires SnapshotOk(w, done, i) && !SkipRefused(req, steps, done, i)
    ensures LogsStayOk(s.trace) && LogOk(LastWorld(w, s.trace)) && SnapshotOk(LastWorld(w, s.trace), done, i + 1)
  {
    StepLogs(req, steps, w, done, i, outcomes, s);
    StepKeepsAlong(req, steps, w, done, i, outcomes);
    StepStates(req, steps, w, done, i, outcomes);
    forall x | x in s.trace ensures LogOk(x) {
      var j :| 0 <= j < |s.trace| && s.trace[j] == x;
      KeepsAlongAll(w, s.trace, j);
      if x.log == w.log { KeptLogOk(w, x); } else { LoggedOk(w, x, s.outcome); }
    }
  }

  lemma LoopKeepsLogOk(req: Request, steps: seq<Step>, w: World, done: map<nat, JournalRow>)
    requires IsNumbered(steps) && LogOk(w) && SnapshotOk(w, done, 0)
    ensures LogsStayOk(Loop(req, steps, w, done, 0, []).trace)
  {
    ghost var inv := (x: World, k: nat, os: seq<Outcome>) => LogOk(x) && SnapshotOk(x, done, k);
    ghost var step := (x: World, t: seq<World>) => LogsStayOk(t);
    ghost var whole := (x: World, a: Attempt) => LogsStayOk(a.trace);
    forall x: World, k: nat, os: seq<Outcome> ensures StepGoes(req, steps, done, inv, step, x, k, os) {
      if k < |steps| && LogOk(x) && SnapshotOk(x, done, k) && !SkipRefused(req, steps, done, k) {
        StepKeepsLogOk(req, steps, x, done, k, os, StepAt(req, steps, x, done, k, os));
      }
    }
    forall x: World, os: seq<Outcome> ensures Ends(whole, inv, |steps|, x, os) {
      if LogOk(x) { FinishedLogOk(x); }
    }
    LoopTraces(req, steps, done, inv, step, whole, w, 0, []);
  }

  lemma FinishedLogOk(x: World)
    requires LogOk(x)
    ensures LogOk(Finished(x))
  {
    assert Keeps(x, Finished(x));
    KeptLogOk(x, Finished(x));
  }

  lemma RunKeepsLogOk(req: Request, w: World)
    requires LogOk(w)
    ensures LogsStayOk(Run(req, w).trace)
  {
    var begun := Begun(req, w);
    assert Keeps(w, begun);
    KeptLogOk(w, begun);
    if IsAdmitted(req, w) {
      PlanIsNumbered(req.plan);
      BegunSnapshot(begun);
      RunIsLoop(req, w);
      LoopKeepsLogOk(req, PlanSteps(req.plan), begun, DoneRows(begun));
    }
  }

  lemma HappensKeepsLogOk(w: World, e: HistoryEvent)
    requires LogOk(w)
    ensures LogsStayOk(Happens(w, e)) && LogOk(LastWorld(w, Happens(w, e)))
  {
    match e
    case Drift(c) => KeptLogOk(w, Wrote(w, c));
    case Attempted(req, writes) =>
      RunKeepsLogOk(req, w);
      assert forall x | x in Happens(w, e) :: x in Run(req, w).trace;
  }

  lemma {:induction false} HistoryKeepsLogOk(w: World, events: seq<HistoryEvent>)
    requires LogOk(w)
    ensures LogsStayOk(History(w, events))
    decreases |events|
  {
    if events != [] {
      var first := Happens(w, events[0]);
      HappensKeepsLogOk(w, events[0]);
      HistoryKeepsLogOk(LastWorld(w, first), events[1..]);
      forall x | x in History(w, events) ensures LogOk(x) {
        assert x in first || x in History(LastWorld(w, first), events[1..]);
      }
    }
  }

  /** Over every history of attempts, failures, crashes, resumes and outside changes: no
      durable state has two receipts for a step, and a receipt that says completed is
      true in every one of them.  Whenever an attempt then returns a report with a
      ledger, each planned step has exactly one receipt, and it is the line of what is
      reported or the one the step already had. */
  lemma ReceiptsOverHistory(w: World, events: seq<HistoryEvent>, req: Request)
    requires IsFresh(w)
    ensures LogsStayOk([w] + History(w, events))
    ensures var x := After(w, events);
            var final := LastWorld(x, Run(req, x).trace);
            && LogOk(final)
            && (Run(req, x).result.Returned? && !req.ledger.NoLedger? ==>
                  forall o | o in Run(req, x).result.outcomes ::
                    exists l :: LinesOf(final.log, o.step.seqNo) == [l]
                                && (if IsLogged(x.log, o.step.seqNo) then l in x.log else l == LineOf(o)))
  {
    var x := After(w, events);
    var final := LastWorld(x, Run(req, x).trace);
    HistoryKeepsLogOk(w, events);
    RunKeepsLogOk(req, x);
    if Run(req, x).result.Returned? && !req.ledger.NoLedger? {
      ReceiptsAreExact(req, x);
      forall o | o in Run(req, x).result.outcomes
        ensures exists l :: LinesOf(final.log, o.step.seqNo) == [l]
                            && (if IsLogged(x.log, o.step.seqNo) then l in x.log else l == LineOf(o))
      {
        assert ReceiptIs(req, x.log, final.log, o);
        if IsLogged(x.log, o.step.seqNo) {
          var l := SoleLine(x.log, o.step.seqNo);
        }
      }
    }
  }

  lemma {:induction false} SoleLine(log: seq<LogLine>, s: nat) returns (l: LogLine)
    requires OneLineEach(log) && IsLogged(log, s)
    ensures LinesOf(log, s) == [l] && l in log
    decreases |log|
  {
    var rest := log[..|log| - 1];
    if log[|log| - 1].seqNo == s {
      l := log[|log| - 1];
      LinesOfMembers(rest, s);
      forall k | 0 <= k < |rest| ensures rest[k].seqNo != s { assert rest[k] == log[k]; }
      assert !IsLogged(rest, s);
    } else {
      var k :| 0 <= k < |log| && log[k].seqNo == s;
      assert rest[k].seqNo == s;
      l := SoleLine(rest, s);
    }
  }
}
