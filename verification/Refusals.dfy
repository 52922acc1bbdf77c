/** Every way an attempt is turned away, in the order the checks are made, told from
    the approval, the decisions on record, the run and its rows. */
module Refusals {
  import opened Rights
  import opened Plan
  import opened Approvals
  import Estate
  import opened Execution
  import opened JournalSafety
  import opened JournalState

  // --- before the run is looked at ------------------------------------------------------

  /** The newest decision on record for this plan is the approval the caller brings. */
  ghost predicate IsInForce(req: Request) {
    exists i: nat :: IsNewest(req.store.rows, HashOf(req.plan), i) && req.store.rows[i] == req.approval
  }

  ghost predicate IsApprovedByNewest(req: Request) {
    exists i: nat :: IsNewest(req.store.rows, HashOf(req.plan), i) && req.store.rows[i].verdict == Approved
  }

  ghost function TurnedAwayAtGate(req: Request): Option<Refusal> {
    if req.approval.planHash != HashOf(req.plan) then Some(WrongPlan)
    else if req.approval.verdict != Approved then Some(NotAnApproval)
    else if !IsApprovedByNewest(req) then Some(GateRefused)
    else if !IsInForce(req) then Some(ApprovalSuperseded)
    else if req.ledger == BrokenLedger then Some(LedgerFailed)
    else None
  }

  lemma NewestIsOne(rows: seq<Approval>, h: PlanHash, i: nat, j: nat)
    requires IsNewest(rows, h, i) && IsNewest(rows, h, j)
    ensures i == j
  {
  }

  lemma GateIsExact(req: Request)
    ensures GateRefusal(req) == TurnedAwayAtGate(req)
  {
    var rows, h := req.store.rows, HashOf(req.plan);
    GateAnswers(req.store, req.plan);
    if exists i | 0 <= i < |rows| :: rows[i].planHash == h {
      var i: nat :| IsNewest(rows, h, i)
        && RequireApproval(req.store, req.plan) == if rows[i].verdict == Approved then Ok(rows[i]) else Err(ApprovalRefused);
      forall j: nat | IsNewest(rows, h, j) ensures j == i { NewestIsOne(rows, h, i, j); }
    }
  }

  // --- the run ----------------------------------------------------------------------------

  ghost function InProgressRows(w: World): set<nat> {
    set s | s in w.rows && w.rows[s].status == InProgress
  }

  /** The row is that of the planned step with its number. */
  ghost predicate IsRowOfPlan(req: Request, w: World, s: nat)
    requires s in w.rows
  {
    && s < |PlanSteps(req.plan)|
    && w.rows[s].urn == PlanSteps(req.plan)[s].urn && w.rows[s].action == PlanSteps(req.plan)[s].action
  }

  ghost function TurnedAwayByRun(req: Request, w: World): Option<Refusal> {
    if w.run.Some? && w.run.value.planHash != HashOf(req.plan) then Some(RunOfAnotherPlan)
    else if w.run.Some? && w.run.value.approvalId != req.approval.id then Some(RunOfAnotherApproval)
    else if w.run.Some? && w.run.value.fingerprint != Some(w.disk) && |InProgressRows(w)| != 1 then Some(EstateDrifted)
    else if |InProgressRows(w)| >= 2 then Some(ManyInterrupted)
    else if exists s | s in InProgressRows(w) :: !IsRowOfPlan(req, w, s) then Some(StepMismatch)
    else None
  }

  // --- the completed rows ---------------------------------------------------------------------

  /** A completed row that does not fit: not the plan's, or not approved. */
  ghost predicate IsBadRow(req: Request, w: World, i: nat) {
    && i < |PlanSteps(req.plan)| && i in w.rows && w.rows[i].status == Completed
    && (!IsRowOfPlan(req, w, i) || !Covers(req.approval.scope, PlanSteps(req.plan)[i].urn, PlanSteps(req.plan)[i].action))
  }

  ghost predicate IsFirstBadRow(req: Request, w: World, i: nat) {
    IsBadRow(req, w, i) && forall j: nat | j < i :: !IsBadRow(req, w, j)
  }

  lemma BadRowsAreRefused(req: Request, w: World, i: nat)
    requires i < |PlanSteps(req.plan)|
    ensures SkipRefused(req, PlanSteps(req.plan), DoneRows(w), i) <==> IsBadRow(req, w, i)
  {
  }

  /** The loop from step `i` stops at the first row that does not fit, and otherwise ends. */
  ghost predicate AnswersFrom(req: Request, steps: seq<Step>, done: map<nat, JournalRow>, i: nat, result: RunResult) {
    && (result.Returned? <==> forall k | i <= k < |steps| :: !SkipRefused(req, steps, done, k))
    && (result.Refused? ==> exists k: nat :: i <= k && StopsAt(req, steps, done, i, k, result.reason))
  }

  ghost predicate StopsAt(req: Request, steps: seq<Step>, done: map<nat, JournalRow>, i: nat, k: nat, reason: Refusal) {
    && k < |steps| && SkipRefused(req, steps, done, k) && (forall j | i <= j < k :: !SkipRefused(req, steps, done, j))
    && reason == if Matches(done[k], steps[k]) then OutsideScope else StepMismatch
  }

  lemma AnswersEarlier(req: Request, steps: seq<Step>, done: map<nat, JournalRow>, i: nat, result: RunResult)
    requires i < |steps| && !SkipRefused(req, steps, done, i) && AnswersFrom(req, steps, done, i + 1, result)
    ensures AnswersFrom(req, steps, done, i, result)
  {
    if result.Refused? {
      var k: nat :| i + 1 <= k && StopsAt(req, steps, done, i + 1, k, result.reason);
      assert StopsAt(req, steps, done, i, k, result.reason);
    }
  }

  lemma {:induction false} LoopAnswers(req: Request, steps: seq<Step>, w: World, done: map<nat, JournalRow>, i: nat, outcomes: seq<Outcome>)
    requires i <= |steps|
    ensures AnswersFrom(req, steps, done, i, Loop(req, steps, w, done, i, outcomes).result)
    decreases |steps| - i
  {
    if i < |steps| {
      if SkipRefused(req, steps, done, i) {
        assert StopsAt(req, steps, done, i, i, Loop(req, steps, w, done, i, outcomes).result.reason);
      } else {
        var s := StepAt(req, steps, w, done, i, outcomes);
        LoopAnswers(req, steps, LastWorld(w, s.trace), done, i + 1, outcomes + [s.outcome]);
        AnswersEarlier(req, steps, done, i, Loop(req, steps, w, done, i, outcomes).result);
      }
    }
  }

  lemma RunGetsToTheLoop(req: Request, w: World)
    ensures GateRefusal(req).Some? ==> Run(req, w) == Attempt([], Refused(GateRefusal(req).value))
    ensures GateRefusal(req).None? && TurnedAwayByRun(req, w).Some? ==> Run(req, w).result == Refused(TurnedAwayByRun(req, w).value)
    ensures GateRefusal(req).None? && TurnedAwayByRun(req, w).None? ==>
              Run(req, w).result == Loop(req, PlanSteps(req.plan), Begun(req, w), DoneRows(w), 0, []).result
  {
    assert InProgressRows(w) == Pending(w) == Pending(Begun(req, w)) && DoneRows(Begun(req, w)) == DoneRows(w);
    assert forall s | s in Pending(w) ::
      IsRowOfPlan(req, w, s) <==> !(s >= |PlanSteps(req.plan)| || !Matches(w.rows[s], PlanSteps(req.plan)[s]));
  }

  /** The whole answer: turned away at the gate, by the run or its interrupted rows, or
      at the first completed row that does not fit; and otherwise the attempt returns. */
  lemma AttemptsAreAnswered(req: Request, w: World)
    ensures var result := Run(req, w).result;
            if TurnedAwayAtGate(req).Some? then result == Refused(TurnedAwayAtGate(req).value) && Run(req, w).trace == []
            else if TurnedAwayByRun(req, w).Some? then result == Refused(TurnedAwayByRun(req, w).value)
            else if exists i: nat :: IsBadRow(req, w, i) then
              exists i: nat :: IsFirstBadRow(req, w, i)
                && result == Refused(if IsRowOfPlan(req, w, i) then OutsideScope else StepMismatch)
            else result.Returned?
  {
    var steps, done := PlanSteps(req.plan), DoneRows(w);
    GateIsExact(req);
    RunGetsToTheLoop(req, w);
    if TurnedAwayAtGate(req).None? && TurnedAwayByRun(req, w).None? {
      LoopAnswers(req, steps, Begun(req, w), done, 0, []);
      forall k | 0 <= k < |steps| ensures SkipRefused(req, steps, done, k) <==> IsBadRow(req, w, k) {
        BadRowsAreRefused(req, w, k);
      }
      if Run(req, w).result.Refused? {
        var k: nat :| StopsAt(req, steps, done, 0, k, Run(req, w).result.reason);
        assert IsFirstBadRow(req, w, k);
      }
    }
  }

  // --- the mark of a run that returned ---------------------------------------------------------

  /** No state is marked finished that the attempt did not find so. */
  ghost predicate NoneFinished(trace: seq<World>) {
    forall x | x in trace :: !(x.run.Some? && x.run.value.finished)
  }

  lemma StepLeavesOpen(req: Request, steps: seq<Step>, w: World, done: map<nat, JournalRow>, i: nat, outcomes: seq<Outcome>)
    requires i < |steps| && NoneFinished([w])
    ensures NoneFinished(StepAt(req, steps, w, done, i, outcomes).trace)
  {
    var step, s := steps[i], StepAt(req, steps, w, done, i, outcomes);
    assert w in [w];
    if i !in done {
      if IsBlocked(req.plan, step, outcomes) {
        forall x | x in s.trace ensures NoneFinished([x]) { ConcludeStates(req, w, s.outcome, x); }
        assert forall x | x in s.trace :: x in [x];
      } else if !Covers(req.approval.scope, step.urn, step.action) {
        forall x | x in Conclude(req, Intended(w, step), s.outcome) ensures NoneFinished([x]) {
          ConcludeStates(req, Intended(w, step), s.outcome, x);
        }
        assert forall x | x in s.trace :: x in [x];
      } else {
        PerformLeavesOpen(req, w, step, CallEffect(req, w.disk.content, step));
      }
    }
  }

  lemma PerformLeavesOpen(req: Request, w: World, step: Step, e: Estate.Effect)
    requires NoneFinished([w])
    ensures NoneFinished(Perform(req, w, step, e).trace)
  {
    assert w in [w];
    var called := Called(Intended(w, step), step);
    var writes := EstateWrites(called, e.after);
    EstateWritesKeep(called, e.after);
    var written := LastWorld(called, writes);
    forall x | x in Conclude(req, written, Perform(req, w, step, e).outcome) ensures !(x.run.Some? && x.run.value.finished) {
      ConcludeStates(req, written, Perform(req, w, step, e).outcome, x);
    }
  }

  /** A run not yet finished is marked finished by an attempt that returns, at its very
      end, and by no other. */
  lemma FinishedIsReturned(req: Request, w: World)
    requires !(w.run.Some? && w.run.value.finished)
    ensures var a := Run(req, w);
            if a.result.Returned?
            then a.trace != [] && LastWorld(w, a.trace).run.Some? && LastWorld(w, a.trace).run.value.finished && NoneFinished(a.trace[..|a.trace| - 1])
            else NoneFinished(a.trace)
  {
    var begun, steps := Begun(req, w), PlanSteps(req.plan);
    if IsAdmitted(req, w) {
      var rest := Loop(req, steps, begun, DoneRows(begun), 0, []);
      LoopFinishes(req, steps, begun, DoneRows(begun), 0, []);
      LoopOfRun(req, w);
      OpeningStaysOpen(w, begun, rest);
    }
  }

  lemma OpeningStaysOpen(w: World, begun: World, rest: Attempt)
    requires FinishesAtEnd(begun, rest) && begun.run.Some? && NoneFinished([begun]) && (w.run.Some? ==> begun == w)
    ensures var a := Attempt((if w.run.None? then [begun] else []) + rest.trace, rest.result);
            if a.result.Returned?
            then a.trace != [] && LastWorld(w, a.trace).run.Some? && LastWorld(w, a.trace).run.value.finished && NoneFinished(a.trace[..|a.trace| - 1])
            else NoneFinished(a.trace)
  {
    if w.run.None? {
      FinishesLater(w, [begun], rest);
    } else {
      assert [] + rest.trace == rest.trace;
    }
  }

  lemma LoopOfRun(req: Request, w: World)
    requires IsAdmitted(req, w)
    ensures var begun := Begun(req, w);
            var rest := Loop(req, PlanSteps(req.plan), begun, DoneRows(begun), 0, []);
            Run(req, w) == Attempt((if w.run.None? then [begun] else []) + rest.trace, rest.result)
  {
  }

  ghost predicate FinishesAtEnd(w: World, a: Attempt) {
    if a.result.Returned?
    then a.trace != [] && (LastWorld(w, a.trace).run.Some? ==> LastWorld(w, a.trace).run.value.finished) && NoneFinished(a.trace[..|a.trace| - 1])
         && (w.run.Some? ==> LastWorld(w, a.trace).run.Some?)
    else NoneFinished(a.trace)
  }

  lemma {:induction false} LoopFinishes(req: Request, steps: seq<Step>, w: World, done: map<nat, JournalRow>, i: nat, outcomes: seq<Outcome>)
    requires i <= |steps| && NoneFinished([w])
    ensures FinishesAtEnd(w, Loop(req, steps, w, done, i, outcomes))
    decreases |steps| - i
  {
    if i < |steps| && !SkipRefused(req, steps, done, i) {
      var s := StepAt(req, steps, w, done, i, outcomes);
      var v := LastWorld(w, s.trace);
      StepLeavesOpen(req, steps, w, done, i, outcomes);
      StepStaysOpened(req, steps, w, done, i, outcomes);
      LoopFinishes(req, steps, v, done, i + 1, outcomes + [s.outcome]);
      FinishesLater(w, s.trace, Loop(req, steps, v, done, i + 1, outcomes + [s.outcome]));
    }
  }

  lemma FinishesLater(w: World, trace: seq<World>, rest: Attempt)
    requires NoneFinished(trace) && FinishesAtEnd(LastWorld(w, trace), rest) && (w.run.Some? ==> LastWorld(w, trace).run.Some?)
    ensures FinishesAtEnd(w, Attempt(trace + rest.trace, rest.result))
  {
    LastOfConcat(w, trace, rest.trace);
    if rest.trace != [] {
      assert (trace + rest.trace)[..|trace + rest.trace| - 1] == trace + rest.trace[..|rest.trace| - 1];
    }
  }

  lemma StepStaysOpened(req: Request, steps: seq<Step>, w: World, done: map<nat, JournalRow>, i: nat, outcomes: seq<Outcome>)
    requires i < |steps|
    ensures w.run.Some? ==> LastWorld(w, StepAt(req, steps, w, done, i, outcomes).trace).run.Some?
    ensures NoneFinished([w]) ==> NoneFinished([LastWorld(w, StepAt(req, steps, w, done, i, outcomes).trace)])
  {
    var s := StepAt(req, steps, w, done, i, outcomes);
    if NoneFinished([w]) { StepLeavesOpen(req, steps, w, done, i, outcomes); assert w in [w]; }
    if i !in done {
      if IsBlocked(req.plan, steps[i], outcomes) {
        ConcludeStates(req, w, s.outcome, LastWorld(w, s.trace));
      } else {
        RunStepEnds(req, w, steps[i], outcomes);
        if Covers(req.approval.scope, steps[i].urn, steps[i].action) {
          PerformStates(req, w, steps[i], CallEffect(req, w.disk.content, steps[i]), LastWorld(w, s.trace));
        }
      }
    }
  }
}
