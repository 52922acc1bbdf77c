/** When a step of an attempt runs: the four ways a step can end, told from the
    outcomes before it and the paths of its decision alone. */
module Dependencies {
  import opened Rights
  import opened Plan
  import opened Approvals
  import opened Estate
  import opened Execution
  import opened JournalSafety
  import opened JournalState
  import opened Authorization

  /** `h` lies strictly inside one of the paths of the first decision on `urn`. */
  ghost predicate LiesBetween(plan: ImpactPlan, urn: Urn, h: Urn) {
    exists n | 0 <= n < |plan.decisions| ::
      && plan.decisions[n].urn == urn && (forall m | 0 <= m < n :: plan.decisions[m].urn != urn)
      && exists p | p in plan.decisions[n].paths :: LiesInside(p.hops, h)
  }

  ghost predicate LiesInside(hops: seq<Urn>, h: Urn) {
    exists q | 1 <= q < |hops| - 1 :: hops[q] == h
  }

  /** The step is made from other work, and some of that did not succeed before it. */
  ghost predicate MustWait(plan: ImpactPlan, step: Step, outcomes: seq<Outcome>, i: nat)
    requires i <= |outcomes|
  {
    && step.action in {Rebuild, Retrain, Replace}
    && exists k | 0 <= k < i ::
         && outcomes[k].status != Completed
         && (outcomes[k].step.urn == step.urn || LiesBetween(plan, step.urn, outcomes[k].step.urn))
  }

  /** A call for step `i` after the first `n` calls. */
  ghost predicate CallsFor(calls: seq<Call>, n: nat, i: nat) {
    exists k | n <= k < |calls| :: calls[k].seqNo == i
  }

  // --- the executor's lookups in these terms -----------------------------------------

  lemma {:induction false} FirstDecision(decisions: seq<Decision>, urn: Urn) returns (n: nat)
    requires DecisionFor(decisions, urn).Some?
    ensures n < |decisions| && DecisionFor(decisions, urn) == Some(decisions[n]) && decisions[n].urn == urn
    ensures forall m | 0 <= m < n :: decisions[m].urn != urn
  {
    if decisions[0].urn == urn {
      n := 0;
    } else {
      var k := FirstDecision(decisions[1..], urn);
      n := k + 1;
    }
  }

  lemma {:induction false} SomeDecision(decisions: seq<Decision>, urn: Urn, n: nat)
    requires n < |decisions| && decisions[n].urn == urn
    ensures DecisionFor(decisions, urn).Some?
  {
    if decisions[0].urn != urn {
      SomeDecision(decisions[1..], urn, n - 1);
    }
  }

  lemma InsideIsIntermediate(hops: seq<Urn>, h: Urn)
    ensures LiesInside(hops, h) <==> h in Intermediates(hops)
  {
    if h in Intermediates(hops) {
      var q :| 0 <= q < |hops| - 2 && hops[1..|hops| - 1][q] == h;
      assert hops[q + 1] == h;
    }
    if q :| 1 <= q < |hops| - 1 && hops[q] == h {
      assert hops[1..|hops| - 1][q - 1] == h;
    }
  }

  lemma BetweenIsAncestor(plan: ImpactPlan, urn: Urn, h: Urn)
    ensures LiesBetween(plan, urn, h) <==> h in Ancestors(plan, urn)
  {
    if n :| 0 <= n < |plan.decisions| && plan.decisions[n].urn == urn {
      SomeDecision(plan.decisions, urn, n);
      var first := FirstDecision(plan.decisions, urn);
      InsideSomePath(plan.decisions[first].paths, h);
    } else {
      if DecisionFor(plan.decisions, urn).Some? {
        var first := FirstDecision(plan.decisions, urn);
      }
    }
  }

  lemma InsideSomePath(paths: seq<LineagePath>, h: Urn)
    ensures (exists p | p in paths :: LiesInside(p.hops, h)) <==>
              h in set i, h' | 0 <= i < |paths| && h' in Intermediates(paths[i].hops) :: h'
  {
    forall i | 0 <= i < |paths| ensures LiesInside(paths[i].hops, h) <==> h in Intermediates(paths[i].hops) {
      InsideIsIntermediate(paths[i].hops, h);
    }
    if p :| p in paths && LiesInside(p.hops, h) {
      var i :| 0 <= i < |paths| && paths[i] == p;
    }
  }

  lemma WaitingIsBlocked(plan: ImpactPlan, step: Step, outcomes: seq<Outcome>)
    ensures IsBlocked(plan, step, outcomes) <==> MustWait(plan, step, outcomes, |outcomes|)
  {
    forall k | 0 <= k < |outcomes|
      ensures Feeds(plan, outcomes[k].step.urn, step.urn) <==>
                outcomes[k].step.urn == step.urn || LiesBetween(plan, step.urn, outcomes[k].step.urn)
    {
      BetweenIsAncestor(plan, step.urn, outcomes[k].step.urn);
    }
  }

  // --- one step -----------------------------------------------------------------------

  /** What an outcome says of an adapter call with effect `e`, which raised or not. */
  ghost predicate TellsOfEffect(e: Effect, raised: bool, o: Outcome) {
    match e.status
    case Succeeded => if raised then o.status.Failed? && !o.changed else o.status.Completed? && o.changed == e.changed
    case FailedCall => o.status.Failed? && o.changed == e.changed
    case UnsupportedCall => o.status.Unsupported? && o.changed == e.changed
  }

  ghost predicate TellsOfCall(req: Request, step: Step, i: nat, o: Outcome) {
    && o.step == step && !o.resumed
    && exists c :: TellsOfEffect(req.perform(c, step.urn, step.action), i in req.faults, o)
  }

  /** How a step ended, and whether its adapter was called. */
  ghost predicate EndsAsItShould(req: Request, done: map<nat, JournalRow>, step: Step, i: nat, outcomes: seq<Outcome>, o: Outcome, called: bool)
    requires i <= |outcomes|
  {
    if i in done then o == Outcome(step, Completed, done[i].changed, true) && !called
    else if MustWait(req.plan, step, outcomes, i) then o == Outcome(step, Failed, false, false) && !called
    else if !(step.urn in req.approval.scope && step.action in req.approval.scope[step.urn]) then
      o == Outcome(step, NotApproved, false, false) && !called
    else called && TellsOfCall(req, step, i, o)
  }

  lemma PerformCallsOnce(req: Request, w: World, step: Step, e: Effect)
    ensures LastWorld(w, Perform(req, w, step, e).trace).calls == w.calls + [Call(step.seqNo, step.urn, step.action)]
  {
    var s := Perform(req, w, step, e);
    var called := Called(Intended(w, step), step);
    var writes := EstateWrites(called, e.after);
    EstateWritesKeep(called, e.after);
    var written := LastWorld(called, writes);
    var tail := Conclude(req, written, s.outcome);
    assert LastWorld(w, s.trace) == tail[|tail| - 1];
    ConcludeStates(req, written, s.outcome, tail[|tail| - 1]);
    assert written.calls == called.calls;
  }

  /** One step: its outcome, and the one call it makes or does not make. */
  lemma StepEnds(req: Request, steps: seq<Step>, w: World, done: map<nat, JournalRow>, i: nat, outcomes: seq<Outcome>, s: StepRun)
    requires i < |steps| && IsNumbered(steps) && |outcomes| == i && s == StepAt(req, steps, w, done, i, outcomes)
    ensures var called := LastWorld(w, s.trace).calls != w.calls;
            && EndsAsItShould(req, done, steps[i], i, outcomes, s.outcome, called)
            && (called ==> LastWorld(w, s.trace).calls == w.calls + [Call(i, steps[i].urn, steps[i].action)])
  {
    var step := steps[i];
    WaitingIsBlocked(req.plan, step, outcomes);
    if i in done {
    } else if IsBlocked(req.plan, step, outcomes) {
      ConcludeStates(req, w, s.outcome, LastWorld(w, s.trace));
    } else if !Covers(req.approval.scope, step.urn, step.action) {
      var v := Intended(w, step);
      var tail := Conclude(req, v, s.outcome);
      assert LastWorld(w, s.trace) == tail[|tail| - 1];
      ConcludeStates(req, v, s.outcome, tail[|tail| - 1]);
    } else {
      PerformCallsOnce(req, w, step, CallEffect(req, w.disk.content, step));
      assert TellsOfEffect(req.perform(w.disk.content, step.urn, step.action), i in req.faults, s.outcome);
    }
  }

  // --- a whole attempt -------------------------------------------------------------------

  /** The first `k` steps ended as they should, and only they were called. */
  ghost predicate EndedTo(req: Request, steps: seq<Step>, done: map<nat, JournalRow>, n: nat, x: World, k: nat, outcomes: seq<Outcome>) {
    && |outcomes| == k <= |steps| && n <= |x.calls|
    && (forall i: nat | i < k :: EndsAsItShould(req, done, steps[i], i, outcomes, outcomes[i], CallsFor(x.calls, n, i)))
    && (forall i: nat | i >= k :: !CallsFor(x.calls, n, i))
  }

  lemma WaitsAlike(plan: ImpactPlan, step: Step, outcomes: seq<Outcome>, more: seq<Outcome>, i: nat)
    requires i <= |outcomes| && outcomes <= more
    ensures MustWait(plan, step, outcomes, i) <==> MustWait(plan, step, more, i)
  {
    assert forall k | 0 <= k < i :: more[k] == outcomes[k];
  }

  lemma OneCallMore(calls: seq<Call>, n: nat, c: Call, i: nat)
    requires n <= |calls|
    ensures CallsFor(calls + [c], n, i) <==> CallsFor(calls, n, i) || c.seqNo == i
  {
    var more := calls + [c];
    if CallsFor(calls, n, i) {
      var k :| n <= k < |calls| && calls[k].seqNo == i;
      assert more[k].seqNo == i;
    }
    if c.seqNo == i { assert more[|calls|].seqNo == i; }
  }

  lemma EndedGoesOn(req: Request, steps: seq<Step>, done: map<nat, JournalRow>, n: nat, w: World, k: nat, outcomes: seq<Outcome>, s: StepRun)
    requires k < |steps| && IsNumbered(steps) && EndedTo(req, steps, done, n, w, k, outcomes)
    requires s == StepAt(req, steps, w, done, k, outcomes)
    ensures EndedTo(req, steps, done, n, LastWorld(w, s.trace), k + 1, outcomes + [s.outcome])
  {
    var v, more := LastWorld(w, s.trace), outcomes + [s.outcome];
    StepEnds(req, steps, w, done, k, outcomes, s);
    forall i: nat ensures CallsFor(v.calls, n, i) <==> CallsFor(w.calls, n, i) || (i == k && v.calls != w.calls) {
      if v.calls != w.calls { OneCallMore(w.calls, n, Call(k, steps[k].urn, steps[k].action), i); }
    }
    forall i: nat | i < k + 1
      ensures EndsAsItShould(req, done, steps[i], i, more, more[i], CallsFor(v.calls, n, i))
    {
      WaitsAlike(req.plan, steps[i], outcomes, more, i);
    }
  }

  lemma LoopEndsAsItShould(req: Request, steps: seq<Step>, w: World, done: map<nat, JournalRow>)
    requires IsNumbered(steps)
    ensures var a := Loop(req, steps, w, done, 0, []);
            a.result.Returned? ==> EndedTo(req, steps, done, |w.calls|, LastWorld(w, a.trace), |steps|, a.result.outcomes)
  {
    ghost var n := |w.calls|;
    ghost var inv := (x: World, k: nat, os: seq<Outcome>) => EndedTo(req, steps, done, n, x, k, os);
    ghost var step := (x: World, t: seq<World>) => true;
    ghost var whole := (x: World, a: Attempt) =>
      a.result.Returned? ==> EndedTo(req, steps, done, n, LastWorld(x, a.trace), |steps|, a.result.outcomes);
    forall x: World, k: nat, os: seq<Outcome> ensures StepGoes(req, steps, done, inv, step, x, k, os) {
      if k < |steps| && EndedTo(req, steps, done, n, x, k, os) {
        EndedGoesOn(req, steps, done, n, x, k, os, StepAt(req, steps, x, done, k, os));
      }
    }
    forall x: World, t: seq<World>, a: Attempt ensures Joins(step, whole, x, t, a) {
      LastOfConcat(x, t, a.trace);
    }
    assert EndedTo(req, steps, done, n, w, 0, []);
    LoopTraces(req, steps, done, inv, step, whole, w, 0, []);
  }

  /** Every step of a returned attempt that was not completed before ends in one of
      three ways: failed without a call exactly if it is a rebuild, retrain or replace
      and an earlier step on its own URN or strictly inside a path of its decision did
      not succeed; not approved without a call exactly if that is not so and the
      approval does not cover it; and otherwise it is called. */
  lemma StepsEndAsTheyShould(req: Request, w: World, i: nat)
    requires Run(req, w).result.Returned? && i < |PlanSteps(req.plan)|
    ensures var outcomes, final := Run(req, w).result.outcomes, LastWorld(w, Run(req, w).trace);
            && |outcomes| == |PlanSteps(req.plan)|
            && EndsAsItShould(req, DoneRows(w), PlanSteps(req.plan)[i], i, outcomes, outcomes[i], CallsFor(final.calls, |w.calls|, i))
  {
    var begun := Begun(req, w);
    PlanIsNumbered(req.plan);
    RunIsLoop(req, w);
    LoopEndsAsItShould(req, PlanSteps(req.plan), begun, DoneRows(begun));
    assert DoneRows(begun) == DoneRows(w);
  }

  lemma FinalState(req: Request, w: World)
    requires Run(req, w).result.Returned?
    ensures LastWorld(w, Run(req, w).trace) in Run(req, w).trace
  {
    var begun := Begun(req, w);
    RunIsLoop(req, w);
    LoopLeavesTrace(req, PlanSteps(req.plan), begun, DoneRows(begun), 0, []);
  }

  lemma {:induction false} LoopLeavesTrace(req: Request, steps: seq<Step>, w: World, done: map<nat, JournalRow>, i: nat, outcomes: seq<Outcome>)
    requires i <= |steps| && Loop(req, steps, w, done, i, outcomes).result.Returned?
    ensures Loop(req, steps, w, done, i, outcomes).trace != []
    decreases |steps| - i
  {
    if i < |steps| {
      var s := StepAt(req, steps, w, done, i, outcomes);
      LoopLeavesTrace(req, steps, LastWorld(w, s.trace), done, i + 1, outcomes + [s.outcome]);
    }
  }

  ghost predicate ShowsCall(trace: seq<World>, n: nat, i: nat) {
    exists x | x in trace :: CallsFor(x.calls, n, i)
  }

  lemma LastShowsCalls(w: World, trace: seq<World>, n: nat, i: nat)
    requires trace != [] && KeepsAlong(w, trace)
    ensures ShowsCall(trace, n, i) <==> CallsFor(LastWorld(w, trace).calls, n, i)
  {
    var final := trace[|trace| - 1];
    assert final in trace;
    forall x | x in trace && CallsFor(x.calls, n, i) ensures CallsFor(final.calls, n, i) {
      var j :| 0 <= j < |trace| && trace[j] == x;
      if j < |trace| - 1 { KeepsAlongBetween(w, trace, j, |trace| - 1); }
      var k :| n <= k < |x.calls| && x.calls[k].seqNo == i;
      assert final.calls[k] == x.calls[k];
    }
  }

  /** So the states of a returned attempt show a call for an approved step that was not
      completed before if and only if nothing it is made from failed. */
  lemma CalledExactly(req: Request, w: World, i: nat)
    requires Run(req, w).result.Returned? && i < |PlanSteps(req.plan)| && !IsDone(w, i)
    requires Covers(req.approval.scope, PlanSteps(req.plan)[i].urn, PlanSteps(req.plan)[i].action)
    ensures var outcomes := Run(req, w).result.outcomes;
            && |outcomes| == |PlanSteps(req.plan)|
            && (ShowsCall(Run(req, w).trace, |w.calls|, i) <==> !MustWait(req.plan, PlanSteps(req.plan)[i], outcomes, i))
            && (MustWait(req.plan, PlanSteps(req.plan)[i], outcomes, i) ==> outcomes[i].status.Failed? && !outcomes[i].changed)
  {
    StepsEndAsTheyShould(req, w, i);
    FinalState(req, w);
    RunKeeps(req, w);
    LastShowsCalls(w, Run(req, w).trace, |w.calls|, i);
  }
}
