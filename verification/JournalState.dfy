/** The journal between attempts: what its rows mean, which interruptions can be
    resumed, and what a returned report says about them. */
module JournalState {
  import opened Rights
  import opened Plan
  import opened Approvals
  import opened Estate
  import opened Execution
  import opened JournalSafety

  // --- rows follow the plan, dependents follow their predecessors -------------

  ghost predicate RowsMatch(steps: seq<Step>, w: World) {
    forall s | s in w.rows :: s < |steps| && Matches(w.rows[s], steps[s])
  }

  ghost predicate DependsOn(plan: ImpactPlan, steps: seq<Step>, s: nat, t: nat)
    requires s < |steps| && t < |steps|
  {
    t < s && IsDependent(steps[s].action) && Feeds(plan, steps[t].urn, steps[s].urn)
  }

  /** A completed rebuild, retrain or replace has every earlier step on its own
      URN or on an intermediate ancestor completed. */
  ghost predicate DependenciesDone(plan: ImpactPlan, steps: seq<Step>, w: World) {
    forall s, t | 0 <= t < s < |steps| && DependsOn(plan, steps, s, t) && IsDone(w, s) :: IsDone(w, t)
  }

  ghost predicate Journalled(plan: ImpactPlan, steps: seq<Step>, w: World) {
    RowsMatch(steps, w) && DependenciesDone(plan, steps, w)
  }

  /** The journal holds exactly what the outcome says. */
  ghost predicate Reflects(w: World, k: nat, o: Outcome) {
    k in w.rows && w.rows[k] == JournalRow(o.step.urn, o.step.action, o.status, o.changed) && !o.status.InProgress?
  }

  ghost predicate Reflected(steps: seq<Step>, w: World, outcomes: seq<Outcome>) {
    && |outcomes| <= |steps|
    && forall k | 0 <= k < |outcomes| :: outcomes[k].step == steps[k] && Reflects(w, k, outcomes[k])
  }

  /** What a durable state `x` inside step `i` of an attempt looks like. */
  ghost predicate InStep(req: Request, steps: seq<Step>, w: World, done: map<nat, JournalRow>, i: nat, outcomes: seq<Outcome>, o: Outcome, x: World)
    requires i < |steps|
  {
    var step := steps[i];
    && i in x.rows && Matches(x.rows[i], step)
    && (x.rows[i].status.InProgress? || Reflects(x, i, o))
    && (IsDone(x, i) && i !in done ==>
          !IsBlocked(req.plan, step, outcomes) && Covers(req.approval.scope, step.urn, step.action))
    && (x.run.Some? <==> w.run.Some?)
    && (x.run.Some? ==> x.run.value.planHash == w.run.value.planHash && x.run.value.approvalId == w.run.value.approvalId)
    && (i in done ==> x == w.(log := x.log))
    && (i !in done && Reflects(x, i, o) && x.run.Some? ==> x.run.value.fingerprint == Some(x.disk))
  }

  lemma ConcludeStates(req: Request, w: World, o: Outcome, x: World)
    requires x in Conclude(req, w, o)
    ensures x == Recorded(w, o).(log := x.log)
    ensures LastWorld(w, Conclude(req, w, o)) in Conclude(req, w, o)
  {
  }

  /** The same, for the states of the adapter call itself. */
  lemma PerformStates(req: Request, w: World, step: Step, e: Effect, x: World)
    requires x in Perform(req, w, step, e).trace
    ensures step.seqNo in x.rows && Matches(x.rows[step.seqNo], step)
    ensures x.rows[step.seqNo].status.InProgress?
         || (Reflects(x, step.seqNo, Perform(req, w, step, e).outcome)
             && (x.run.Some? ==> x.run.value.fingerprint == Some(x.disk)))
    ensures x.run.Some? <==> w.run.Some?
    ensures x.run.Some? ==> x.run.value.planHash == w.run.value.planHash && x.run.value.approvalId == w.run.value.approvalId
  {
    var called := Called(Intended(w, step), step);
    var writes := EstateWrites(called, e.after);
    var o := Perform(req, w, step, e).outcome;
    EstateWritesKeep(called, e.after);
    var written := LastWorld(called, writes);
    assert written == called.(disk := written.disk);
    if x in Conclude(req, written, o) {
      ConcludeStates(req, written, o, x);
    } else if x in writes {
      assert x == called.(disk := x.disk);
    }
  }

  lemma PerformEnds(req: Request, w: World, step: Step, e: Effect)
    ensures var s := Perform(req, w, step, e);
            s.outcome.step == step && s.trace != [] && Reflects(LastWorld(w, s.trace), step.seqNo, s.outcome)
  {
    var s := Perform(req, w, step, e);
    var called := Called(Intended(w, step), step);
    var writes := EstateWrites(called, e.after);
    var tail := Conclude(req, LastWorld(called, writes), s.outcome);
    assert LastWorld(w, s.trace) == tail[|tail| - 1];
    ConcludeStates(req, LastWorld(called, writes), s.outcome, LastWorld(w, s.trace));
  }

  lemma RunStepStates(req: Request, steps: seq<Step>, w: World, done: map<nat, JournalRow>, i: nat, outcomes: seq<Outcome>, x: World)
    requires i < |steps| && IsNumbered(steps) && i !in done
    requires x in RunStep(req, w, steps[i], outcomes).trace
    ensures InStep(req, steps, w, done, i, outcomes, RunStep(req, w, steps[i], outcomes).outcome, x)
  {
    var step := steps[i];
    var o := RunStep(req, w, step, outcomes).outcome;
    if IsBlocked(req.plan, step, outcomes) {
      ConcludeStates(req, w, o, x);
    } else if !Covers(req.approval.scope, step.urn, step.action) {
      if x in Conclude(req, Intended(w, step), o) {
        ConcludeStates(req, Intended(w, step), o, x);
      }
    } else {
      PerformStates(req, w, step, CallEffect(req, w.disk.content, step), x);
    }
  }

  lemma RunStepEnds(req: Request, w: World, step: Step, outcomes: seq<Outcome>)
    ensures var s := RunStep(req, w, step, outcomes);
            s.outcome.step == step && s.trace != [] && Reflects(LastWorld(w, s.trace), step.seqNo, s.outcome)
  {
    var s := RunStep(req, w, step, outcomes);
    if IsBlocked(req.plan, step, outcomes) {
      ConcludeStates(req, w, s.outcome, LastWorld(w, s.trace));
    } else if !Covers(req.approval.scope, step.urn, step.action) {
      var tail := Conclude(req, Intended(w, step), s.outcome);
      assert LastWorld(w, s.trace) == tail[|tail| - 1];
      ConcludeStates(req, Intended(w, step), s.outcome, LastWorld(w, s.trace));
    } else {
      PerformEnds(req, w, step, CallEffect(req, w.disk.content, step));
    }
  }

  lemma StepStates(req: Request, steps: seq<Step>, w: World, done: map<nat, JournalRow>, i: nat, outcomes: seq<Outcome>)
    requires i < |steps| && IsNumbered(steps) && !SkipRefused(req, steps, done, i)
    requires SnapshotOk(w, done, i)
    ensures var s := StepAt(req, steps, w, done, i, outcomes);
            && s.outcome.step == steps[i]
            && Reflects(LastWorld(w, s.trace), i, s.outcome)
            && forall x | x in s.trace :: InStep(req, steps, w, done, i, outcomes, s.outcome, x)
  {
    var step := steps[i];
    if i in done {
      assert IsDone(w, i) && done[i] == w.rows[i];
    } else {
      RunStepEnds(req, w, step, outcomes);
      forall x | x in RunStep(req, w, step, outcomes).trace
        ensures InStep(req, steps, w, done, i, outcomes, RunStep(req, w, step, outcomes).outcome, x)
      {
        RunStepStates(req, steps, w, done, i, outcomes, x);
      }
    }
  }

  lemma StateKeepsJournal(req: Request, steps: seq<Step>, w: World, done: map<nat, JournalRow>, i: nat, outcomes: seq<Outcome>, o: Outcome, x: World)
    requires i < |steps| && InStep(req, steps, w, done, i, outcomes, o, x) && RowsElsewhere(w, x, i)
    requires i in done <==> IsDone(w, i)
    requires Journalled(req.plan, steps, w) && Reflected(steps, w, outcomes) && |outcomes| == i
    ensures Journalled(req.plan, steps, x)
  {
    forall s, t | 0 <= t < s < |steps| && DependsOn(req.plan, steps, s, t) && IsDone(x, s) ensures IsDone(x, t) {
      if s == i && i !in done {
        assert outcomes[t].Succeeded();
        assert Reflects(w, t, outcomes[t]);
      } else {
        assert IsDone(w, s);
        assert IsDone(w, t);
      }
    }
  }

  lemma MoreReflected(steps: seq<Step>, w: World, v: World, outcomes: seq<Outcome>, o: Outcome)
    requires Reflected(steps, w, outcomes) && |outcomes| < |steps|
    requires RowsElsewhere(w, v, |outcomes|) && o.step == steps[|outcomes|] && Reflects(v, |outcomes|, o)
    ensures Reflected(steps, v, outcomes + [o])
  {
    var more := outcomes + [o];
    forall k | 0 <= k < |more| ensures more[k].step == steps[k] && Reflects(v, k, more[k]) {
      if k < |outcomes| { assert Reflects(w, k, outcomes[k]); }
    }
  }

  /** What a step owes the rest of its attempt. */
  lemma StepContinues(req: Request, steps: seq<Step>, w: World, done: map<nat, JournalRow>, i: nat, outcomes: seq<Outcome>, s: StepRun, v: World)
    requires i < |steps| && IsNumbered(steps) && !SkipRefused(req, steps, done, i) && SnapshotOk(w, done, i)
    requires Journalled(req.plan, steps, w) && Reflected(steps, w, outcomes) && |outcomes| == i
    requires s == StepAt(req, steps, w, done, i, outcomes) && v == LastWorld(w, s.trace)
    ensures forall x | x in s.trace :: Journalled(req.plan, steps, x)
    ensures SnapshotOk(v, done, i + 1) && Journalled(req.plan, steps, v) && Reflected(steps, v, outcomes + [s.outcome])
  {
    StepStates(req, steps, w, done, i, outcomes);
    StepTouchesOwnRow(req, steps, w, done, i, outcomes);
    forall x | x in s.trace ensures Journalled(req.plan, steps, x) {
      StateKeepsJournal(req, steps, w, done, i, outcomes, s.outcome, x);
    }
    MoreReflected(steps, w, v, outcomes, s.outcome);
  }

  /** One attempt keeps the journal well formed at every write, and a returned
      attempt has recorded exactly the outcomes it reports. */
  lemma {:induction false} LoopJournal(req: Request, steps: seq<Step>, w: World, done: map<nat, JournalRow>, i: nat, outcomes: seq<Outcome>)
    requires i <= |steps| && IsNumbered(steps) && SnapshotOk(w, done, i) && Journalled(req.plan, steps, w)
    requires Reflected(steps, w, outcomes) && |outcomes| == i
    ensures forall x | x in Loop(req, steps, w, done, i, outcomes).trace :: Journalled(req.plan, steps, x)
    ensures var a := Loop(req, steps, w, done, i, outcomes);
            && (a.result.Returned? ==>
                  |a.result.outcomes| == |steps|
                  && Reflected(steps, LastWorld(w, a.trace), a.result.outcomes))
            && a.result != Refused(StepMismatch)
    decreases |steps| - i
  {
    if i == |steps| {
      FinishedKeeps(req.plan, steps, w, outcomes);
    } else if SkipRefused(req, steps, done, i) {
      assert IsDone(w, i) && Matches(w.rows[i], steps[i]);
    } else {
      var s := StepAt(req, steps, w, done, i, outcomes);
      var v := LastWorld(w, s.trace);
      StepContinues(req, steps, w, done, i, outcomes, s, v);
      LoopJournal(req, steps, v, done, i + 1, outcomes + [s.outcome]);
      var rest := Loop(req, steps, v, done, i + 1, outcomes + [s.outcome]);
      assert LastWorld(w, s.trace + rest.trace) == LastWorld(v, rest.trace);
    }
  }

  lemma FinishedKeeps(plan: ImpactPlan, steps: seq<Step>, w: World, outcomes: seq<Outcome>)
    requires Journalled(plan, steps, w) && Reflected(steps, w, outcomes)
    ensures Journalled(plan, steps, Finished(w)) && Reflected(steps, Finished(w), outcomes)
  {
    forall k | 0 <= k < |outcomes| ensures Reflects(Finished(w), k, outcomes[k]) {
      assert Reflects(w, k, outcomes[k]);
    }
    assert forall s :: IsDone(Finished(w), s) <==> IsDone(w, s);
  }

  /** For any plan: if this run is that plan's run, its journal is well formed. */
  ghost predicate RunJournalled(plan: ImpactPlan, w: World) {
    && (w.run.None? ==> w.rows == map[])
    && (w.run.Some? && w.run.value.planHash == HashOf(plan) ==> Journalled(plan, PlanSteps(plan), w))
  }

  lemma JournalledUpToHash(p: ImpactPlan, q: ImpactPlan, w: World)
    requires HashOf(p) == HashOf(q)
    ensures Journalled(p, PlanSteps(p), w) <==> Journalled(q, PlanSteps(q), w)
  {
    HashDeterminesExecution(p, q);
    var steps := PlanSteps(p);
    assert forall s: nat, t: nat | s < |steps| && t < |steps| :: DependsOn(p, steps, s, t) <==> DependsOn(q, steps, s, t);
  }

  lemma BegunSnapshot(w: World)
    ensures SnapshotOk(w, DoneRows(w), 0)
  {
  }

  lemma RunKeepsJournal(plan: ImpactPlan, req: Request, w: World, x: World)
    requires RunJournalled(plan, w) && RunJournalled(req.plan, w)
    requires x in Run(req, w).trace
    ensures RunJournalled(plan, x)
  {
    var begun := Begun(req, w);
    var steps := PlanSteps(req.plan);
    PlanIsNumbered(req.plan);
    BegunSnapshot(begun);
    assert Journalled(req.plan, steps, begun);
    if InterruptedRefusal(steps, begun).None? {
      LoopJournal(req, steps, begun, DoneRows(begun), 0, []);
    }
    assert Journalled(req.plan, steps, x);
    RunFixesPlan(req, w, x);
    if HashOf(plan) == HashOf(req.plan) {
      JournalledUpToHash(plan, req.plan, x);
    }
  }

  /** Every state of an attempt belongs to the run of the requested plan. */
  lemma RunFixesPlan(req: Request, w: World, x: World)
    requires x in Run(req, w).trace
    ensures x.run.Some? && x.run.value.planHash == HashOf(req.plan) && x.run.value.approvalId == req.approval.id
  {
    var begun := Begun(req, w);
    var steps := PlanSteps(req.plan);
    if InterruptedRefusal(steps, begun).None? {
      BegunSnapshot(begun);
      PlanIsNumbered(req.plan);
      LoopKeeps(req, steps, begun, DoneRows(begun), 0, []);
      var trace := Loop(req, steps, begun, DoneRows(begun), 0, []).trace;
      if x in trace {
        var j :| 0 <= j < |trace| && trace[j] == x;
        KeepsAlongAll(begun, trace, j);
      }
    }
  }

  /** An admitted attempt is its loop, after the write that opens the run. */
  lemma RunIsLoop(req: Request, w: World)
    requires IsAdmitted(req, w)
    ensures var begun, a := Begun(req, w), Run(req, w);
            var rest := Loop(req, PlanSteps(req.plan), begun, DoneRows(begun), 0, []);
            && a.result == rest.result
            && LastWorld(w, a.trace) == LastWorld(begun, rest.trace)
            && forall x | x in a.trace :: x == begun || x in rest.trace
  {
  }

  lemma HappensKeepsJournal(plan: ImpactPlan, w: World, e: HistoryEvent, x: World)
    requires RunJournalled(plan, w) && (e.Attempted? ==> RunJournalled(e.req.plan, w))
    requires x in Happens(w, e)
    ensures RunJournalled(plan, x)
  {
    match e
    case Drift(c) => assert x == Wrote(w, c);
    case Attempted(req, writes) => RunKeepsJournal(plan, req, w, x);
  }

  /** Over every history that starts with an unused run id: whatever plan the run
      belongs to, every durable state has rows that match that plan's steps and
      dependencies that were completed first. */
  lemma {:induction false} HistoryKeepsJournal(plan: ImpactPlan, w: World, events: seq<HistoryEvent>)
    requires forall p :: RunJournalled(p, w)
    ensures forall x | x in History(w, events) :: RunJournalled(plan, x)
    decreases |events|
  {
    if events != [] {
      var first := Happens(w, events[0]);
      forall x, p | x in first ensures RunJournalled(p, x) {
        assert RunJournalled(p, w);
        HappensKeepsJournal(p, w, events[0], x);
      }
      HistoryKeepsJournal(plan, LastWorld(w, first), events[1..]);
    }
  }

  lemma DependentsFollowPredecessors(plan: ImpactPlan, w: World, events: seq<HistoryEvent>, x: World)
    requires IsFresh(w) && x in History(w, events)
    requires x.run.Some? && x.run.value.planHash == HashOf(plan)
    ensures RowsMatch(PlanSteps(plan), x) && DependenciesDone(plan, PlanSteps(plan), x)
  {
    HistoryKeepsJournal(plan, w, events);
  }

  lemma RunNeverMismatches(req: Request, w: World)
    requires RunJournalled(req.plan, w)
    ensures Run(req, w).result != Refused(StepMismatch)
  {
    if GateRefusal(req).None? && StartRefusal(req, w).None? {
      var begun, steps := Begun(req, w), PlanSteps(req.plan);
      assert Journalled(req.plan, steps, begun);
      assert forall s | s in Pending(begun) :: s < |steps| && Matches(begun.rows[s], steps[s]);
      if InterruptedRefusal(steps, begun).None? {
        PlanIsNumbered(req.plan);
        BegunSnapshot(begun);
        LoopJournal(req, steps, begun, DoneRows(begun), 0, []);
      }
    }
  }

  /** Over every history, whatever is then attempted: neither an interrupted nor a
      completed row is ever found not to match its step. */
  lemma NoRowEverMismatches(w: World, events: seq<HistoryEvent>, req: Request)
    requires IsFresh(w)
    ensures Run(req, After(w, events)).result != Refused(StepMismatch)
  {
    HistoryKeepsJournal(req.plan, w, events);
    RunNeverMismatches(req, After(w, events));
  }
}
