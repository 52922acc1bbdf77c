/** Which interruptions can be resumed. */
module ResumeAdmission {
  import opened Ordering
  import opened Rights
  import opened Plan
  import opened Approvals
  import opened Estate
  import opened Execution
  import opened JournalSafety
  import opened JournalState

  // --- pending rows during one attempt ----------------------------------------

  function Ahead(pending: set<nat>, i: nat): set<nat> {
    set s | s in pending && s >= i
  }

  /** While an attempt is at step `j`, the pending rows are `j` at most and those
      of the interrupted rows it has not come to yet. */
  ghost predicate PendingAt(before: set<nat>, x: World, j: nat) {
    Ahead(before, j + 1) <= Pending(x) <= Ahead(before, j + 1) + {j}
  }

  /** With nothing pending, the stored fingerprint is that of the estate. */
  ghost predicate CheckpointOk(x: World) {
    x.run.Some? && Pending(x) == {} ==> x.run.value.fingerprint == Some(x.disk)
  }

  /** A state of step `i` seen from the pending rows. */
  ghost predicate PendingInStep(before: set<nat>, done: map<nat, JournalRow>, x: World, i: nat) {
    PendingAt(before, x, i) && CheckpointOk(x) && (i in Pending(x) ==> i !in done)
  }

  lemma StatePending(req: Request, steps: seq<Step>, w: World, done: map<nat, JournalRow>, i: nat, outcomes: seq<Outcome>, o: Outcome, x: World, before: set<nat>)
    requires i < |steps| && InStep(req, steps, w, done, i, outcomes, o, x) && RowsElsewhere(w, x, i)
    requires Pending(w) == Ahead(before, i) && CheckpointOk(w)
    requires i in done <==> IsDone(w, i)
    ensures PendingInStep(before, done, x, i)
    ensures Reflects(x, i, o) ==> Pending(x) == Ahead(before, i + 1)
  {
    assert forall t | t != i :: t in Pending(x) <==> t in Pending(w);
    assert Pending(x) - {i} == Ahead(before, i + 1);
    if i in done {
      assert Pending(x) == Pending(w);
    } else if x.rows[i].status.InProgress? {
      assert i in Pending(x);
    }
  }

  lemma StepPending(req: Request, steps: seq<Step>, w: World, done: map<nat, JournalRow>, i: nat, outcomes: seq<Outcome>, before: set<nat>, s: StepRun)
    requires i < |steps| && IsNumbered(steps) && !SkipRefused(req, steps, done, i) && SnapshotOk(w, done, i)
    requires Pending(w) == Ahead(before, i) && CheckpointOk(w)
    requires s == StepAt(req, steps, w, done, i, outcomes)
    ensures Pending(LastWorld(w, s.trace)) == Ahead(before, i + 1)
    ensures CheckpointOk(LastWorld(w, s.trace)) && SnapshotOk(LastWorld(w, s.trace), done, i + 1)
    ensures forall x | x in s.trace :: PendingInStep(before, done, x, i)
  {
    StepStates(req, steps, w, done, i, outcomes);
    StepTouchesOwnRow(req, steps, w, done, i, outcomes);
    forall x | x in s.trace
      ensures PendingInStep(before, done, x, i)
      ensures Reflects(x, i, s.outcome) ==> Pending(x) == Ahead(before, i + 1)
    {
      assert InStep(req, steps, w, done, i, outcomes, s.outcome, x);
      StatePending(req, steps, w, done, i, outcomes, s.outcome, x, before);
    }
    if s.trace == [] {
      assert i !in Pending(w);
      assert Ahead(before, i) == Ahead(before, i + 1);
    }
  }

  /** A state of some step, seen from the pending rows. */
  ghost predicate PendingSomewhere(before: set<nat>, done: map<nat, JournalRow>, x: World) {
    exists j: nat :: PendingInStep(before, done, x, j)
  }

  ghost predicate PendingAlong(before: set<nat>, done: map<nat, JournalRow>, trace: seq<World>) {
    forall x | x in trace :: PendingSomewhere(before, done, x)
  }

  /** What is pending when the loop comes to step `k`. */
  ghost predicate PendingBefore(before: set<nat>, done: map<nat, JournalRow>, x: World, k: nat) {
    SnapshotOk(x, done, k) && Pending(x) == Ahead(before, k) && CheckpointOk(x)
  }

  ghost predicate PendingThrough(before: set<nat>, done: map<nat, JournalRow>, w: World, a: Attempt) {
    PendingAlong(before, done, a.trace) && (a.result.Returned? ==> Pending(LastWorld(w, a.trace)) == {})
  }

  lemma LoopPending(req: Request, steps: seq<Step>, w: World, done: map<nat, JournalRow>, before: set<nat>)
    requires IsNumbered(steps) && PendingBefore(before, done, w, 0)
    requires forall s | s in before :: s < |steps|
    ensures PendingThrough(before, done, w, Loop(req, steps, w, done, 0, []))
  {
    ghost var inv := (x: World, k: nat, os: seq<Outcome>) => PendingBefore(before, done, x, k);
    ghost var step := (x: World, t: seq<World>) => PendingAlong(before, done, t);
    ghost var whole := (x: World, a: Attempt) => PendingThrough(before, done, x, a);
    forall x: World, k: nat, os: seq<Outcome> ensures StepGoes(req, steps, done, inv, step, x, k, os) {
      if k < |steps| && PendingBefore(before, done, x, k) && !SkipRefused(req, steps, done, k) {
        StepPending(req, steps, x, done, k, os, before, StepAt(req, steps, x, done, k, os));
      }
    }
    forall x: World, t: seq<World>, a: Attempt ensures Joins(step, whole, x, t, a) {
      LastOfConcat(x, t, a.trace);
    }
    forall x: World, os: seq<Outcome> ensures Ends(whole, inv, |steps|, x, os) {
      if PendingBefore(before, done, x, |steps|) { FinishPending(x, done, |steps|, before); }
    }
    LoopTraces(req, steps, done, inv, step, whole, w, 0, []);
  }

  lemma FinishPending(w: World, done: map<nat, JournalRow>, i: nat, before: set<nat>)
    requires Pending(w) == Ahead(before, i) && CheckpointOk(w)
    requires forall s | s in before :: s < i
    ensures PendingInStep(before, done, Finished(w), i) && Pending(Finished(w)) == {}
  {
    assert Pending(Finished(w)) == Pending(w) == {};
  }

  lemma SmallSets(before: set<nat>, x: World, j: nat)
    requires |before| <= 1 && PendingAt(before, x, j)
    ensures |Pending(x)| <= 2
    ensures |Pending(x)| == 2 ==> exists p :: before == {p} && j < p && Pending(x) == {j, p}
  {
    if p :| p in before {
      assert |before - {p}| == 0;
      assert before == {p};
      if p <= j {
        assert Ahead(before, j + 1) == {};
        SubsetCount(Pending(x), {j});
      } else {
        assert Ahead(before, j + 1) == {p};
        SubsetCount(Pending(x), {j, p});
        if |Pending(x)| == 2 {
          SubsetFull(Pending(x), {j, p});
        }
      }
    } else {
      assert Pending(x) <= {j};
      SubsetCount(Pending(x), {j});
    }
  }

  lemma SubsetFull(a: set<nat>, b: set<nat>)
    requires a <= b && |a| == |b|
    ensures a == b
  {
    if b - a != {} {
      var x :| x in b - a;
      SubsetCount(a, b - {x});
    }
  }

  // --- admission ------------------------------------------------------------

  /** What the requester of a resume holds fixed: it is this plan's run under this
      approval, and the approval covers what has been completed so far. */
  ghost predicate OwnRun(req: Request, w: World) {
    && RunJournalled(req.plan, w)
    && (w.run.Some? ==> w.run.value.planHash == HashOf(req.plan) && w.run.value.approvalId == req.approval.id)
    && CoveredDone(req, PlanSteps(req.plan), w)
  }

  ghost predicate CoveredDone(req: Request, steps: seq<Step>, w: World) {
    forall s: nat | IsDone(w, s) && s < |steps| ::
      Covers(req.approval.scope, steps[s].urn, steps[s].action)
  }

  lemma NoSkipRefused(req: Request, steps: seq<Step>, w: World)
    requires RowsMatch(steps, w) && CoveredDone(req, steps, w)
    ensures forall i | 0 <= i < |steps| :: !SkipRefused(req, steps, DoneRows(w), i)
  {
    forall i | 0 <= i < |steps| ensures !SkipRefused(req, steps, DoneRows(w), i) {
      if i in DoneRows(w) {
        assert IsDone(w, i);
      }
    }
  }

  lemma {:induction false} LoopReturns(req: Request, steps: seq<Step>, w: World, done: map<nat, JournalRow>, i: nat, outcomes: seq<Outcome>)
    requires i <= |steps|
    requires forall k | 0 <= k < |steps| :: !SkipRefused(req, steps, done, k)
    ensures Loop(req, steps, w, done, i, outcomes).result.Returned?
    decreases |steps| - i
  {
    if i < |steps| {
      var s := StepAt(req, steps, w, done, i, outcomes);
      LoopReturns(req, steps, LastWorld(w, s.trace), done, i + 1, outcomes + [s.outcome]);
    }
  }

  lemma BegunIsOwn(req: Request, w: World)
    requires OwnRun(req, w)
    ensures OwnRun(req, Begun(req, w)) && Begun(req, w).run.Some? && RowsMatch(PlanSteps(req.plan), Begun(req, w))
    ensures Pending(Begun(req, w)) == Pending(w)
    ensures forall s :: IsDone(Begun(req, w), s) <==> IsDone(w, s)
    ensures w.run.None? ==> Pending(w) == {} && CheckpointOk(Begun(req, w))
  {
    if w.run.None? { assert Pending(w) == {}; }
  }

  lemma EmptyPending(w: World)
    ensures |Pending(w)| == 0 <==> Pending(w) == {}
  {
  }

  /** On its own run, an attempt is admitted exactly when at most one row is
      pending and, if none is, the estate is as the journal last saw it; an
      admitted attempt always runs to its report. */
  lemma AdmissionCondition(req: Request, w: World)
    requires OwnRun(req, w) && GateRefusal(req).None?
    ensures IsAdmitted(req, w) <==> |Pending(w)| <= 1 && (|Pending(w)| == 1 || CheckpointOk(w))
    ensures Run(req, w).result.Returned? <==> IsAdmitted(req, w)
  {
    var begun := Begun(req, w);
    var steps := PlanSteps(req.plan);
    BegunIsOwn(req, w);
    EmptyPending(w);
    assert forall s | s in Pending(begun) :: s < |steps| && Matches(begun.rows[s], steps[s]);
    if IsAdmitted(req, w) {
      NoSkipRefused(req, steps, begun);
      LoopReturns(req, steps, begun, DoneRows(begun), 0, []);
    }
  }

  lemma StepCovers(req: Request, steps: seq<Step>, w: World, done: map<nat, JournalRow>, i: nat, outcomes: seq<Outcome>, x: World)
    requires i < |steps| && IsNumbered(steps) && !SkipRefused(req, steps, done, i) && SnapshotOk(w, done, i)
    requires CoveredDone(req, steps, w) && x in StepAt(req, steps, w, done, i, outcomes).trace
    ensures CoveredDone(req, steps, x)
  {
    StepStates(req, steps, w, done, i, outcomes);
    StepTouchesOwnRow(req, steps, w, done, i, outcomes);
    assert InStep(req, steps, w, done, i, outcomes, StepAt(req, steps, w, done, i, outcomes).outcome, x);
    forall s: nat | IsDone(x, s) && s < |steps|
      ensures Covers(req.approval.scope, steps[s].urn, steps[s].action)
    {
      if s != i || i in done { assert IsDone(w, s); }
    }
  }

  ghost predicate AllCovered(req: Request, steps: seq<Step>, trace: seq<World>) {
    forall x | x in trace :: CoveredDone(req, steps, x)
  }

  lemma StepAllCovered(req: Request, steps: seq<Step>, w: World, done: map<nat, JournalRow>, i: nat, outcomes: seq<Outcome>)
    requires i < |steps| && IsNumbered(steps) && !SkipRefused(req, steps, done, i) && SnapshotOk(w, done, i)
    requires CoveredDone(req, steps, w)
    ensures var s := StepAt(req, steps, w, done, i, outcomes);
            AllCovered(req, steps, s.trace) && CoveredDone(req, steps, LastWorld(w, s.trace))
  {
    forall x | x in StepAt(req, steps, w, done, i, outcomes).trace ensures CoveredDone(req, steps, x) {
      StepCovers(req, steps, w, done, i, outcomes, x);
    }
  }

  lemma LoopCovers(req: Request, steps: seq<Step>, w: World, done: map<nat, JournalRow>)
    requires IsNumbered(steps) && SnapshotOk(w, done, 0) && CoveredDone(req, steps, w)
    ensures AllCovered(req, steps, Loop(req, steps, w, done, 0, []).trace)
  {
    ghost var inv := (x: World, k: nat, os: seq<Outcome>) => SnapshotOk(x, done, k) && CoveredDone(req, steps, x);
    ghost var step := (x: World, t: seq<World>) => AllCovered(req, steps, t);
    ghost var whole := (x: World, a: Attempt) => AllCovered(req, steps, a.trace);
    forall x: World, k: nat, os: seq<Outcome> ensures StepGoes(req, steps, done, inv, step, x, k, os) {
      if k < |steps| && inv(x, k, os) && !SkipRefused(req, steps, done, k) {
        StepAllCovered(req, steps, x, done, k, os);
        StepKeepsAlong(req, steps, x, done, k, os);
      }
    }
    forall x: World, os: seq<Outcome> ensures Ends(whole, inv, |steps|, x, os) {
      assert forall s :: IsDone(Finished(x), s) <==> IsDone(x, s);
    }
    LoopTraces(req, steps, done, inv, step, whole, w, 0, []);
  }

  lemma RunStaysOwn(req: Request, w: World)
    requires OwnRun(req, w)
    ensures forall x | x in Run(req, w).trace :: OwnRun(req, x)
  {
    var begun := Begun(req, w);
    var steps := PlanSteps(req.plan);
    BegunSnapshot(begun);
    PlanIsNumbered(req.plan);
    BegunIsOwn(req, w);
    if InterruptedRefusal(steps, begun).None? {
      LoopCovers(req, steps, begun, DoneRows(begun));
    }
    forall x | x in Run(req, w).trace ensures OwnRun(req, x) {
      RunKeepsJournal(req.plan, req, w, x);
      RunFixesPlan(req, w, x);
    }
  }

  /** Seen from an admitted start: nothing new pending, or one row of an
      unfinished step at or before the interrupted one. */
  ghost predicate PendingSince(w: World, x: World) {
    && CheckpointOk(x)
    && (Pending(x) == Pending(w) || exists j: nat :: PendingAt(Pending(w), x, j) && (j in Pending(x) ==> !IsDone(w, j)))
  }

  lemma BegunPending(req: Request, steps: seq<Step>, w: World, rest: Attempt)
    requires IsNumbered(steps) && RowsMatch(steps, w) && CoveredDone(req, steps, w) && CheckpointOk(w)
    requires rest == Loop(req, steps, w, DoneRows(w), 0, [])
    ensures forall x | x in rest.trace :: PendingSince(w, x)
    ensures Pending(LastWorld(w, rest.trace)) == {}
  {
    var done := DoneRows(w);
    BegunSnapshot(w);
    assert Pending(w) == Ahead(Pending(w), 0);
    LoopPending(req, steps, w, done, Pending(w));
    forall x | x in rest.trace ensures PendingSince(w, x) {
      assert PendingSomewhere(Pending(w), done, x);
      var j :| 0 <= j && PendingInStep(Pending(w), done, x, j);
      assert PendingAt(Pending(w), x, j) && (j in Pending(x) ==> !IsDone(w, j));
    }
    NoSkipRefused(req, steps, w);
    LoopReturns(req, steps, w, done, 0, []);
  }

  lemma RunPending(req: Request, w: World)
    requires OwnRun(req, w) && IsAdmitted(req, w)
    ensures |Pending(w)| <= 1
    ensures forall x | x in Run(req, w).trace :: PendingSince(w, x)
    ensures Pending(LastWorld(w, Run(req, w).trace)) == {}
  {
    AdmissionCondition(req, w);
    BegunIsOwn(req, w);
    var begun := Begun(req, w);
    var steps := PlanSteps(req.plan);
    PlanIsNumbered(req.plan);
    EmptyPending(w);
    var rest := Loop(req, steps, begun, DoneRows(begun), 0, []);
    BegunPending(req, steps, begun, rest);
    RunIsLoop(req, w);
    forall x | x in Run(req, w).trace ensures PendingSince(w, x) {
      if x != begun { SincePasses(w, begun, x); }
    }
  }

  lemma SincePasses(w: World, begun: World, x: World)
    requires PendingSince(begun, x) && Pending(begun) == Pending(w)
    requires forall s :: IsDone(begun, s) <==> IsDone(w, s)
    ensures PendingSince(w, x)
  {
  }

  ghost predicate HasEarlierUnfinished(w: World) {
    exists p: nat, j: nat | p in Pending(w) :: j < p && !IsDone(w, j)
  }

  lemma TwoPendingNeedsEarlier(w: World, x: World)
    requires |Pending(w)| <= 1 && PendingSince(w, x)
    ensures |Pending(x)| <= 2
    ensures |Pending(x)| == 2 ==> HasEarlierUnfinished(w)
  {
    if Pending(x) != Pending(w) {
      var j: nat :| PendingAt(Pending(w), x, j) && (j in Pending(x) ==> !IsDone(w, j));
      SmallSets(Pending(w), x, j);
      if |Pending(x)| == 2 {
        var p :| Pending(w) == {p} && j < p && Pending(x) == {j, p};
        assert p in Pending(w) && j in Pending(x);
      }
    }
  }

  /** An admitted attempt never has more than two rows pending, and it returns
      with none; two are pending only inside a step before the interrupted one. */
  lemma AttemptPendingBound(req: Request, w: World)
    requires OwnRun(req, w) && IsAdmitted(req, w)
    ensures |Pending(w)| <= 1
    ensures forall x | x in Run(req, w).trace :: |Pending(x)| <= 2
    ensures forall x | x in Run(req, w).trace && |Pending(x)| == 2 :: HasEarlierUnfinished(w)
    ensures Pending(LastWorld(w, Run(req, w).trace)) == {}
  {
    RunPending(req, w);
    forall x | x in Run(req, w).trace
      ensures |Pending(x)| <= 2
      ensures |Pending(x)| == 2 ==> HasEarlierUnfinished(w)
    {
      TwoPendingNeedsEarlier(w, x);
    }
  }

  // --- when an interruption cannot be resumed -----------------------------------

  lemma UnblockedStepBegins(req: Request, w: World, step: Step, outcomes: seq<Outcome>)
    requires !IsBlocked(req.plan, step, outcomes)
    ensures Intended(w, step) in RunStep(req, w, step, outcomes).trace
  {
    assert RunStep(req, w, step, outcomes).trace[0] == Intended(w, step);
  }

  lemma SkipGoesOn(req: Request, w: World, step: Step, row: JournalRow, s: StepRun)
    requires s == SkipStep(req, w, step, row)
    ensures LastWorld(w, s.trace).rows == w.rows && s.outcome.Succeeded()
  {
  }

  /** The first unfinished step always begins, whatever happened before. */
  lemma {:induction false} FirstUnfinishedBegins(req: Request, steps: seq<Step>, w: World, done: map<nat, JournalRow>, i: nat, j: nat, outcomes: seq<Outcome>)
    returns (x: World)
    requires i <= j < |steps| && IsNumbered(steps) && j !in done
    requires forall k | 0 <= k < |steps| :: !SkipRefused(req, steps, done, k)
    requires forall k | i <= k < j :: k in done
    requires forall k | 0 <= k < |outcomes| :: outcomes[k].Succeeded()
    ensures x in Loop(req, steps, w, done, i, outcomes).trace
    ensures x.rows == w.rows[j := JournalRow(steps[j].urn, steps[j].action, InProgress, false)]
    decreases j - i
  {
    var s := StepAt(req, steps, w, done, i, outcomes);
    if i == j {
      x := Intended(w, steps[j]);
      UnblockedStepBegins(req, w, steps[j], outcomes);
    } else {
      SkipGoesOn(req, w, steps[i], done[i], s);
      x := FirstUnfinishedBegins(req, steps, LastWorld(w, s.trace), done, i + 1, j, outcomes + [s.outcome]);
    }
  }

  lemma LeastUnfinished(w: World, p: nat, j: nat) returns (first: nat)
    requires j < p && !IsDone(w, j)
    ensures first < p && !IsDone(w, first) && forall k | 0 <= k < first :: IsDone(w, k)
  {
    first := 0;
    while IsDone(w, first)
      invariant first <= j && forall k | 0 <= k < first :: IsDone(w, k)
      decreases j - first
    {
      first := first + 1;
    }
  }

  lemma EarlierUnfinishedBlocksResume(req: Request, w: World) returns (x: World)
    requires OwnRun(req, w) && IsAdmitted(req, w) && HasEarlierUnfinished(w)
    ensures x in Run(req, w).trace && !IsAdmitted(req, x)
  {
    var p: nat, j: nat :| p in Pending(w) && j < p && !IsDone(w, j);
    BegunIsOwn(req, w);
    var begun := Begun(req, w);
    var first := LeastUnfinished(begun, p, j);
    PlanIsNumbered(req.plan);
    x := FirstUnfinishedInLoop(req, PlanSteps(req.plan), begun, p, first);
    RunStaysOwn(req, w);
    AdmissionCondition(req, x);
  }

  lemma FirstUnfinishedInLoop(req: Request, steps: seq<Step>, w: World, p: nat, first: nat) returns (x: World)
    requires IsNumbered(steps) && RowsMatch(steps, w) && CoveredDone(req, steps, w)
    requires p in Pending(w) && first < p && !IsDone(w, first) && forall k | 0 <= k < first :: IsDone(w, k)
    ensures x in Loop(req, steps, w, DoneRows(w), 0, []).trace && |Pending(x)| >= 2
  {
    NoSkipRefused(req, steps, w);
    forall k | 0 <= k < first ensures k in DoneRows(w) { assert IsDone(w, k); }
    x := FirstUnfinishedBegins(req, steps, w, DoneRows(w), 0, first, []);
    assert {first, p} <= Pending(x);
    SubsetCount({first, p}, Pending(x));
  }

  /** Every interruption of an attempt can be resumed if and only if no pending
      row has an unfinished step before it when the attempt starts.  The other
      case is real: that step's own intent makes a second pending row. */
  lemma InterruptionsResumable(req: Request, w: World)
    requires OwnRun(req, w) && IsAdmitted(req, w)
    ensures (forall x | x in Run(req, w).trace :: IsAdmitted(req, x)) <==> !HasEarlierUnfinished(w)
  {
    if HasEarlierUnfinished(w) {
      var x := EarlierUnfinishedBlocksResume(req, w);
    } else {
      RunStaysOwn(req, w);
      RunPending(req, w);
      forall x | x in Run(req, w).trace ensures IsAdmitted(req, x) {
        assert PendingSince(w, x) && OwnRun(req, x);
        TwoPendingNeedsEarlier(w, x);
        AdmissionCondition(req, x);
        if Pending(x) == {} { assert |Pending(x)| == 0; }
      }
    }
  }

  // --- over histories ---------------------------------------------------------

  /** Only attempts at this plan under this approval, with any store, adapters, ledger
      and faults; the estate may change in between. */
  ghost predicate OwnEvents(req: Request, events: seq<HistoryEvent>) {
    forall e | e in events && e.Attempted? :: e.req.plan == req.plan && e.req.approval == req.approval
  }

  lemma HappensStaysOwn(req: Request, w: World, e: HistoryEvent)
    requires OwnRun(req, w) && OwnEvents(req, [e])
    ensures forall x | x in Happens(w, e) :: OwnRun(req, x)
    ensures OwnRun(req, LastWorld(w, Happens(w, e)))
  {
    match e
    case Drift(c) =>
      var x := Wrote(w, c);
      assert forall s :: IsDone(x, s) <==> IsDone(w, s);
    case Attempted(own, writes) =>
      assert e in [e];
      RunStaysOwn(own, w);
      assert forall x | x in Happens(w, e) :: x in Run(own, w).trace;
  }

  lemma {:induction false} HistoryStaysOwn(req: Request, w: World, events: seq<HistoryEvent>)
    requires OwnRun(req, w) && OwnEvents(req, events)
    ensures forall x | x in History(w, events) :: OwnRun(req, x)
    decreases |events|
  {
    if events != [] {
      assert OwnEvents(req, [events[0]]) && OwnEvents(req, events[1..]);
      HappensStaysOwn(req, w, events[0]);
      HistoryStaysOwn(req, LastWorld(w, Happens(w, events[0])), events[1..]);
    }
  }

  lemma FreshIsOwn(req: Request, w: World)
    requires IsFresh(w)
    ensures OwnRun(req, w)
  {
  }

  /** Whatever attempts at this plan and approval came before, with their failures,
      crashes and changed estates: an attempt that passes the gate is admitted exactly
      when at most one row is pending and, if none is, the estate is as last recorded;
      admitted, it reaches its report, and all its interruptions can be resumed if and
      only if no pending row has an unfinished step before it. */
  lemma AdmissionOverHistory(req: Request, w: World, events: seq<HistoryEvent>)
    requires IsFresh(w) && OwnEvents(req, events) && GateRefusal(req).None?
    ensures var x := After(w, events);
            && (IsAdmitted(req, x) <==> |Pending(x)| <= 1 && (|Pending(x)| == 1 || CheckpointOk(x)))
            && (Run(req, x).result.Returned? <==> IsAdmitted(req, x))
            && (IsAdmitted(req, x) ==>
                  ((forall y | y in Run(req, x).trace :: IsAdmitted(req, y)) <==> !HasEarlierUnfinished(x)))
  {
    FreshIsOwn(req, w);
    HistoryStaysOwn(req, w, events);
    var x := After(w, events);
    assert OwnRun(req, x);
    AdmissionCondition(req, x);
    if IsAdmitted(req, x) { InterruptionsResumable(req, x); }
  }

  /** The first interruption of a run, at any write and under any faults, can be
      resumed, and the resume runs to its report. */
  lemma FirstInterruptionResumes(req: Request, again: Request, w: World, x: World)
    requires IsFresh(w) && GateRefusal(req).None? && x in Run(req, w).trace
    requires again.plan == req.plan && again.approval == req.approval && GateRefusal(again).None?
    ensures IsAdmitted(again, x) && Run(again, x).result.Returned?
  {
    assert OwnRun(req, w);
    AdmissionCondition(req, w);
    assert Pending(w) == {};
    RunStaysOwn(req, w);
    InterruptionsResumable(req, w);
    AdmissionCondition(req, x);
    AdmissionCondition(again, x);
  }

  /** With nothing pending, a changed estate ends the run: no sequence of attempts,
      under any plan, approval or adapters, writes anything for it ever again. */
  lemma {:induction false} DriftEndsTheRun(w: World, events: seq<HistoryEvent>)
    requires w.run.Some? && Pending(w) == {} && w.run.value.fingerprint != Some(w.disk)
    requires forall e | e in events :: e.Attempted?
    ensures History(w, events) == []
    decreases |events|
  {
    if events != [] {
      assert |Pending(w)| == 0;
      assert events[0] in events && Happens(w, events[0]) == [];
      DriftEndsTheRun(w, events[1..]);
    }
  }

  /** So it is after any history: a change by anybody else at a moment when nothing is
      pending cannot be resumed from. */
  lemma DriftCannotBeResumed(w: World, events: seq<HistoryEvent>, c: Content, later: seq<HistoryEvent>)
    requires After(w, events).run.Some? && Pending(After(w, events)) == {}
    requires After(w, events).run.value.fingerprint == Some(After(w, events).disk)
    requires forall e | e in later :: e.Attempted?
    ensures History(Wrote(After(w, events), c), later) == []
  {
    var x := Wrote(After(w, events), c);
    assert Pending(x) == Pending(After(w, events));
    DriftEndsTheRun(x, later);
  }
}
