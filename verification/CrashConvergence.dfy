/** Crashing and resuming a run changes nothing about where it ends. */
module CrashConvergence {
  import opened Rights
  import opened Plan
  import opened Approvals
  import opened Estate
  import opened Execution
  import opened JournalSafety
  import opened JournalState

  /** A call that would complete and was cut off at `x`, made again there,
      completes and ends where the uninterrupted call does. */
  ghost predicate RepeatsFrom(perform: (Content, Urn, Action) -> Effect, c: Content, urn: Urn, action: Action, x: Content) {
    perform(c, urn, action).status.Succeeded? && x in perform(c, urn, action).after ==>
      && perform(x, urn, action).status.Succeeded?
      && Last(x, perform(x, urn, action).after) == Last(c, perform(c, urn, action).after)
  }

  ghost predicate IsRepeatable(perform: (Content, Urn, Action) -> Effect) {
    forall c, urn, action, x :: RepeatsFrom(perform, c, urn, action, x)
  }

  /** Carrying out a step on `x` completes and leaves `y`. */
  ghost predicate LeadsTo(req: Request, step: Step, x: Content, y: Content) {
    var e := req.perform(x, step.urn, step.action);
    e.status.Succeeded? && Last(x, e.after) == y
  }

  /** `goal[i]` is the estate after the first `i` steps, each carried out whole. */
  ghost predicate IdealRun(req: Request, steps: seq<Step>, goal: seq<Content>) {
    |goal| == |steps| + 1 && forall i | 0 <= i < |steps| :: IdealStep(req, steps, goal, i)
  }

  ghost predicate IdealStep(req: Request, steps: seq<Step>, goal: seq<Content>, i: nat)
    requires i < |steps| && |goal| == |steps| + 1
  {
    LeadsTo(req, steps[i], goal[i], goal[i + 1]) && Covers(req.approval.scope, steps[i].urn, steps[i].action)
  }

  /** A run that got as far as step `m`: the rows before it are completed, the
      row itself is absent or interrupted. */
  ghost predicate JournalAt(req: Request, steps: seq<Step>, w: World, m: nat) {
    && m <= |steps|
    && (forall s | s in w.rows :: s < m || (s == m && m < |steps|))
    && (forall s | 0 <= s < m :: IsDone(w, s) && Matches(w.rows[s], steps[s]))
    && (m in w.rows ==> w.rows[m].status.InProgress? && Matches(w.rows[m], steps[m]))
    && (w.run.None? ==> w.rows == map[])
    && (w.run.Some? ==>
          && w.run.value.planHash == HashOf(req.plan) && w.run.value.approvalId == req.approval.id
          && (m !in w.rows ==> w.run.value.fingerprint == Some(w.disk)))
  }

  /** Doing step `m` on this estate, again or for the first time, leads on. */
  ghost predicate ContentAt(req: Request, steps: seq<Step>, goal: seq<Content>, x: Content, m: nat) {
    && |goal| == |steps| + 1 && m <= |steps|
    && if m < |steps| then LeadsTo(req, steps[m], x, goal[m + 1]) else x == goal[m]
  }

  ghost predicate Reached(req: Request, steps: seq<Step>, goal: seq<Content>, w: World, m: nat) {
    JournalAt(req, steps, w, m) && ContentAt(req, steps, goal, w.disk.content, m)
  }

  ghost predicate OnTrack(req: Request, steps: seq<Step>, goal: seq<Content>, w: World) {
    exists m: nat :: Reached(req, steps, goal, w, m)
  }

  ghost predicate AllSucceed(r: RunResult) {
    r.Returned? && forall k | 0 <= k < |r.outcomes| :: r.outcomes[k].Succeeded()
  }

  /** The registry is repeatable and no adapter call raises. */
  ghost predicate NothingFails(req: Request) { IsRepeatable(req.perform) && req.faults == map[] }

  // --- one step -------------------------------------------------------------

  lemma RecordedJournal(req: Request, steps: seq<Step>, w: World, written: World, i: nat, o: Outcome, x: World)
    requires IsNumbered(steps) && i < |steps| && JournalAt(req, steps, w, i) && w.run.Some?
    requires written == Called(Intended(w, steps[i]), steps[i]).(disk := written.disk)
    requires o.step == steps[i] && o.Succeeded() && x == Recorded(written, o).(log := x.log)
    ensures JournalAt(req, steps, x, i + 1)
  {
    assert steps[i].seqNo == i;
    forall s | 0 <= s < i + 1 ensures IsDone(x, s) && Matches(x.rows[s], steps[s]) {
      if s < i { assert IsDone(w, s); }
    }
  }

  lemma ConcludedJournal(req: Request, steps: seq<Step>, w: World, i: nat, e: Effect, o: Outcome, x: World)
    requires IsNumbered(steps) && i < |steps| && JournalAt(req, steps, w, i) && w.run.Some?
    requires o.step == steps[i] && o.Succeeded()
    requires var called := Called(Intended(w, steps[i]), steps[i]);
             x in Conclude(req, LastWorld(called, EstateWrites(called, e.after)), o)
    ensures JournalAt(req, steps, x, i + 1) && x.disk.content == Last(w.disk.content, e.after) && x.run.Some?
  {
    var called := Called(Intended(w, steps[i]), steps[i]);
    var written := LastWorld(called, EstateWrites(called, e.after));
    EstateWritesKeep(called, e.after);
    EstateWritesContents(called, e.after);
    assert written == called.(disk := written.disk);
    ConcludeStates(req, written, o, x);
    RecordedJournal(req, steps, w, written, i, o, x);
  }

  lemma BegunJournal(req: Request, steps: seq<Step>, w: World, i: nat, x: World)
    requires IsNumbered(steps) && i < |steps| && JournalAt(req, steps, w, i) && w.run.Some?
    requires x.rows == Intended(w, steps[i]).rows && x.run == w.run
    ensures JournalAt(req, steps, x, i)
  {
    assert steps[i].seqNo == i;
    assert forall s | 0 <= s < i :: IsDone(x, s) <==> IsDone(w, s);
  }

  /** The states of a call that completes are this step begun, then this step done. */
  lemma PerformProgress(req: Request, steps: seq<Step>, w: World, i: nat, e: Effect, x: World)
    requires IsNumbered(steps) && i < |steps| && JournalAt(req, steps, w, i) && w.run.Some?
    requires e.status.Succeeded? && x in Perform(req, w, steps[i], e).trace
    ensures || (JournalAt(req, steps, x, i) && (x.disk.content == w.disk.content || x.disk.content in e.after))
            || (JournalAt(req, steps, x, i + 1) && x.disk.content == Last(w.disk.content, e.after))
  {
    var called := Called(Intended(w, steps[i]), steps[i]);
    var writes := EstateWrites(called, e.after);
    var o := Perform(req, w, steps[i], e).outcome;
    if x in Conclude(req, LastWorld(called, writes), o) {
      ConcludedJournal(req, steps, w, i, e, o, x);
    } else {
      EstateWritesKeep(called, e.after);
      EstateWritesContents(called, e.after);
      BegunJournal(req, steps, w, i, x);
    }
  }

  lemma PerformCompletes(req: Request, steps: seq<Step>, w: World, i: nat, e: Effect)
    requires IsNumbered(steps) && i < |steps| && JournalAt(req, steps, w, i) && w.run.Some?
    requires e.status.Succeeded?
    ensures var v := LastWorld(w, Perform(req, w, steps[i], e).trace);
            JournalAt(req, steps, v, i + 1) && v.disk.content == Last(w.disk.content, e.after) && v.run.Some?
  {
    var s := Perform(req, w, steps[i], e);
    var called := Called(Intended(w, steps[i]), steps[i]);
    var tail := Conclude(req, LastWorld(called, EstateWrites(called, e.after)), s.outcome);
    assert LastWorld(w, s.trace) == tail[|tail| - 1];
    ConcludedJournal(req, steps, w, i, e, s.outcome, tail[|tail| - 1]);
  }

  lemma RunStepIsPerform(req: Request, w: World, step: Step, outcomes: seq<Outcome>)
    requires req.faults == map[] && Covers(req.approval.scope, step.urn, step.action)
    requires forall k | 0 <= k < |outcomes| :: outcomes[k].Succeeded()
    ensures RunStep(req, w, step, outcomes)
         == Perform(req, w, step, req.perform(w.disk.content, step.urn, step.action))
  {
  }

  lemma RunStepReaches(req: Request, steps: seq<Step>, goal: seq<Content>, w: World, i: nat, outcomes: seq<Outcome>, s: StepRun)
    requires NothingFails(req) && IsNumbered(steps) && IdealRun(req, steps, goal)
    requires i < |steps| && Reached(req, steps, goal, w, i) && w.run.Some?
    requires forall k | 0 <= k < |outcomes| :: outcomes[k].Succeeded()
    requires s == RunStep(req, w, steps[i], outcomes)
    ensures s.outcome.Succeeded()
    ensures forall x | x in s.trace :: OnTrack(req, steps, goal, x)
    ensures Reached(req, steps, goal, LastWorld(w, s.trace), i + 1) && LastWorld(w, s.trace).run.Some?
  {
    var e := req.perform(w.disk.content, steps[i].urn, steps[i].action);
    assert IdealStep(req, steps, goal, i);
    RunStepIsPerform(req, w, steps[i], outcomes);
    assert LeadsTo(req, steps[i], w.disk.content, goal[i + 1]);
    PerformCompletes(req, steps, w, i, e);
    assert ContentAt(req, steps, goal, goal[i + 1], i + 1) by {
      if i + 1 < |steps| { assert IdealStep(req, steps, goal, i + 1); }
    }
    forall x | x in s.trace ensures OnTrack(req, steps, goal, x) {
      PerformProgress(req, steps, w, i, e, x);
      if JournalAt(req, steps, x, i + 1) && x.disk.content == goal[i + 1] {
        assert Reached(req, steps, goal, x, i + 1);
      } else {
        assert RepeatsFrom(req.perform, w.disk.content, steps[i].urn, steps[i].action, x.disk.content);
        assert ContentAt(req, steps, goal, x.disk.content, i);
        assert Reached(req, steps, goal, x, i);
      }
    }
  }

  // --- attempts -------------------------------------------------------------

  lemma SkippedReaches(req: Request, steps: seq<Step>, goal: seq<Content>, w: World, m: nat, x: World)
    requires Reached(req, steps, goal, w, m) && x == w.(log := x.log)
    ensures Reached(req, steps, goal, x, m)
  {
    assert forall s :: IsDone(x, s) <==> IsDone(w, s);
  }

  /** Where the loop stands at index `i` of an attempt that began at step `m0`. */
  function Front(m0: nat, i: nat): nat { if i < m0 then m0 else i }

  /** The journal snapshot of an attempt that began with `m0` steps completed. */
  ghost predicate SnapshotAt(steps: seq<Step>, done: map<nat, JournalRow>, m0: nat) {
    && m0 <= |steps|
    && (forall s: nat :: s in done <==> s < m0)
    && (forall s | s in done :: Matches(done[s], steps[s]))
  }

  /** The loop at index `i` with nothing gone wrong so far. */
  ghost predicate LoopOnTrack(req: Request, steps: seq<Step>, goal: seq<Content>, w: World, m0: nat, i: nat, outcomes: seq<Outcome>) {
    && w.run.Some?
    && Reached(req, steps, goal, w, Front(m0, i))
    && forall k | 0 <= k < |outcomes| :: outcomes[k].Succeeded()
  }

  lemma StepStaysOnTrack(req: Request, steps: seq<Step>, goal: seq<Content>, w: World, done: map<nat, JournalRow>, m0: nat, i: nat, outcomes: seq<Outcome>, s: StepRun)
    requires NothingFails(req) && IsNumbered(steps) && IdealRun(req, steps, goal)
    requires i < |steps| && SnapshotAt(steps, done, m0) && LoopOnTrack(req, steps, goal, w, m0, i, outcomes)
    requires s == StepAt(req, steps, w, done, i, outcomes)
    ensures AllOnTrack(req, steps, goal, s.trace)
    ensures LoopOnTrack(req, steps, goal, LastWorld(w, s.trace), m0, i + 1, outcomes + [s.outcome])
    ensures !SkipRefused(req, steps, done, i)
  {
    assert IdealStep(req, steps, goal, i);
    if i in done {
      var v := LastWorld(w, s.trace);
      forall x | x in s.trace || x == v ensures Reached(req, steps, goal, x, m0) && x.run.Some? {
        SkippedReaches(req, steps, goal, w, m0, x);
      }
    } else {
      RunStepReaches(req, steps, goal, w, i, outcomes, s);
    }
  }

  ghost predicate AllOnTrack(req: Request, steps: seq<Step>, goal: seq<Content>, trace: seq<World>) {
    forall x | x in trace :: OnTrack(req, steps, goal, x)
  }

  /** An attempt from here on, seen only through its states and its end. */
  ghost predicate Continues(loop: (World, nat, seq<Outcome>) -> Attempt, onTrack: (World, nat, seq<Outcome>) -> bool,
                            good: World -> bool, w: World, i: nat, outcomes: seq<Outcome>)
  {
    onTrack(w, i, outcomes) ==>
      exists trace, v, next :: Advances(loop, onTrack, good, w, i, outcomes, trace, v, next)
  }

  ghost predicate Advances(loop: (World, nat, seq<Outcome>) -> Attempt, onTrack: (World, nat, seq<Outcome>) -> bool,
                           good: World -> bool, w: World, i: nat, outcomes: seq<Outcome>,
                           trace: seq<World>, v: World, next: seq<Outcome>)
  {
    && v == LastWorld(w, trace)
    && (forall x | x in trace :: good(x))
    && onTrack(v, i + 1, next)
    && loop(w, i, outcomes) == Attempt(trace + loop(v, i + 1, next).trace, loop(v, i + 1, next).result)
  }

  ghost predicate EndsWell(good: World -> bool, final: World -> bool, w: World, a: Attempt) {
    && (forall x | x in a.trace :: good(x))
    && AllSucceed(a.result)
    && final(LastWorld(w, a.trace))
  }

  /** Induction over a loop of `n` steps. */
  lemma {:induction false} LoopInduction(loop: (World, nat, seq<Outcome>) -> Attempt, onTrack: (World, nat, seq<Outcome>) -> bool,
                                         good: World -> bool, final: World -> bool, n: nat,
                                         w: World, i: nat, outcomes: seq<Outcome>)
    requires i <= n && onTrack(w, i, outcomes)
    requires forall x: World, k: nat, os: seq<Outcome> | k < n :: Continues(loop, onTrack, good, x, k, os)
    requires forall x: World, os: seq<Outcome> | onTrack(x, n, os) :: EndsWell(good, final, x, loop(x, n, os))
    ensures EndsWell(good, final, w, loop(w, i, outcomes))
    decreases n - i
  {
    if i < n {
      assert Continues(loop, onTrack, good, w, i, outcomes);
      var trace, v, next :| Advances(loop, onTrack, good, w, i, outcomes, trace, v, next);
      LoopInduction(loop, onTrack, good, final, n, v, i + 1, next);
      var rest := loop(v, i + 1, next);
      assert LastWorld(w, trace + rest.trace) == LastWorld(v, rest.trace);
    }
  }

  function LoopFrom(req: Request, steps: seq<Step>, done: map<nat, JournalRow>): (World, nat, seq<Outcome>) -> Attempt {
    (w: World, i: nat, os: seq<Outcome>) =>
      if i <= |steps| then Loop(req, steps, w, done, i, os) else Attempt([], Returned([]))
  }

  ghost function TrackFrom(req: Request, steps: seq<Step>, goal: seq<Content>, m0: nat): (World, nat, seq<Outcome>) -> bool {
    (w: World, i: nat, os: seq<Outcome>) => LoopOnTrack(req, steps, goal, w, m0, i, os)
  }

  ghost function TrackState(req: Request, steps: seq<Step>, goal: seq<Content>): World -> bool {
    (w: World) => OnTrack(req, steps, goal, w)
  }

  ghost function ReachedEnd(req: Request, steps: seq<Step>, goal: seq<Content>): World -> bool {
    (w: World) => Reached(req, steps, goal, w, |steps|)
  }

  lemma LoopUnfolds(req: Request, steps: seq<Step>, done: map<nat, JournalRow>, w: World, i: nat, outcomes: seq<Outcome>, s: StepRun)
    requires i < |steps| && !SkipRefused(req, steps, done, i) && s == StepAt(req, steps, w, done, i, outcomes)
    ensures var rest := LoopFrom(req, steps, done)(LastWorld(w, s.trace), i + 1, outcomes + [s.outcome]);
            LoopFrom(req, steps, done)(w, i, outcomes) == Attempt(s.trace + rest.trace, rest.result)
  {
  }

  lemma StepContinues(req: Request, steps: seq<Step>, goal: seq<Content>, done: map<nat, JournalRow>, m0: nat, w: World, i: nat, outcomes: seq<Outcome>)
    requires NothingFails(req) && IsNumbered(steps) && IdealRun(req, steps, goal) && SnapshotAt(steps, done, m0)
    requires i < |steps|
    ensures Continues(LoopFrom(req, steps, done), TrackFrom(req, steps, goal, m0), TrackState(req, steps, goal), w, i, outcomes)
  {
    if LoopOnTrack(req, steps, goal, w, m0, i, outcomes) {
      var s := StepAt(req, steps, w, done, i, outcomes);
      StepStaysOnTrack(req, steps, goal, w, done, m0, i, outcomes, s);
      LoopUnfolds(req, steps, done, w, i, outcomes, s);
      assert Advances(LoopFrom(req, steps, done), TrackFrom(req, steps, goal, m0), TrackState(req, steps, goal),
                      w, i, outcomes, s.trace, LastWorld(w, s.trace), outcomes + [s.outcome]);
    }
  }

  lemma LoopEnds(req: Request, steps: seq<Step>, goal: seq<Content>, done: map<nat, JournalRow>, m0: nat, w: World, outcomes: seq<Outcome>)
    requires m0 <= |steps| && LoopOnTrack(req, steps, goal, w, m0, |steps|, outcomes)
    ensures EndsWell(TrackState(req, steps, goal), ReachedEnd(req, steps, goal), w, LoopFrom(req, steps, done)(w, |steps|, outcomes))
  {
    FinishedReaches(req, steps, goal, w);
    assert OnTrack(req, steps, goal, Finished(w));
  }

  /** The rest of an attempt from a run that reached step `m`, of which the first
      `m0` steps were already in the journal when the attempt began. */
  lemma LoopStaysOnTrack(req: Request, steps: seq<Step>, goal: seq<Content>, w: World, done: map<nat, JournalRow>, m0: nat)
    requires NothingFails(req) && IsNumbered(steps) && IdealRun(req, steps, goal) && SnapshotAt(steps, done, m0)
    requires LoopOnTrack(req, steps, goal, w, m0, 0, [])
    ensures EndsWell(TrackState(req, steps, goal), ReachedEnd(req, steps, goal), w, LoopFrom(req, steps, done)(w, 0, []))
  {
    var loop, onTrack := LoopFrom(req, steps, done), TrackFrom(req, steps, goal, m0);
    var good, final := TrackState(req, steps, goal), ReachedEnd(req, steps, goal);
    forall x: World, k: nat, os: seq<Outcome> | k < |steps| ensures Continues(loop, onTrack, good, x, k, os) {
      StepContinues(req, steps, goal, done, m0, x, k, os);
    }
    forall x: World, os: seq<Outcome> | onTrack(x, |steps|, os) ensures EndsWell(good, final, x, loop(x, |steps|, os)) {
      LoopEnds(req, steps, goal, done, m0, x, os);
    }
    LoopInduction(loop, onTrack, good, final, |steps|, w, 0, []);
  }

  lemma FinishedReaches(req: Request, steps: seq<Step>, goal: seq<Content>, w: World)
    requires Reached(req, steps, goal, w, |steps|)
    ensures Reached(req, steps, goal, Finished(w), |steps|)
  {
    assert forall s :: IsDone(Finished(w), s) <==> IsDone(w, s);
  }

  lemma JournalPending(req: Request, steps: seq<Step>, w: World, m: nat)
    requires JournalAt(req, steps, w, m)
    ensures Pending(w) == if m in w.rows then {m} else {}
    ensures forall s: nat :: s in DoneRows(w) <==> s < m
  {
    forall s: nat ensures s in Pending(w) <==> m in w.rows && s == m {
      if s in w.rows && s != m { assert IsDone(w, s); }
    }
    forall s: nat ensures s in DoneRows(w) <==> s < m {
      if s < m { assert IsDone(w, s); }
    }
  }

  lemma OnTrackIsAdmitted(req: Request, w: World, m: nat)
    requires GateRefusal(req).None? && JournalAt(req, PlanSteps(req.plan), w, m)
    ensures IsAdmitted(req, w) && JournalAt(req, PlanSteps(req.plan), Begun(req, w), m)
  {
    var steps := PlanSteps(req.plan);
    JournalPending(req, steps, w, m);
    assert forall s :: IsDone(Begun(req, w), s) <==> IsDone(w, s);
    JournalPending(req, steps, Begun(req, w), m);
  }

  /** An attempt on a run that is on track is accepted, stays on track at every
      write, and if it is not interrupted ends in the ideal estate. */
  lemma AttemptStaysOnTrack(req: Request, goal: seq<Content>, w: World)
    requires NothingFails(req) && IdealRun(req, PlanSteps(req.plan), goal) && GateRefusal(req).None?
    requires OnTrack(req, PlanSteps(req.plan), goal, w)
    ensures forall x | x in Run(req, w).trace :: OnTrack(req, PlanSteps(req.plan), goal, x)
    ensures AllSucceed(Run(req, w).result)
    ensures Reached(req, PlanSteps(req.plan), goal, LastWorld(w, Run(req, w).trace), |PlanSteps(req.plan)|)
  {
    var steps := PlanSteps(req.plan);
    PlanIsNumbered(req.plan);
    var m: nat :| Reached(req, steps, goal, w, m);
    OnTrackIsAdmitted(req, w, m);
    var begun := Begun(req, w);
    assert Reached(req, steps, goal, begun, m);
    JournalPending(req, steps, begun, m);
    forall s | s in DoneRows(begun) ensures Matches(DoneRows(begun)[s], steps[s]) {
      assert IsDone(begun, s);
    }
    LoopStaysOnTrack(req, steps, goal, begun, DoneRows(begun), m);
    RunIsLoop(req, w);
    forall x | x in Run(req, w).trace ensures OnTrack(req, steps, goal, x) {
      assert TrackState(req, steps, goal)(x) || x == begun;
    }
    assert ReachedEnd(req, steps, goal)(LastWorld(w, Run(req, w).trace));
  }

  /** The same plan under the same approval with the same adapters, none of which
      raises; decision store and ledger may have changed. */
  ghost predicate SameWork(req: Request, other: Request) {
    other.plan == req.plan && other.approval == req.approval && other.perform == req.perform && other.faults == map[]
  }

  /** Any number of attempts at this work, each cut short by a crash after any number of
      its writes, returned, or refused by the gate. */
  ghost predicate OnlyCrashes(req: Request, events: seq<HistoryEvent>) {
    forall e | e in events :: e.Attempted? && SameWork(req, e.req)
  }

  lemma SameIdeal(req: Request, other: Request, steps: seq<Step>, goal: seq<Content>)
    requires SameWork(req, other) && IdealRun(req, steps, goal)
    ensures IdealRun(other, steps, goal)
  {
    forall i | 0 <= i < |steps| ensures IdealStep(other, steps, goal, i) {
      assert IdealStep(req, steps, goal, i);
    }
  }

  lemma SameTrack(req: Request, other: Request, steps: seq<Step>, goal: seq<Content>, w: World)
    requires SameWork(req, other)
    ensures OnTrack(req, steps, goal, w) <==> OnTrack(other, steps, goal, w)
    ensures forall m: nat :: Reached(req, steps, goal, w, m) <==> Reached(other, steps, goal, w, m)
  {
    forall m: nat ensures Reached(req, steps, goal, w, m) <==> Reached(other, steps, goal, w, m) {
      assert JournalAt(req, steps, w, m) <==> JournalAt(other, steps, w, m);
    }
  }

  /** One such attempt, however far it got, leaves the run on track. */
  lemma CrashStaysOnTrack(req: Request, goal: seq<Content>, w: World, e: HistoryEvent)
    requires NothingFails(req) && IdealRun(req, PlanSteps(req.plan), goal)
    requires OnTrack(req, PlanSteps(req.plan), goal, w) && e.Attempted? && SameWork(req, e.req)
    ensures OnTrack(req, PlanSteps(req.plan), goal, LastWorld(w, Happens(w, e)))
  {
    var steps, v := PlanSteps(req.plan), LastWorld(w, Happens(w, e));
    SameTrack(req, e.req, steps, goal, w);
    SameTrack(req, e.req, steps, goal, v);
    if GateRefusal(e.req).None? {
      SameIdeal(req, e.req, steps, goal);
      AttemptStaysOnTrack(e.req, goal, w);
      assert v == w || v in Run(e.req, w).trace;
    }
  }

  lemma {:induction false} CrashesStayOnTrack(req: Request, goal: seq<Content>, w: World, events: seq<HistoryEvent>)
    requires NothingFails(req) && IdealRun(req, PlanSteps(req.plan), goal) && OnlyCrashes(req, events)
    requires OnTrack(req, PlanSteps(req.plan), goal, w)
    ensures OnTrack(req, PlanSteps(req.plan), goal, After(w, events))
    decreases |events|
  {
    if events != [] {
      CrashStaysOnTrack(req, goal, w, events[0]);
      CrashesStayOnTrack(req, goal, LastWorld(w, Happens(w, events[0])), events[1..]);
      AfterCons(w, events);
    }
  }

  // --- the hypothesis read off the uninterrupted run ----------------------------

  lemma {:induction false} OutcomesKept(req: Request, steps: seq<Step>, w: World, done: map<nat, JournalRow>, i: nat, outcomes: seq<Outcome>)
    requires i <= |steps|
    ensures Loop(req, steps, w, done, i, outcomes).result.Returned? ==>
              outcomes <= Loop(req, steps, w, done, i, outcomes).result.outcomes
    decreases |steps| - i
  {
    if i < |steps| && !SkipRefused(req, steps, done, i) {
      var s := StepAt(req, steps, w, done, i, outcomes);
      OutcomesKept(req, steps, LastWorld(w, s.trace), done, i + 1, outcomes + [s.outcome]);
    }
  }

  lemma PerformEndContent(req: Request, w: World, step: Step, e: Effect)
    ensures LastWorld(w, Perform(req, w, step, e).trace).disk.content == Last(w.disk.content, e.after)
  {
    var s := Perform(req, w, step, e);
    var called := Called(Intended(w, step), step);
    var writes := EstateWrites(called, e.after);
    EstateWritesContents(called, e.after);
    var tail := Conclude(req, LastWorld(called, writes), s.outcome);
    assert LastWorld(w, s.trace) == tail[|tail| - 1];
    ConcludeStates(req, LastWorld(called, writes), s.outcome, tail[|tail| - 1]);
  }

  lemma SucceededStep(req: Request, w: World, step: Step, outcomes: seq<Outcome>, s: StepRun)
    requires req.faults == map[] && s == RunStep(req, w, step, outcomes) && s.outcome.Succeeded()
    ensures Covers(req.approval.scope, step.urn, step.action)
    ensures LeadsTo(req, step, w.disk.content, LastWorld(w, s.trace).disk.content)
  {
    PerformEndContent(req, w, step, req.perform(w.disk.content, step.urn, step.action));
  }

  ghost predicate IdealFrom(req: Request, steps: seq<Step>, i: nat, goal: seq<Content>) {
    && i + |goal| == |steps| + 1
    && forall j | i <= j < |steps| :: IdealStepFrom(req, steps, i, goal, j)
  }

  ghost predicate IdealStepFrom(req: Request, steps: seq<Step>, i: nat, goal: seq<Content>, j: nat)
    requires i <= j < |steps| && i + |goal| == |steps| + 1
  {
    LeadsTo(req, steps[j], goal[j - i], goal[j - i + 1]) && Covers(req.approval.scope, steps[j].urn, steps[j].action)
  }

  /** The ideal run is read off an attempt whose every step succeeded. */
  lemma {:induction false} LoopYieldsIdeal(req: Request, steps: seq<Step>, w: World, i: nat, outcomes: seq<Outcome>)
    returns (goal: seq<Content>)
    requires req.faults == map[] && i == |outcomes| <= |steps|
    requires AllSucceed(Loop(req, steps, w, map[], i, outcomes).result)
    ensures IdealFrom(req, steps, i, goal) && goal[0] == w.disk.content
    decreases |steps| - i
  {
    if i == |steps| {
      goal := [w.disk.content];
    } else {
      var s := StepAt(req, steps, w, map[], i, outcomes);
      var v := LastWorld(w, s.trace);
      OutcomesKept(req, steps, v, map[], i + 1, outcomes + [s.outcome]);
      assert (outcomes + [s.outcome])[i] == s.outcome;
      SucceededStep(req, w, steps[i], outcomes, s);
      var rest := LoopYieldsIdeal(req, steps, v, i + 1, outcomes + [s.outcome]);
      goal := [w.disk.content] + rest;
      IdealCons(req, steps, i, w.disk.content, rest);
    }
  }

  lemma IdealCons(req: Request, steps: seq<Step>, i: nat, c: Content, rest: seq<Content>)
    requires i < |steps| && IdealFrom(req, steps, i + 1, rest) && LeadsTo(req, steps[i], c, rest[0])
    requires Covers(req.approval.scope, steps[i].urn, steps[i].action)
    ensures IdealFrom(req, steps, i, [c] + rest)
  {
    var goal := [c] + rest;
    forall j | i <= j < |steps| ensures IdealStepFrom(req, steps, i, goal, j) {
      if j > i {
        assert IdealStepFrom(req, steps, i + 1, rest, j);
        assert goal[j - i] == rest[j - (i + 1)] && goal[j - i + 1] == rest[j - (i + 1) + 1];
      }
    }
  }

  lemma FreshIsReached(req: Request, steps: seq<Step>, goal: seq<Content>, w: World)
    requires IdealRun(req, steps, goal) && goal[0] == w.disk.content && IsFresh(w)
    ensures Reached(req, steps, goal, w, 0)
  {
    if |steps| > 0 {
      assert IdealStep(req, steps, goal, 0);
    }
  }

  lemma SameEnd(req: Request, steps: seq<Step>, goal: seq<Content>, final: World, plain: World)
    requires Reached(req, steps, goal, final, |steps|) && Reached(req, steps, goal, plain, |steps|)
    ensures final.disk.content == plain.disk.content
    ensures forall s: nat :: (s in final.rows <==> s < |steps|) && (s in plain.rows <==> s < |steps|)
    ensures forall s | s in final.rows ::
              IsDone(final, s) && final.rows[s] == plain.rows[s].(changed := final.rows[s].changed)
  {
    forall s: nat ensures (s in final.rows <==> s < |steps|) && (s in plain.rows <==> s < |steps|) {
      if s < |steps| { assert IsDone(final, s) && IsDone(plain, s); }
    }
    forall s | s in final.rows
      ensures IsDone(final, s) && final.rows[s] == plain.rows[s].(changed := final.rows[s].changed)
    {
      assert IsDone(final, s) && IsDone(plain, s);
    }
  }

  /** Crash convergence.  If an uninterrupted attempt completes every step, then after
      any finite sequence of attempts at the same work, cut short at any writes, with
      whatever stores and ledgers: the next attempt that the gate lets through is
      accepted, completes every step, and leaves the estate and the journal as the
      uninterrupted attempt does (the rows' "changed" flags aside). */
  lemma CrashesConverge(req: Request, w: World, events: seq<HistoryEvent>, last: Request)
    requires IsFresh(w) && NothingFails(req) && AllSucceed(Run(req, w).result)
    requires OnlyCrashes(req, events) && SameWork(req, last) && GateRefusal(last).None?
    ensures var crashed := After(w, events);
            var final, plain := LastWorld(crashed, Run(last, crashed).trace), LastWorld(w, Run(req, w).trace);
            && AllSucceed(Run(last, crashed).result)
            && final.disk.content == plain.disk.content
            && final.rows.Keys == plain.rows.Keys
            && forall s | s in final.rows ::
                 IsDone(final, s) && final.rows[s] == plain.rows[s].(changed := final.rows[s].changed)
  {
    var goal := IdealOfRun(req, w);
    var steps := PlanSteps(req.plan);
    var crashed := After(w, events);
    FreshIsReached(req, steps, goal, w);
    AttemptStaysOnTrack(req, goal, w);
    CrashesStayOnTrack(req, goal, w, events);
    LastAttemptReaches(req, goal, crashed, last);
    SameEnd(req, steps, goal, LastWorld(crashed, Run(last, crashed).trace), LastWorld(w, Run(req, w).trace));
  }

  lemma LastAttemptReaches(req: Request, goal: seq<Content>, crashed: World, last: Request)
    requires NothingFails(req) && IdealRun(req, PlanSteps(req.plan), goal) && OnTrack(req, PlanSteps(req.plan), goal, crashed)
    requires SameWork(req, last) && GateRefusal(last).None?
    ensures AllSucceed(Run(last, crashed).result)
    ensures Reached(req, PlanSteps(req.plan), goal, LastWorld(crashed, Run(last, crashed).trace), |PlanSteps(req.plan)|)
  {
    var steps := PlanSteps(req.plan);
    SameIdeal(req, last, steps, goal);
    SameTrack(req, last, steps, goal, crashed);
    AttemptStaysOnTrack(last, goal, crashed);
    SameTrack(req, last, steps, goal, LastWorld(crashed, Run(last, crashed).trace));
  }

  lemma IdealOfRun(req: Request, w: World) returns (goal: seq<Content>)
    requires IsFresh(w) && req.faults == map[] && AllSucceed(Run(req, w).result)
    ensures IdealRun(req, PlanSteps(req.plan), goal) && goal[0] == w.disk.content
  {
    var steps := PlanSteps(req.plan);
    var begun := Begun(req, w);
    assert DoneRows(begun) == map[];
    goal := LoopYieldsIdeal(req, steps, begun, 0, []);
    forall i | 0 <= i < |steps| ensures IdealStep(req, steps, goal, i) {
      assert IdealStepFrom(req, steps, 0, goal, i);
    }
  }

  /** The adapters of this estate, as one registry. */
  function DefaultRegistry(ctx: Context): (Content, Urn, Action) -> Effect {
    (c: Content, urn: Urn, a: Action) => Execute(ctx, c, urn, a)
  }

  /** Every adapter here survives being cut off between any two of its writes. */
  lemma DefaultRegistryIsRepeatable(ctx: Context)
    ensures IsRepeatable(DefaultRegistry(ctx))
  {
    var perform := DefaultRegistry(ctx);
    forall c, urn, action, x ensures RepeatsFrom(perform, c, urn, action, x) {
      if perform(c, urn, action).status.Succeeded? && x in perform(c, urn, action).after {
        InterruptedActionConverges(ctx, c, urn, action, x);
      }
    }
  }

  /** Crash convergence for this estate: with its own adapters, and none of them
      raising, nothing else need be assumed. */
  lemma LocalRunsConverge(ctx: Context, req: Request, w: World, events: seq<HistoryEvent>, last: Request)
    requires req.perform == DefaultRegistry(ctx) && req.faults == map[]
    requires IsFresh(w) && AllSucceed(Run(req, w).result)
    requires OnlyCrashes(req, events) && SameWork(req, last) && GateRefusal(last).None?
    ensures var crashed := After(w, events);
            var final, plain := LastWorld(crashed, Run(last, crashed).trace), LastWorld(w, Run(req, w).trace);
            AllSucceed(Run(last, crashed).result) && final.disk.content == plain.disk.content
  {
    DefaultRegistryIsRepeatable(ctx);
    CrashesConverge(req, w, events, last);
  }
}
