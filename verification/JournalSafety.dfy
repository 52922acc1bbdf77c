/** What every history of a run keeps: completed work is never redone, and a
    dependent step completes only on top of completed predecessors. */
module JournalSafety {
  import opened Rights
  import opened Plan
  import opened Approvals
  import opened Estate
  import opened Execution

  predicate IsDone(w: World, s: nat) { s in w.rows && w.rows[s].status.Completed? }

  /** From `u` to a later `v`: rows completed in `u` are as they were, no adapter
      was called again for them, and calls and receipts were only appended. */
  ghost predicate Keeps(u: World, v: World) {
    && (forall s | IsDone(u, s) :: IsDone(v, s) && v.rows[s] == u.rows[s])
    && u.calls <= v.calls
    && (forall k | |u.calls| <= k < |v.calls| :: !IsDone(u, v.calls[k].seqNo))
    && u.log <= v.log
    && (u.run.Some? ==> v.run.Some? && v.run.value.planHash == u.run.value.planHash
                        && v.run.value.approvalId == u.run.value.approvalId)
  }

  lemma KeepsTransitive(u: World, v: World, x: World)
    requires Keeps(u, v) && Keeps(v, x)
    ensures Keeps(u, x)
  {
    forall k | |u.calls| <= k < |x.calls| ensures !IsDone(u, x.calls[k].seqNo) {
      if k < |v.calls| { assert x.calls[k] == v.calls[k]; }
    }
  }

  /** Each state of `trace` keeps what the one before it had, starting from `w`. */
  ghost predicate KeepsAlong(w: World, trace: seq<World>)
    decreases |trace|
  {
    trace != [] ==> Keeps(w, trace[0]) && KeepsAlong(trace[0], trace[1..])
  }

  lemma KeepsAlongCons(w: World, x: World, rest: seq<World>)
    requires Keeps(w, x) && KeepsAlong(x, rest)
    ensures KeepsAlong(w, [x] + rest)
  {
    assert ([x] + rest)[1..] == rest;
  }

  lemma {:induction false} KeepsAlongConcat(w: World, a: seq<World>, b: seq<World>)
    requires KeepsAlong(w, a) && KeepsAlong(LastWorld(w, a), b)
    ensures KeepsAlong(w, a + b)
    decreases |a|
  {
    if a == [] {
      assert a + b == b;
    } else {
      assert (a + b)[1..] == a[1..] + b;
      assert LastWorld(a[0], a[1..]) == LastWorld(w, a);
      KeepsAlongConcat(a[0], a[1..], b);
    }
  }

  lemma {:induction false} KeepsAlongPrefix(w: World, a: seq<World>, n: nat)
    requires KeepsAlong(w, a) && n <= |a|
    ensures KeepsAlong(w, a[..n])
    decreases n
  {
    if n > 0 {
      KeepsAlongPrefix(a[0], a[1..], n - 1);
      assert a[..n][1..] == a[1..][..n - 1];
    }
  }

  lemma {:induction false} KeepsAlongAll(w: World, trace: seq<World>, j: nat)
    requires KeepsAlong(w, trace) && j < |trace|
    ensures Keeps(w, trace[j])
    decreases j
  {
    if j > 0 {
      KeepsAlongAll(trace[0], trace[1..], j - 1);
      KeepsTransitive(w, trace[0], trace[j]);
    }
  }

  lemma {:induction false} KeepsAlongBetween(w: World, trace: seq<World>, i: nat, j: nat)
    requires KeepsAlong(w, trace) && i < j < |trace|
    ensures Keeps(trace[i], trace[j])
    decreases i
  {
    if i == 0 {
      KeepsAlongAll(trace[0], trace[1..], j - 1);
    } else {
      KeepsAlongBetween(trace[0], trace[1..], i - 1, j - 1);
    }
  }

  lemma {:induction false} EstateWritesKeep(w: World, after: seq<Content>)
    ensures KeepsAlong(w, EstateWrites(w, after))
    ensures forall x | x in EstateWrites(w, after) :: x == w.(disk := x.disk)
    decreases |after|
  {
    if after != [] {
      var x := Wrote(w, after[0]);
      EstateWritesKeep(x, after[1..]);
      assert Keeps(w, x);
    }
  }

  lemma {:induction false} EstateWritesContents(w: World, after: seq<Content>)
    ensures forall x | x in EstateWrites(w, after) :: x.disk.content in after
    ensures LastWorld(w, EstateWrites(w, after)).disk.content == Last(w.disk.content, after)
    decreases |after|
  {
    if after != [] {
      EstateWritesContents(Wrote(w, after[0]), after[1..]);
      assert after == [after[0]] + after[1..];
    }
  }

  lemma ConcludeKeeps(req: Request, w: World, o: Outcome)
    requires !IsDone(w, o.step.seqNo)
    ensures KeepsAlong(w, Conclude(req, w, o))
  {
    var r := Recorded(w, o);
    var t := LogOnce(req, r, o);
    assert Keeps(w, r);
    if t != [] {
      assert Keeps(r, t[0]);
      assert t[1..] == [];
      assert KeepsAlong(r, t);
    }
    assert Conclude(req, w, o)[1..] == t;
  }

  lemma WritesAndConclusionKeep(req: Request, w: World, after: seq<Content>, o: Outcome)
    requires !IsDone(w, o.step.seqNo)
    ensures KeepsAlong(w, EstateWrites(w, after) + Conclude(req, LastWorld(w, EstateWrites(w, after)), o))
  {
    var writes := EstateWrites(w, after);
    EstateWritesKeep(w, after);
    ConcludeKeeps(req, LastWorld(w, writes), o);
    KeepsAlongConcat(w, writes, Conclude(req, LastWorld(w, writes), o));
  }

  lemma PerformKeeps(req: Request, w: World, step: Step, e: Effect)
    requires !IsDone(w, step.seqNo)
    ensures KeepsAlong(w, Perform(req, w, step, e).trace)
  {
    var intended := Intended(w, step);
    var called := Called(intended, step);
    var o := Outcome(step, StatusOf(e.status), e.changed, false);
    WritesAndConclusionKeep(req, called, e.after, o);
    var rest := EstateWrites(called, e.after) + Conclude(req, LastWorld(called, EstateWrites(called, e.after)), o);
    KeepsAlongCons(intended, called, rest);
    KeepsAlongCons(w, intended, [called] + rest);
    assert Perform(req, w, step, e).trace == [intended] + ([called] + rest);
  }

  lemma RunStepKeeps(req: Request, w: World, step: Step, outcomes: seq<Outcome>)
    requires !IsDone(w, step.seqNo)
    ensures KeepsAlong(w, RunStep(req, w, step, outcomes).trace)
  {
    if IsBlocked(req.plan, step, outcomes) {
      ConcludeKeeps(req, w, Outcome(step, Failed, false, false));
    } else if !Covers(req.approval.scope, step.urn, step.action) {
      var intended := Intended(w, step);
      var rest := Conclude(req, intended, Outcome(step, NotApproved, false, false));
      ConcludeKeeps(req, intended, Outcome(step, NotApproved, false, false));
      assert Keeps(w, intended);
      assert ([intended] + rest)[1..] == rest;
    } else {
      PerformKeeps(req, w, step, CallEffect(req, w.disk.content, step));
    }
  }

  /** The journal snapshot agrees with the world for the steps still ahead. */
  ghost predicate SnapshotOk(w: World, done: map<nat, JournalRow>, i: nat) {
    forall s | s >= i :: (s in done <==> IsDone(w, s)) && (s in done ==> done[s] == w.rows[s])
  }

  ghost predicate IsNumbered(steps: seq<Step>) {
    forall i | 0 <= i < |steps| :: steps[i].seqNo == i
  }

  lemma PlanIsNumbered(plan: ImpactPlan)
    ensures IsNumbered(PlanSteps(plan))
  {
  }

  /** Only row `i` may differ. */
  ghost predicate RowsElsewhere(w: World, x: World, i: nat) {
    forall s | s != i :: (s in x.rows <==> s in w.rows) && (s in w.rows ==> x.rows[s] == w.rows[s])
  }

  /** One step changes only its own row. */
  lemma StepTouchesOwnRow(req: Request, steps: seq<Step>, w: World, done: map<nat, JournalRow>, i: nat, outcomes: seq<Outcome>)
    requires i < |steps| && IsNumbered(steps)
    ensures forall x | x in StepAt(req, steps, w, done, i, outcomes).trace :: RowsElsewhere(w, x, i)
    ensures RowsElsewhere(w, LastWorld(w, StepAt(req, steps, w, done, i, outcomes).trace), i)
  {
    var step := steps[i];
    if i !in done && !IsBlocked(req.plan, step, outcomes) && Covers(req.approval.scope, step.urn, step.action) {
      PerformTouchesOwnRow(req, w, step, CallEffect(req, w.disk.content, step));
    }
  }

  lemma PerformTouchesOwnRow(req: Request, w: World, step: Step, e: Effect)
    ensures forall x | x in Perform(req, w, step, e).trace :: RowsElsewhere(w, x, step.seqNo)
  {
    var called := Called(Intended(w, step), step);
    EstateWritesKeep(called, e.after);
    forall x | x in Perform(req, w, step, e).trace ensures RowsElsewhere(w, x, step.seqNo) {
      if x in EstateWrites(called, e.after) {
        assert x.rows == called.rows;
      }
    }
  }

  lemma StepKeepsAlong(req: Request, steps: seq<Step>, w: World, done: map<nat, JournalRow>, i: nat, outcomes: seq<Outcome>)
    requires i < |steps| && IsNumbered(steps) && SnapshotOk(w, done, i)
    ensures var s := StepAt(req, steps, w, done, i, outcomes);
            KeepsAlong(w, s.trace) && SnapshotOk(LastWorld(w, s.trace), done, i + 1)
  {
    var s := StepAt(req, steps, w, done, i, outcomes);
    if i in done {
      assert s.trace != [] ==> Keeps(w, s.trace[0]) && s.trace[1..] == [];
    } else {
      assert !IsDone(w, i);
      RunStepKeeps(req, w, steps[i], outcomes);
    }
    StepTouchesOwnRow(req, steps, w, done, i, outcomes);
  }

  // --- induction over the loop of one attempt --------------------------------------

  ghost predicate StepGoes(req: Request, steps: seq<Step>, done: map<nat, JournalRow>, inv: (World, nat, seq<Outcome>) -> bool,
                           step: (World, seq<World>) -> bool, w: World, i: nat, outcomes: seq<Outcome>)
  {
    i < |steps| && inv(w, i, outcomes) && !SkipRefused(req, steps, done, i) ==>
      var s := StepAt(req, steps, w, done, i, outcomes);
      step(w, s.trace) && inv(LastWorld(w, s.trace), i + 1, outcomes + [s.outcome])
  }

  ghost predicate Joins(step: (World, seq<World>) -> bool, whole: (World, Attempt) -> bool, w: World, trace: seq<World>, rest: Attempt) {
    step(w, trace) && whole(LastWorld(w, trace), rest) ==> whole(w, Attempt(trace + rest.trace, rest.result))
  }

  ghost predicate Ends(whole: (World, Attempt) -> bool, inv: (World, nat, seq<Outcome>) -> bool, n: nat, w: World, outcomes: seq<Outcome>) {
    inv(w, n, outcomes) ==> whole(w, Attempt([Finished(w)], Returned(outcomes)))
  }

  /** What each step does, and what joins up, the whole loop does. */
  lemma {:induction false} LoopTraces(req: Request, steps: seq<Step>, done: map<nat, JournalRow>, inv: (World, nat, seq<Outcome>) -> bool,
                                      step: (World, seq<World>) -> bool, whole: (World, Attempt) -> bool,
                                      w: World, i: nat, outcomes: seq<Outcome>)
    requires i <= |steps| && inv(w, i, outcomes)
    requires forall x: World, k: nat, os: seq<Outcome> :: StepGoes(req, steps, done, inv, step, x, k, os)
    requires forall x: World, t: seq<World>, a: Attempt :: Joins(step, whole, x, t, a)
    requires forall x: World, os: seq<Outcome> :: Ends(whole, inv, |steps|, x, os)
    requires forall x: World, r: Refusal :: whole(x, Attempt([], Refused(r)))
    ensures whole(w, Loop(req, steps, w, done, i, outcomes))
    decreases |steps| - i
  {
    if i == |steps| {
      assert Ends(whole, inv, |steps|, w, outcomes);
    } else if !SkipRefused(req, steps, done, i) {
      var s := StepAt(req, steps, w, done, i, outcomes);
      assert StepGoes(req, steps, done, inv, step, w, i, outcomes);
      LoopTraces(req, steps, done, inv, step, whole, LastWorld(w, s.trace), i + 1, outcomes + [s.outcome]);
      assert Joins(step, whole, w, s.trace, Loop(req, steps, LastWorld(w, s.trace), done, i + 1, outcomes + [s.outcome]));
    }
  }

  lemma LoopKeeps(req: Request, steps: seq<Step>, w: World, done: map<nat, JournalRow>, i: nat, outcomes: seq<Outcome>)
    requires i <= |steps| && IsNumbered(steps) && SnapshotOk(w, done, i)
    ensures KeepsAlong(w, Loop(req, steps, w, done, i, outcomes).trace)
  {
    ghost var inv := (x: World, k: nat, os: seq<Outcome>) => SnapshotOk(x, done, k);
    ghost var step := (x: World, t: seq<World>) => KeepsAlong(x, t);
    ghost var whole := (x: World, a: Attempt) => KeepsAlong(x, a.trace);
    forall x: World, k: nat, os: seq<Outcome> ensures StepGoes(req, steps, done, inv, step, x, k, os) {
      if k < |steps| && SnapshotOk(x, done, k) { StepKeepsAlong(req, steps, x, done, k, os); }
    }
    forall x: World, t: seq<World>, a: Attempt ensures Joins(step, whole, x, t, a) {
      if KeepsAlong(x, t) && KeepsAlong(LastWorld(x, t), a.trace) { KeepsAlongConcat(x, t, a.trace); }
    }
    forall x: World, os: seq<Outcome> ensures Ends(whole, inv, |steps|, x, os) {
      FinishKeeps(x);
    }
    LoopTraces(req, steps, done, inv, step, whole, w, i, outcomes);
  }

  lemma FinishKeeps(w: World)
    ensures KeepsAlong(w, [Finished(w)])
  {
    assert Keeps(w, Finished(w)) && [Finished(w)][1..] == [];
  }

  lemma RunKeeps(req: Request, w: World)
    ensures KeepsAlong(w, Run(req, w).trace)
  {
    if GateRefusal(req).None? && StartRefusal(req, w).None? {
      var begun := Begun(req, w);
      var opening := if w.run.None? then [begun] else [];
      assert KeepsAlong(w, opening) by {
        assert opening != [] ==> Keeps(w, opening[0]) && opening[1..] == [];
      }
      var steps := PlanSteps(req.plan);
      if InterruptedRefusal(steps, begun).None? {
        PlanIsNumbered(req.plan);
        LoopKeeps(req, steps, begun, DoneRows(begun), 0, []);
        KeepsAlongConcat(w, opening, Loop(req, steps, begun, DoneRows(begun), 0, []).trace);
      }
    }
  }

  lemma HappensKeeps(w: World, e: HistoryEvent)
    ensures KeepsAlong(w, Happens(w, e))
  {
    match e
    case Drift(c) =>
      assert Keeps(w, Wrote(w, c));
      assert [Wrote(w, c)][1..] == [];
    case Attempted(req, writes) =>
      RunKeeps(req, w);
      if writes < |Run(req, w).trace| {
        KeepsAlongPrefix(w, Run(req, w).trace, writes);
      }
  }

  lemma {:induction false} HistoryKeeps(w: World, events: seq<HistoryEvent>)
    ensures KeepsAlong(w, History(w, events))
    decreases |events|
  {
    if events != [] {
      var first := Happens(w, events[0]);
      HappensKeeps(w, events[0]);
      HistoryKeeps(LastWorld(w, first), events[1..]);
      KeepsAlongConcat(w, first, History(LastWorld(w, first), events[1..]));
    }
  }

  lemma AfterCons(w: World, events: seq<HistoryEvent>)
    requires events != []
    ensures After(w, events) == After(LastWorld(w, Happens(w, events[0])), events[1..])
  {
    var first := Happens(w, events[0]);
    LastOfConcat(w, first, History(LastWorld(w, first), events[1..]));
  }

  /** A history can stop an attempt at any of its durable states, or let it end. */
  lemma EveryCrashHappens(req: Request, w: World, j: nat)
    requires j < |Run(req, w).trace|
    ensures LastWorld(w, Happens(w, Attempted(req, j + 1))) == Run(req, w).trace[j]
    ensures Happens(w, Attempted(req, 0)) == []
    ensures forall k: nat | k >= |Run(req, w).trace| :: Happens(w, Attempted(req, k)) == Run(req, w).trace
  {
    var trace := Run(req, w).trace;
    if j + 1 < |trace| { assert trace[..j + 1][j] == trace[j]; }
  }

  /** Over every sequence of attempts, failures, crashes, resumes and outside
      changes: once a row is completed it stays exactly as it is, and no adapter is
      ever called for it again. */
  lemma CompletedStaysCompleted(w: World, events: seq<HistoryEvent>, i: nat, j: nat, s: nat)
    requires i < j < |History(w, events)|
    requires IsDone(History(w, events)[i], s)
    ensures var u, v := History(w, events)[i], History(w, events)[j];
            && IsDone(v, s) && v.rows[s] == u.rows[s]
            && u.calls <= v.calls
            && forall k | |u.calls| <= k < |v.calls| :: v.calls[k].seqNo != s
  {
    HistoryKeeps(w, events);
    KeepsAlongBetween(w, History(w, events), i, j);
  }
}
