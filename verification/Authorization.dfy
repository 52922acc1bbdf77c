/** Every adapter call, on every history, was authorized when its attempt began. */
module Authorization {
  import opened Rights
  import opened Plan
  import opened Approvals
  import opened Estate
  import opened Execution
  import opened JournalSafety
  import opened JournalState

  /** The approval of `req` was the newest decision for exactly its plan, it was an
      approval, it covers the call, and it covers nothing the plan does not propose. */
  ghost predicate Authorized(req: Request, c: Call) {
    && Latest(req.store.rows, HashOf(req.plan)) == Some(req.approval)
    && req.approval.planHash == HashOf(req.plan)
    && req.approval.IsApproved()
    && Covers(req.approval.scope, c.urn, c.action)
    && ScopeWithin(req.approval.scope, EnforcementScope(req.plan))
    && c.seqNo < |PlanSteps(req.plan)|
    && c.urn == PlanSteps(req.plan)[c.seqNo].urn && c.action == PlanSteps(req.plan)[c.seqNo].action
  }

  /** `x` made at most one call since `w`: this step's, if the approval covers it. */
  ghost predicate CallsStep(req: Request, w: World, x: World, step: Step) {
    x.calls == w.calls
    || (x.calls == w.calls + [Call(step.seqNo, step.urn, step.action)] && Covers(req.approval.scope, step.urn, step.action))
  }

  lemma PerformCalls(req: Request, w: World, step: Step, e: Effect, s: StepRun)
    requires Covers(req.approval.scope, step.urn, step.action) && s == Perform(req, w, step, e)
    ensures forall x | x in s.trace :: CallsStep(req, w, x, step)
  {
    var called := Called(Intended(w, step), step);
    var writes := EstateWrites(called, e.after);
    EstateWritesKeep(called, e.after);
    var written := LastWorld(called, writes);
    assert written.calls == called.calls;
    forall x | x in Conclude(req, written, s.outcome) ensures x.calls == called.calls {
      ConcludeStates(req, written, s.outcome, x);
    }
  }

  lemma StepCalls(req: Request, steps: seq<Step>, w: World, done: map<nat, JournalRow>, i: nat, outcomes: seq<Outcome>, s: StepRun)
    requires i < |steps| && s == StepAt(req, steps, w, done, i, outcomes)
    ensures forall x | x in s.trace :: CallsStep(req, w, x, steps[i])
  {
    var step := steps[i];
    if i !in done {
      if IsBlocked(req.plan, step, outcomes) {
        forall x | x in s.trace ensures x.calls == w.calls {
          ConcludeStates(req, w, s.outcome, x);
        }
      } else if !Covers(req.approval.scope, step.urn, step.action) {
        forall x | x in Conclude(req, Intended(w, step), s.outcome) ensures x.calls == w.calls {
          ConcludeStates(req, Intended(w, step), s.outcome, x);
        }
      } else {
        PerformCalls(req, w, step, CallEffect(req, w.disk.content, step), s);
      }
    }
  }

  /** All calls after the first `n` are for steps the approval covers. */
  ghost predicate CoveredFrom(req: Request, steps: seq<Step>, calls: seq<Call>, n: nat) {
    forall k | n <= k < |calls| ::
      && calls[k].seqNo < |steps|
      && calls[k] == Call(calls[k].seqNo, steps[calls[k].seqNo].urn, steps[calls[k].seqNo].action)
      && Covers(req.approval.scope, calls[k].urn, calls[k].action)
  }

  ghost predicate AllCoveredFrom(req: Request, steps: seq<Step>, trace: seq<World>, n: nat) {
    forall x | x in trace :: CoveredFrom(req, steps, x.calls, n)
  }

  lemma StepCallsCovered(req: Request, steps: seq<Step>, w: World, done: map<nat, JournalRow>, i: nat, outcomes: seq<Outcome>, n: nat, s: StepRun)
    requires i < |steps| && IsNumbered(steps) && CoveredFrom(req, steps, w.calls, n)
    requires s == StepAt(req, steps, w, done, i, outcomes)
    ensures AllCoveredFrom(req, steps, s.trace, n) && CoveredFrom(req, steps, LastWorld(w, s.trace).calls, n)
  {
    StepCalls(req, steps, w, done, i, outcomes, s);
    forall x | x in s.trace ensures CoveredFrom(req, steps, x.calls, n) {
      assert CallsStep(req, w, x, steps[i]);
      assert steps[i].seqNo == i;
    }
  }

  lemma LoopCalls(req: Request, steps: seq<Step>, w: World, done: map<nat, JournalRow>, n: nat)
    requires IsNumbered(steps) && CoveredFrom(req, steps, w.calls, n)
    ensures AllCoveredFrom(req, steps, Loop(req, steps, w, done, 0, []).trace, n)
  {
    ghost var inv := (x: World, k: nat, os: seq<Outcome>) => CoveredFrom(req, steps, x.calls, n);
    ghost var step := (x: World, t: seq<World>) => AllCoveredFrom(req, steps, t, n);
    ghost var whole := (x: World, a: Attempt) => AllCoveredFrom(req, steps, a.trace, n);
    forall x: World, k: nat, os: seq<Outcome> ensures StepGoes(req, steps, done, inv, step, x, k, os) {
      if k < |steps| && CoveredFrom(req, steps, x.calls, n) {
        StepCallsCovered(req, steps, x, done, k, os, n, StepAt(req, steps, x, done, k, os));
      }
    }
    LoopTraces(req, steps, done, inv, step, whole, w, 0, []);
  }

  /** One attempt: refused at the gate it calls nothing; admitted, every call it
      makes is authorized by the decision it was admitted under. */
  lemma AttemptCallsAreAuthorized(req: Request, w: World)
    requires StoreOk(req.store)
    ensures forall x, k | x in Run(req, w).trace && |w.calls| <= k < |x.calls| :: Authorized(req, x.calls[k])
  {
    if GateRefusal(req).None? && StartRefusal(req, w).None? {
      GateAuthorizesWithinPlan(req.store, req.plan);
      LatestIsRecorded(req.store.rows, HashOf(req.plan));
      var begun := Begun(req, w);
      var steps := PlanSteps(req.plan);
      if InterruptedRefusal(steps, begun).None? {
        PlanIsNumbered(req.plan);
        LoopCalls(req, steps, begun, DoneRows(begun), |w.calls|);
        RunIsLoop(req, w);
        forall x, k | x in Run(req, w).trace && |w.calls| <= k < |x.calls| ensures Authorized(req, x.calls[k]) {
          assert CoveredFrom(req, steps, x.calls, |w.calls|);
        }
      }
    }
  }

  ghost predicate StoresOk(events: seq<HistoryEvent>) {
    forall e | e in events && e.Attempted? :: StoreOk(e.req.store)
  }

  /** Event `j` is an attempt that made call `k`, which is `c`: there were at most `k`
      calls before it, and one of the states it goes through has that call. */
  ghost predicate MadeBy(w: World, events: seq<HistoryEvent>, j: nat, k: nat, c: Call) {
    && j < |events| && events[j].Attempted?
    && |After(w, events[..j]).calls| <= k
    && exists y | y in Happens(After(w, events[..j]), events[j]) :: k < |y.calls| && y.calls[k] == c
  }

  lemma MadeByLater(w: World, events: seq<HistoryEvent>, j: nat, k: nat, c: Call)
    requires events != [] && MadeBy(LastWorld(w, Happens(w, events[0])), events[1..], j, k, c)
    ensures MadeBy(w, events, j + 1, k, c)
  {
    assert events[..j + 1][0] == events[0] && events[..j + 1][1..] == events[1..][..j];
    AfterCons(w, events[..j + 1]);
  }

  /** A state that the first event goes through shows which of its calls that event made. */
  lemma MadeByFirst(w: World, events: seq<HistoryEvent>, y: World, k: nat)
    requires events != [] && StoresOk(events) && y in Happens(w, events[0]) && |w.calls| <= k < |y.calls|
    ensures MadeBy(w, events, 0, k, y.calls[k]) && Authorized(events[0].req, y.calls[k])
  {
    HappensCalls(w, events[0]);
    assert NewCallsAuthorized(w, events[0], y);
    assert events[..0] == [] && After(w, []) == w;
  }

  /** Over every history, with decisions, crashes, resumes and outside changes
      interleaved: each adapter call ever made was made by one of its attempts, was
      authorized by that attempt's own approval, and lies within that attempt's plan. */
  lemma {:induction false} EveryCallIsAuthorized(w: World, events: seq<HistoryEvent>, x: World, k: nat) returns (j: nat)
    requires StoresOk(events) && x in History(w, events) && |w.calls| <= k < |x.calls|
    ensures MadeBy(w, events, j, k, x.calls[k]) && Authorized(events[j].req, x.calls[k])
    decreases |events|
  {
    var first := Happens(w, events[0]);
    var v := LastWorld(w, first);
    if x in first {
      j := 0;
      MadeByFirst(w, events, x, k);
    } else {
      HistoryKeeps(v, events[1..]);
      var i :| 0 <= i < |History(v, events[1..])| && History(v, events[1..])[i] == x;
      KeepsAlongAll(v, History(v, events[1..]), i);
      if k < |v.calls| {
        j := 0;
        MadeByFirst(w, events, v, k);
      } else {
        assert StoresOk(events[1..]);
        var later := EveryCallIsAuthorized(v, events[1..], x, k);
        MadeByLater(w, events, later, k, x.calls[k]);
        j := later + 1;
      }
    }
  }

  /** Any call `x` has and `w` has not was authorized by the attempt `e`. */
  ghost predicate NewCallsAuthorized(w: World, e: HistoryEvent, x: World) {
    forall k | |w.calls| <= k < |x.calls| :: e.Attempted? && Authorized(e.req, x.calls[k])
  }

  lemma HappensCalls(w: World, e: HistoryEvent)
    requires e.Attempted? ==> StoreOk(e.req.store)
    ensures forall x | x in Happens(w, e) :: NewCallsAuthorized(w, e, x)
    ensures NewCallsAuthorized(w, e, LastWorld(w, Happens(w, e)))
  {
    if e.Attempted? {
      AttemptCallsAreAuthorized(e.req, w);
    }
    forall x | x in Happens(w, e) ensures NewCallsAuthorized(w, e, x) {
      assert e.Attempted? ==> x in Run(e.req, w).trace;
    }
  }
}
