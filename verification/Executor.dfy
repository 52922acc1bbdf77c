/** The executor as code that updates the journal, the receipts and the estate.

    `Execution.Run` says which durable states an attempt goes through; the method
    `ExecutePlan` below is proved to go through exactly those. */
module Executor {
  import opened Rights
  import opened Plan
  import opened Approvals
  import opened Estate
  import opened Adapters
  import opened Execution

  class RunState {
    const estate: LocalEstate
    var run: Option<RunRow>
    var rows: map<nat, JournalRow>
    var log: seq<LogLine>
    ghost var calls: seq<Call>

    constructor (estate: LocalEstate)
      ensures this.estate == estate && IsFresh(World())
    {
      this.estate := estate;
      run, rows, log, calls := None, map[], [], [];
    }

    ghost function World(): World
      reads this, estate
    {
      Execution.World(Disk(estate.Contents(), estate.stamp), run, rows, log, calls)
    }

    method RecordIntent(step: Step)
      modifies this`rows
      ensures World() == Intended(old(World()), step)
    {
      rows := rows[step.seqNo := JournalRow(step.urn, step.action, InProgress, false)];
    }

    /** Outcome and fingerprint in one transaction. */
    method Record(o: Outcome)
      modifies this`rows, this`run
      ensures World() == Recorded(old(World()), o)
    {
      rows := rows[o.step.seqNo := JournalRow(o.step.urn, o.step.action, o.status, o.changed)];
      if run.Some? {
        run := Some(run.value.(fingerprint := Some(Disk(estate.Contents(), estate.stamp))));
      }
    }

    method AppendReceipt(req: Request, o: Outcome) returns (ghost trace: seq<World>)
      modifies this`log
      ensures trace == LogOnce(req, old(World()), o)
      ensures World() == LastWorld(old(World()), trace)
    {
      trace := [];
      if req.ledger.NoLedger? {
        return;
      }
      var found := false;
      for k := 0 to |log|
        invariant found <==> exists j | 0 <= j < k :: log[j].seqNo == o.step.seqNo
      {
        if log[k].seqNo == o.step.seqNo {
          found := true;
        }
      }
      if found {
        return;
      }
      log := log + [LogLine(o.step.seqNo, o.step.urn, o.step.action, o.status, o.changed)];
      trace := [World()];
    }

    method ConcludeStep(req: Request, o: Outcome) returns (ghost trace: seq<World>)
      modifies this`rows, this`run, this`log
      ensures trace == Conclude(req, old(World()), o)
      ensures World() == LastWorld(old(World()), trace)
    {
      Record(o);
      trace := [World()];
      ghost var logged := AppendReceipt(req, o);
      trace := trace + logged;
    }

    /** The prior outcomes this step has to wait for, if any failed. */
    method IsHeldBack(plan: ImpactPlan, step: Step, outcomes: seq<Outcome>) returns (held: bool)
      ensures held <==> IsBlocked(plan, step, outcomes)
    {
      held := false;
      if !IsDependent(step.action) {
        return;
      }
      var ancestors := Ancestors(plan, step.urn);
      for k := 0 to |outcomes|
        invariant held <==> exists j | 0 <= j < k ::
                    !outcomes[j].Succeeded() && Feeds(plan, outcomes[j].step.urn, step.urn)
      {
        var prior := outcomes[k].step.urn;
        if !outcomes[k].Succeeded() && (prior == step.urn || prior in ancestors) {
          assert Feeds(plan, outcomes[k].step.urn, step.urn);
          held := true;
        }
      }
    }

    method RunAdapter(req: Request, ctx: Context, step: Step)
      returns (o: Outcome, ghost trace: seq<World>)
      requires forall c, u, a :: req.perform(c, u, a) == Execute(ctx, c, u, a)
      modifies this, estate
      ensures StepRun(trace, o) == Perform(req, old(World()), step, CallEffect(req, old(World()).disk.content, step))
      ensures World() == LastWorld(old(World()), trace)
    {
      RecordIntent(step);
      ghost var intended := World();
      calls := calls + [Call(step.seqNo, step.urn, step.action)];
      ghost var called := World();
      ghost var effect := CallEffect(req, called.disk.content, step);
      var status, changed;
      ghost var after;
      var fault := if step.seqNo in req.faults then Some(req.faults[step.seqNo]) else None;
      status, changed, after := CallAdapter(ctx, estate, step.urn, step.action, fault);
      assert Effect(after, status, changed) == effect;
      ghost var writes := EstateWrites(called, after);
      WritesReachDisk(called, after);
      assert World() == LastWorld(called, writes);
      o := Outcome(step, StatusOf(status), changed, false);
      ghost var tail := ConcludeStep(req, o);
      trace := [intended, called] + writes + tail;
    }

    method DoStep(req: Request, ctx: Context, step: Step, outcomes: seq<Outcome>)
      returns (o: Outcome, ghost trace: seq<World>)
      requires forall c, u, a :: req.perform(c, u, a) == Execute(ctx, c, u, a)
      modifies this, estate
      ensures StepRun(trace, o) == RunStep(req, old(World()), step, outcomes)
      ensures World() == LastWorld(old(World()), trace)
    {
      var held := IsHeldBack(req.plan, step, outcomes);
      if held {
        o := Outcome(step, Failed, false, false);
        trace := ConcludeStep(req, o);
      } else if !Covers(req.approval.scope, step.urn, step.action) {
        RecordIntent(step);
        ghost var intended := World();
        o := Outcome(step, NotApproved, false, false);
        ghost var tail := ConcludeStep(req, o);
        trace := [intended] + tail;
      } else {
        o, trace := RunAdapter(req, ctx, step);
      }
    }

    method ExecutePlan(req: Request, ctx: Context) returns (result: RunResult, ghost trace: seq<World>)
      requires forall c, u, a :: req.perform(c, u, a) == Execute(ctx, c, u, a)
      modifies this, estate
      ensures Attempt(trace, result) == Run(req, old(World()))
      ensures World() == LastWorld(old(World()), trace)
    {
      trace := [];
      var gate := GateRefusal(req);
      if gate.Some? {
        return Refused(gate.value), [];
      }
      ghost var opening;
      var refusal;
      refusal, opening := OpenRun(req);
      if refusal.Some? {
        return Refused(refusal.value), [];
      }
      ghost var rest;
      ghost var begun := World();
      result, rest := ResumeRun(req, ctx);
      RunSplits(req, old(World()), begun, opening, Attempt(rest, result));
      trace := opening + rest;
    }

    /** Start the run, or check that it may be resumed. */
    method OpenRun(req: Request) returns (refusal: Option<Refusal>, ghost opening: seq<World>)
      modifies this`run
      ensures refusal == StartRefusal(req, old(World()))
      ensures refusal.Some? ==> World() == old(World())
      ensures refusal.None? ==> World() == Begun(req, old(World()))
      ensures opening == if refusal.None? && old(World()).run.None? then [World()] else []
    {
      opening := [];
      var current := Disk(estate.Contents(), estate.stamp);
      if run.Some? {
        if run.value.planHash != HashOf(req.plan) {
          return Some(RunOfAnotherPlan), [];
        }
        if run.value.approvalId != req.approval.id {
          return Some(RunOfAnotherApproval), [];
        }
        var pending := PendingRows();
        if run.value.fingerprint != Some(current) && |pending| != 1 {
          return Some(EstateDrifted), [];
        }
        return None, [];
      }
      run := Some(RunRow(HashOf(req.plan), req.approval.id, false, Some(current)));
      opening := [World()];
      refusal := None;
    }

    method ResumeRun(req: Request, ctx: Context) returns (result: RunResult, ghost trace: seq<World>)
      requires forall c, u, a :: req.perform(c, u, a) == Execute(ctx, c, u, a)
      modifies this, estate
      ensures Attempt(trace, result) == AfterOpening(req, old(World()))
      ensures World() == LastWorld(old(World()), trace)
    {
      var steps := BuildSteps(req.plan);
      var pending := PendingRows();
      var done := map s | s in rows && rows[s].status.Completed? :: rows[s];
      if |pending| > 1 {
        return Refused(ManyInterrupted), [];
      }
      if exists s | s in pending :: s >= |steps| || !Matches(rows[s], steps[s]) {
        return Refused(StepMismatch), [];
      }
      result, trace := RunSteps(req, ctx, steps, done);
    }

    method PendingRows() returns (pending: set<nat>)
      ensures pending == Pending(World())
    {
      pending := set s | s in rows && rows[s].status.InProgress?;
    }

    /** Report a completed step, or do it. */
    method TakeStep(req: Request, ctx: Context, steps: seq<Step>, done: map<nat, JournalRow>, i: nat, outcomes: seq<Outcome>)
      returns (o: Outcome, ghost trace: seq<World>)
      requires forall c, u, a :: req.perform(c, u, a) == Execute(ctx, c, u, a)
      requires i < |steps|
      modifies this, estate
      ensures StepRun(trace, o) == StepAt(req, steps, old(World()), done, i, outcomes)
      ensures World() == LastWorld(old(World()), trace)
    {
      if i in done {
        o := Outcome(steps[i], Completed, done[i].changed, true);
        trace := AppendReceipt(req, o);
      } else {
        o, trace := DoStep(req, ctx, steps[i], outcomes);
      }
    }

    method RunSteps(req: Request, ctx: Context, steps: seq<Step>, done: map<nat, JournalRow>)
      returns (result: RunResult, ghost trace: seq<World>)
      requires forall c, u, a :: req.perform(c, u, a) == Execute(ctx, c, u, a)
      modifies this, estate
      ensures Attempt(trace, result) == Loop(req, steps, old(World()), done, 0, [])
      ensures World() == LastWorld(old(World()), trace)
    {
      ghost var begun := World();
      trace := [];
      var outcomes: seq<Outcome> := [];
      for i := 0 to |steps|
        invariant IsPrefix(req, steps, begun, trace, World(), done, i, outcomes)
      {
        ghost var w, before := World(), outcomes;
        if i in done && !(Matches(done[i], steps[i]) && Covers(req.approval.scope, steps[i].urn, steps[i].action)) {
          return Refused(if Matches(done[i], steps[i]) then OutsideScope else StepMismatch), trace;
        }
        var o;
        ghost var more;
        o, more := TakeStep(req, ctx, steps, done, i, outcomes);
        outcomes := outcomes + [o];
        ExtendPrefix(req, steps, begun, trace, w, done, i, before, StepRun(more, o));
        trace := trace + more;
      }
      if run.Some? {
        run := Some(run.value.(finished := true));
      }
      trace := trace + [World()];
      result := Returned(outcomes);
    }
  }

  /** What is left of an attempt once its run is open. */
  ghost function AfterOpening(req: Request, begun: World): Attempt {
    var steps := PlanSteps(req.plan);
    if InterruptedRefusal(steps, begun).Some? then Attempt([], Refused(InterruptedRefusal(steps, begun).value))
    else Loop(req, steps, begun, DoneRows(begun), 0, [])
  }

  lemma RunSplits(req: Request, w: World, begun: World, opening: seq<World>, rest: Attempt)
    requires GateRefusal(req).None? && StartRefusal(req, w).None? && begun == Begun(req, w)
    requires opening == (if w.run.None? then [begun] else []) && rest == AfterOpening(req, begun)
    ensures Run(req, w) == Prepend(opening, rest)
    ensures LastWorld(w, opening + rest.trace) == LastWorld(begun, rest.trace)
  {
  }

  ghost function Prepend(trace: seq<World>, a: Attempt): Attempt {
    Attempt(trace + a.trace, a.result)
  }

  lemma PrependTwice(first: seq<World>, second: seq<World>, a: Attempt)
    ensures Prepend(first, Prepend(second, a)) == Prepend(first + second, a)
  {
    assert first + (second + a.trace) == (first + second) + a.trace;
  }

  /** After `trace`, the attempt stands at `w` with steps from `i` on to go. */
  ghost predicate IsPrefix(req: Request, steps: seq<Step>, begun: World, trace: seq<World>, w: World,
                           done: map<nat, JournalRow>, i: nat, outcomes: seq<Outcome>)
  {
    && i <= |steps|
    && w == LastWorld(begun, trace)
    && Loop(req, steps, begun, done, 0, []) == Prepend(trace, Loop(req, steps, w, done, i, outcomes))
  }

  lemma ExtendPrefix(req: Request, steps: seq<Step>, begun: World, trace: seq<World>, w: World,
                     done: map<nat, JournalRow>, i: nat, outcomes: seq<Outcome>, s: StepRun)
    requires IsPrefix(req, steps, begun, trace, w, done, i, outcomes) && i < |steps|
    requires !SkipRefused(req, steps, done, i) && s == StepAt(req, steps, w, done, i, outcomes)
    ensures IsPrefix(req, steps, begun, trace + s.trace, LastWorld(w, s.trace), done, i + 1, outcomes + [s.outcome])
  {
    LoopStep(req, steps, w, done, i, outcomes, s);
    PrependTwice(trace, s.trace, Loop(req, steps, LastWorld(w, s.trace), done, i + 1, outcomes + [s.outcome]));
    assert LastWorld(begun, trace + s.trace) == LastWorld(LastWorld(begun, trace), s.trace);
  }

  lemma LoopStep(req: Request, steps: seq<Step>, w: World, done: map<nat, JournalRow>, i: nat, outcomes: seq<Outcome>, s: StepRun)
    requires i < |steps| && !SkipRefused(req, steps, done, i) && s == StepAt(req, steps, w, done, i, outcomes)
    ensures Loop(req, steps, w, done, i, outcomes)
         == Prepend(s.trace, Loop(req, steps, LastWorld(w, s.trace), done, i + 1, outcomes + [s.outcome]))
  {
  }

  lemma {:induction false} WritesReachDisk(w: World, after: seq<Content>)
    ensures LastWorld(w, EstateWrites(w, after))
         == w.(disk := Disk(Last(w.disk.content, after), w.disk.stamp + |after|))
    decreases |after|
  {
    if after != [] {
      WritesReachDisk(Wrote(w, after[0]), after[1..]);
    }
  }
}
