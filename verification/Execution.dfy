/** The crash-resumable executor (app/execution.py) as write sequences.

    `Run` gives one attempt at a run: every durable state it goes through, in
    order, and how it ends.  A crash stops the attempt after any of those writes,
    so the world it leaves is the one at that position. */
module Execution {
  import opened Rights
  import opened Plan
  import opened Approvals
  import opened Estate

  /** The estate with a stamp that every write to it moves on; its fingerprint is
      an injective function of both, so the value stands for the fingerprint. */
  datatype Disk = Disk(content: Content, stamp: nat)

  datatype StepStatus = Completed | InProgress | Failed | Unsupported | NotApproved

  datatype JournalRow = JournalRow(urn: Urn, action: Action, status: StepStatus, changed: bool)

  datatype RunRow = RunRow(planHash: PlanHash, approvalId: nat, finished: bool, fingerprint: Option<Disk>)

  datatype LogLine = LogLine(seqNo: nat, urn: Urn, action: Action, status: StepStatus, changed: bool)

  datatype Call = Call(seqNo: nat, urn: Urn, action: Action)

  /** Everything about one run id: its journal, its receipts, the estate, and an
      account of the adapter calls made for it (which the executor never reads). */
  datatype World = World(
    disk: Disk,
    run: Option<RunRow>,
    rows: map<nat, JournalRow>,
    log: seq<LogLine>,
    calls: seq<Call>)

  datatype LedgerUse = NoLedger | IntactLedger | BrokenLedger

  /** One call of execute_plan.  `perform` is the adapter registry it was given,
      applied to the adapter context; `faults` says after how many of its writes
      the adapter call for a step raises, for the steps where it does. */
  datatype Request = Request(
    plan: ImpactPlan,
    approval: Approval,
    store: Tables,
    perform: (Content, Urn, Action) -> Effect,
    ledger: LedgerUse,
    faults: map<nat, nat>)

  datatype Outcome = Outcome(step: Step, status: StepStatus, changed: bool, resumed: bool)
  {
    predicate Succeeded() { status.Completed? }
  }

  datatype Refusal =
    | WrongPlan | NotAnApproval | GateRefused | ApprovalSuperseded | LedgerFailed
    | RunOfAnotherPlan | RunOfAnotherApproval | EstateDrifted
    | ManyInterrupted | StepMismatch | OutsideScope

  datatype RunResult = Returned(outcomes: seq<Outcome>) | Refused(reason: Refusal)

  datatype Attempt = Attempt(trace: seq<World>, result: RunResult)

  function LastWorld(w: World, trace: seq<World>): World {
    if trace == [] then w else trace[|trace| - 1]
  }

  lemma LastOfConcat(w: World, a: seq<World>, b: seq<World>)
    ensures LastWorld(w, a + b) == LastWorld(LastWorld(w, a), b)
  {
  }

  // --- single writes --------------------------------------------------------

  function Pending(w: World): set<nat> {
    set s | s in w.rows && w.rows[s].status.InProgress?
  }

  function DoneRows(w: World): map<nat, JournalRow> {
    map s | s in w.rows && w.rows[s].status.Completed? :: w.rows[s]
  }

  function Started(req: Request, w: World): World {
    w.(run := Some(RunRow(HashOf(req.plan), req.approval.id, false, Some(w.disk))))
  }

  function Intended(w: World, step: Step): World {
    w.(rows := w.rows[step.seqNo := JournalRow(step.urn, step.action, InProgress, false)])
  }

  function Called(w: World, step: Step): World {
    w.(calls := w.calls + [Call(step.seqNo, step.urn, step.action)])
  }

  function Wrote(w: World, c: Content): World {
    w.(disk := Disk(c, w.disk.stamp + 1))
  }

  function Recorded(w: World, o: Outcome): World {
    w.(rows := w.rows[o.step.seqNo := JournalRow(o.step.urn, o.step.action, o.status, o.changed)],
       run := if w.run.Some? then Some(w.run.value.(fingerprint := Some(w.disk))) else None)
  }

  function Finished(w: World): World {
    w.(run := if w.run.Some? then Some(w.run.value.(finished := true)) else None)
  }

  function LineOf(o: Outcome): LogLine {
    LogLine(o.step.seqNo, o.step.urn, o.step.action, o.status, o.changed)
  }

  predicate IsLogged(log: seq<LogLine>, s: nat) {
    exists k | 0 <= k < |log| :: log[k].seqNo == s
  }

  /** _log_once: the write it makes, if any. */
  function LogOnce(req: Request, w: World, o: Outcome): seq<World> {
    if req.ledger.NoLedger? || IsLogged(w.log, o.step.seqNo) then []
    else [w.(log := w.log + [LineOf(o)])]
  }

  function EstateWrites(w: World, after: seq<Content>): (trace: seq<World>)
    ensures |trace| == |after|
    decreases |after|
  {
    if after == [] then []
    else [Wrote(w, after[0])] + EstateWrites(Wrote(w, after[0]), after[1..])
  }

  // --- one step -------------------------------------------------------------

  datatype StepRun = StepRun(trace: seq<World>, outcome: Outcome)

  predicate IsDependent(a: Action) { a.Rebuild? || a.Retrain? || a.Replace? }

  /** Whether `prior` concerns something this step's result is made from. */
  predicate Feeds(plan: ImpactPlan, prior: Urn, urn: Urn) {
    prior == urn || prior in Ancestors(plan, urn)
  }

  predicate IsBlocked(plan: ImpactPlan, step: Step, outcomes: seq<Outcome>) {
    && IsDependent(step.action)
    && exists k | 0 <= k < |outcomes| ::
         !outcomes[k].Succeeded() && Feeds(plan, outcomes[k].step.urn, step.urn)
  }

  function FaultFor(req: Request, s: nat): Option<nat> {
    if s in req.faults then Some(req.faults[s]) else None
  }

  function CallEffect(req: Request, c: Content, step: Step): Effect {
    WithFault(req.perform(c, step.urn, step.action), FaultFor(req, step.seqNo))
  }

  function StatusOf(s: CallStatus): StepStatus {
    match s
    case Succeeded => Completed
    case FailedCall => Failed
    case UnsupportedCall => Unsupported
  }

  /** Record the outcome together with the fingerprint, then log it. */
  function Conclude(req: Request, w: World, o: Outcome): seq<World> {
    [Recorded(w, o)] + LogOnce(req, Recorded(w, o), o)
  }

  /** The step's adapter call, with effect `e`, from intent to conclusion. */
  function Perform(req: Request, w: World, step: Step, e: Effect): StepRun {
    var intended := Intended(w, step);
    var called := Called(intended, step);
    var writes := EstateWrites(called, e.after);
    var o := Outcome(step, StatusOf(e.status), e.changed, false);
    StepRun([intended, called] + writes + Conclude(req, LastWorld(called, writes), o), o)
  }

  function RunStep(req: Request, w: World, step: Step, outcomes: seq<Outcome>): StepRun {
    if IsBlocked(req.plan, step, outcomes) then
      var o := Outcome(step, Failed, false, false);
      StepRun(Conclude(req, w, o), o)
    else if !Covers(req.approval.scope, step.urn, step.action) then
      var o := Outcome(step, NotApproved, false, false);
      StepRun([Intended(w, step)] + Conclude(req, Intended(w, step), o), o)
    else Perform(req, w, step, CallEffect(req, w.disk.content, step))
  }

  /** A step the journal already has as completed is reported and not run. */
  function SkipStep(req: Request, w: World, step: Step, row: JournalRow): StepRun {
    var o := Outcome(step, Completed, row.changed, true);
    StepRun(LogOnce(req, w, o), o)
  }

  // --- one attempt ----------------------------------------------------------

  predicate Matches(row: JournalRow, step: Step) {
    row.urn == step.urn && row.action == step.action
  }

  function StepAt(req: Request, steps: seq<Step>, w: World, done: map<nat, JournalRow>, i: nat, outcomes: seq<Outcome>): StepRun
    requires i < |steps|
  {
    var step := steps[i];
    if i in done then SkipStep(req, w, step, done[i]) else RunStep(req, w, step, outcomes)
  }

  predicate SkipRefused(req: Request, steps: seq<Step>, done: map<nat, JournalRow>, i: nat)
    requires i < |steps|
  {
    var step := steps[i];
    i in done && !(Matches(done[i], step) && Covers(req.approval.scope, step.urn, step.action))
  }

  function Loop(req: Request, steps: seq<Step>, w: World, done: map<nat, JournalRow>, i: nat, outcomes: seq<Outcome>): Attempt
    requires i <= |steps|
    decreases |steps| - i
  {
    if i == |steps| then Attempt([Finished(w)], Returned(outcomes))
    else if SkipRefused(req, steps, done, i) then
      Attempt([], Refused(if Matches(done[i], steps[i]) then OutsideScope else StepMismatch))
    else
      var s := StepAt(req, steps, w, done, i, outcomes);
      var rest := Loop(req, steps, LastWorld(w, s.trace), done, i + 1, outcomes + [s.outcome]);
      Attempt(s.trace + rest.trace, rest.result)
  }

  /** The checks made before anything about the run is read. */
  function GateRefusal(req: Request): Option<Refusal> {
    if req.approval.planHash != HashOf(req.plan) then Some(WrongPlan)
    else if !req.approval.IsApproved() then Some(NotAnApproval)
    else
      match RequireApproval(req.store, req.plan)
      case Err(_) => Some(GateRefused)
      case Ok(current) =>
        if current != req.approval then Some(ApprovalSuperseded)
        else if req.ledger.BrokenLedger? then Some(LedgerFailed)
        else None
  }

  /** ExecutionJournal.start on an existing run. */
  function StartRefusal(req: Request, w: World): Option<Refusal> {
    if w.run.None? then None
    else if w.run.value.planHash != HashOf(req.plan) then Some(RunOfAnotherPlan)
    else if w.run.value.approvalId != req.approval.id then Some(RunOfAnotherApproval)
    else if w.run.value.fingerprint != Some(w.disk) && |Pending(w)| != 1 then Some(EstateDrifted)
    else None
  }

  /** The checks on actions that began but did not record an outcome. */
  function InterruptedRefusal(steps: seq<Step>, w: World): Option<Refusal> {
    if |Pending(w)| > 1 then Some(ManyInterrupted)
    else if exists s | s in Pending(w) ::
              s >= |steps| || !Matches(w.rows[s], steps[s]) then Some(StepMismatch)
    else None
  }

  function Begun(req: Request, w: World): World {
    if w.run.None? then Started(req, w) else w
  }

  function Run(req: Request, w: World): Attempt {
    if GateRefusal(req).Some? then Attempt([], Refused(GateRefusal(req).value))
    else if StartRefusal(req, w).Some? then Attempt([], Refused(StartRefusal(req, w).value))
    else
      var begun := Begun(req, w);
      var opening := if w.run.None? then [begun] else [];
      var steps := PlanSteps(req.plan);
      if InterruptedRefusal(steps, begun).Some? then Attempt(opening, Refused(InterruptedRefusal(steps, begun).value))
      else
        var rest := Loop(req, steps, begun, DoneRows(begun), 0, []);
        Attempt(opening + rest.trace, rest.result)
  }

  /** The attempt gets past every check made before the first step. */
  predicate IsAdmitted(req: Request, w: World) {
    GateRefusal(req).None? && StartRefusal(req, w).None? && InterruptedRefusal(PlanSteps(req.plan), Begun(req, w)).None?
  }

  // --- histories ------------------------------------------------------------

  /** What can happen to a run: an attempt that makes at most `writes` writes
      before the process dies, or somebody else changing the estate. */
  datatype HistoryEvent = Attempted(req: Request, writes: nat) | Drift(content: Content)

  function Happens(w: World, e: HistoryEvent): seq<World> {
    match e
    case Drift(c) => [Wrote(w, c)]
    case Attempted(req, writes) =>
      var trace := Run(req, w).trace;
      if writes < |trace| then trace[..writes] else trace
  }

  /** Every durable state a history goes through after `w`. */
  function History(w: World, events: seq<HistoryEvent>): seq<World>
    decreases |events|
  {
    if events == [] then []
    else
      var first := Happens(w, events[0]);
      first + History(LastWorld(w, first), events[1..])
  }

  function After(w: World, events: seq<HistoryEvent>): World {
    LastWorld(w, History(w, events))
  }

  predicate IsFresh(w: World) {
    w.run.None? && w.rows == map[] && w.log == [] && w.calls == []
  }

  // --- reports --------------------------------------------------------------

  /** load_report: the outcomes as the journal has them. */
  function LoadOutcomes(plan: ImpactPlan, w: World, i: nat): seq<Outcome>
    requires i <= |PlanSteps(plan)|
    decreases |PlanSteps(plan)| - i
  {
    if i == |PlanSteps(plan)| then []
    else
      var step := PlanSteps(plan)[i];
      (if step.seqNo in w.rows
       then [Outcome(step, w.rows[step.seqNo].status, w.rows[step.seqNo].changed, true)] else [])
      + LoadOutcomes(plan, w, i + 1)
  }
}
