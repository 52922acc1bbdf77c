/** Completed implies verified: what each completed step achieves stays achieved. */
module Containment {
  import opened Ordering
  import opened Rights
  import opened Plan
  import opened Approvals
  import opened Estate
  import opened Provenance
  import opened Execution
  import opened JournalSafety
  import opened JournalState
  import opened Reports
  import opened Verification

  // --- what a completed action achieves -----------------------------------------

  predicate IsIndexAction(urn: Urn, a: Action) { urn == Local(ReviewIndex) && (a.Purge? || a.Rebuild?) }

  predicate IndexPurged(c: Content) { c.vectors.None? && c.manifest == Some(PurgedManifest) }

  /** The lasting effect of one completed action, other than on the index; false
      for the actions that cannot complete. */
  ghost predicate Goal(base: Content, urn: Urn, a: Action, c: Content) {
    match ResolveArtifact(urn)
    case Some(ServiceRecord) => a.Freeze? && EndpointRefuses(c)
    case Some(ExportRecord) => a.Quarantine? && ExportGone(c)
    case Some(TableRecord(t)) => (a.Purge? || a.Rebuild?) && TableClean(c, t)
    case Some(ModelRecord(name)) => a.Retrain? || (a.Replace? && ServesRetrained(base, c, name))
    case Some(IndexRecord) => IsIndexAction(urn, a)
    case Some(ReportRecord) => false
    case None => false
  }

  lemma ApprovedRowsAreClean(base: Content, rows: seq<Row>)
    requires ApprovedIsClean(base) && OnlyApproved(base, rows)
    ensures forall r | r in rows :: !FromPartner(r.id)
  {
    forall r | r in rows ensures !FromPartner(r.id) {
      assert IsApprovedId(base, r.id);
    }
  }

  lemma CompletionMeetsGoal(base: Content, ctx: Context, c: Content, urn: Urn, a: Action)
    requires ApprovedIsClean(base) && Sound(base, c) && Execute(ctx, c, urn, a).status.Succeeded?
    ensures Goal(base, urn, a, Last(c, Execute(ctx, c, urn, a).after))
  {
    match (ResolveArtifact(urn).value, a)
    case (TableRecord(t), Rebuild) =>
      RebuildEndsApproved(base, ctx, c, t);
      var done := Last(c, RebuildTablesEffect(ctx, c, t).after);
      ApprovedRowsAreClean(base, done.tables[NormalizedTable]);
      ApprovedRowsAreClean(base, done.tables[SentimentTable]);
    case (ModelRecord(name), Replace) =>
      assert ModelTrue(base, c, name);
      assert VersionOf(SetActive(c, name, V2Approved), name, V2Approved) == VersionOf(c, name, V2Approved);
    case _ =>
  }

  /** No row of `t` in `x` but those `t` had in `c` and rows of the approved feed. */
  ghost predicate OnlyMoreApproved(base: Content, c: Content, x: Content, t: Table) {
    t in c.tables ==> t in x.tables && forall r | r in x.tables[t] :: r in c.tables[t] || IsApprovedId(base, r.id)
  }

  lemma RebuildAddsApproved(base: Content, ctx: Context, c: Content, u: Table, x: Content, t: Table)
    requires Sound(base, c) && RebuildTablesEffect(ctx, c, u).status.Succeeded? && x in RebuildTablesEffect(ctx, c, u).after
    ensures OnlyMoreApproved(base, c, x, t)
  {
    RebuildWrites(base, ctx, c, u, x);
    RebuildStates(ctx, c, u, x);
  }

  lemma PurgeAddsNothing(base: Content, c: Content, u: Table, x: Content, t: Table)
    requires x in PurgeTableEffect(c, u).after
    ensures OnlyMoreApproved(base, c, x, t)
  {
  }

  lemma OthersLeaveTables(ctx: Context, c: Content, urn: Urn, a: Action, x: Content)
    requires x in Execute(ctx, c, urn, a).after && !ResolveArtifact(urn).value.TableRecord?
    ensures x.tables == c.tables
  {
    match (ResolveArtifact(urn).value, a)
    case (ModelRecord(name), Retrain) => RetrainStates(ctx, c, name, x);
    case _ =>
  }

  lemma TableGoalKept(base: Content, ctx: Context, c: Content, urn: Urn, a: Action, x: Content, t: Table)
    requires ApprovedIsClean(base) && Sound(base, c) && TableClean(c, t)
    requires x in Execute(ctx, c, urn, a).after
    ensures TableClean(x, t)
  {
    match ResolveArtifact(urn).value
    case TableRecord(u) =>
      if a.Rebuild? { RebuildAddsApproved(base, ctx, c, u, x, t); } else { PurgeAddsNothing(base, c, u, x, t); }
      forall r | r in x.tables[t] && IsApprovedId(base, r.id) ensures !FromPartner(r.id) {
      }
    case _ => OthersLeaveTables(ctx, c, urn, a, x);
  }

  ghost predicate ServesRetrained(base: Content, c: Content, name: ModelName) {
    ActiveVersion(c, name) == Some(V2Approved) && VersionOf(c, name, V2Approved) == Some(ApprovedVersion(base))
  }

  lemma RetrainKeepsServing(base: Content, ctx: Context, c: Content, other: ModelName, x: Content, name: ModelName)
    requires Sound(base, c) && RetrainEffect(ctx, c, other).status.Succeeded? && x in RetrainEffect(ctx, c, other).after
    requires ServesRetrained(base, c, name)
    ensures ServesRetrained(base, x, name)
  {
    RetrainStates(ctx, c, other, x);
    if other == name { RetrainKeepsWhole(ctx, c, name, x); }
  }

  lemma TableActionsLeaveModels(ctx: Context, c: Content, urn: Urn, a: Action, x: Content)
    requires x in Execute(ctx, c, urn, a).after && !ResolveArtifact(urn).value.ModelRecord?
    ensures x.models == c.models
  {
    match (ResolveArtifact(urn).value, a)
    case (TableRecord(t), Rebuild) => RebuildStates(ctx, c, t, x);
    case _ =>
  }

  lemma ModelGoalKept(base: Content, ctx: Context, c: Content, urn: Urn, a: Action, x: Content, name: ModelName)
    requires Sound(base, c) && x in Execute(ctx, c, urn, a).after
    requires ServesRetrained(base, c, name)
    ensures ServesRetrained(base, x, name)
  {
    match ResolveArtifact(urn).value
    case ModelRecord(other) =>
      if a.Retrain? { RetrainKeepsServing(base, ctx, c, other, x, name); }
    case _ => TableActionsLeaveModels(ctx, c, urn, a, x);
  }

  lemma ServiceAndExportKept(base: Content, ctx: Context, c: Content, urn: Urn, a: Action, x: Content)
    requires Sound(base, c) && x in Execute(ctx, c, urn, a).after
    ensures EndpointRefuses(c) ==> EndpointRefuses(x)
    ensures ExportGone(c) ==> ExportGone(x)
  {
    match (ResolveArtifact(urn).value, a)
    case (ModelRecord(other), Retrain) => RetrainStates(ctx, c, other, x);
    case (TableRecord(t), Rebuild) => RebuildWrites(base, ctx, c, t, x);
    case _ =>
  }

  /** No write of any adapter undoes what a completed action achieved. */
  lemma WritesKeepGoals(base: Content, ctx: Context, c: Content, urn: Urn, a: Action, x: Content, goalUrn: Urn, goalAction: Action)
    requires ApprovedIsClean(base) && Sound(base, c) && x in Execute(ctx, c, urn, a).after
    requires Goal(base, goalUrn, goalAction, c)
    ensures Goal(base, goalUrn, goalAction, x)
  {
    ServiceAndExportKept(base, ctx, c, urn, a, x);
    match ResolveArtifact(goalUrn)
    case Some(TableRecord(t)) =>
      if goalAction.Purge? || goalAction.Rebuild? { TableGoalKept(base, ctx, c, urn, a, x, t); }
    case Some(ModelRecord(name)) =>
      if goalAction.Replace? { ModelGoalKept(base, ctx, c, urn, a, x, name); }
    case _ =>
  }

  // --- the index ------------------------------------------------------------------

  lemma IndexUntouched(base: Content, ctx: Context, c: Content, urn: Urn, a: Action, x: Content)
    requires Sound(base, c) && x in Execute(ctx, c, urn, a).after && !IsIndexAction(urn, a)
    ensures x.vectors == c.vectors && x.manifest == c.manifest
  {
    match (ResolveArtifact(urn).value, a)
    case (ModelRecord(other), Retrain) => RetrainStates(ctx, c, other, x);
    case (TableRecord(t), Rebuild) => RebuildWrites(base, ctx, c, t, x);
    case _ =>
  }

  lemma IndexCompletion(base: Content, ctx: Context, c: Content, a: Action)
    requires ApprovedIsClean(base) && Sound(base, c) && (a.Purge? || a.Rebuild?)
    requires Execute(ctx, c, Local(ReviewIndex), a).status.Succeeded?
    ensures var done := Last(c, Execute(ctx, c, Local(ReviewIndex), a).after);
            IndexHolds(done) && (a.Purge? ==> IndexPurged(done))
  {
    if a.Rebuild? {
      var rows := c.tables[NormalizedTable];
      RebuiltIndexHolds(base, c, Last(c, Execute(ctx, c, Local(ReviewIndex), a).after), rows);
    }
  }

  lemma RebuiltIndexHolds(base: Content, c: Content, x: Content, rows: seq<Row>)
    requires ApprovedIsClean(base) && LabelsTrue(base, c)
    requires NormalizedTable in c.tables && rows == c.tables[NormalizedTable]
    requires forall r | r in rows :: r.feed == ApprovedLabel
    requires x.vectors == Some(Vectorise(rows)) && x.manifest == Some(IndexManifestFor(rows, REPLACEMENT_SOURCE, ApprovedLabel))
    ensures IndexHolds(x)
  {
    VectorsAreRows(rows);
    assert OnlyApproved(base, rows);
    ApprovedRowsAreClean(base, rows);
    CleanRowsCleanIds(rows);
    SortingTwice(rows);
  }

  lemma CleanRowsCleanIds(rows: seq<Row>)
    requires forall r | r in rows :: !FromPartner(r.id)
    ensures NoPartner(Ids(rows)) && NoPartner(SortedIds(rows))
  {
    SortPermutes(Ids(rows), StringOrder());
    forall id | id in Ids(rows) ensures !FromPartner(id) {
      var k :| 0 <= k < |rows| && Ids(rows)[k] == id;
      assert rows[k] in rows;
    }
  }

  lemma SortingTwice(rows: seq<Row>)
    ensures Sort(SortedIds(rows), StringOrder()) == Sort(Ids(rows), StringOrder())
  {
    BasicOrders();
    SortPermutes(Ids(rows), StringOrder());
    SortCanonical(SortedIds(rows), Ids(rows), StringOrder());
  }

  lemma PurgeKeepsPurged(ctx: Context, c: Content, x: Content)
    requires IndexPurged(c) && x in Execute(ctx, c, Local(ReviewIndex), Purge).after
    ensures IndexPurged(x) && IndexHolds(x)
  {
  }

  // --- the run --------------------------------------------------------------------

  ghost predicate IsIndexStep(steps: seq<Step>, s: nat) {
    s < |steps| && IsIndexAction(steps[s].urn, steps[s].action)
  }

  ghost predicate IsLastIndexStep(steps: seq<Step>, s: nat) {
    IsIndexStep(steps, s) && forall t | s < t < |steps| :: !IsIndexStep(steps, t)
  }

  predicate IsReplaceOf(urn: Urn, a: Action, name: ModelName) {
    a.Replace? && ResolveArtifact(urn) == Some(ModelRecord(name))
  }

  ghost predicate ReplacesModel(steps: seq<Step>, name: ModelName) {
    exists s: nat | s < |steps| :: IsReplaceOf(steps[s].urn, steps[s].action, name)
  }

  /** A model no step replaces is served as it was built. */
  ghost predicate Unreplaced(base: Content, steps: seq<Step>, c: Content) {
    forall name: ModelName | !ReplacesModel(steps, name) :: ActiveVersion(c, name) == ActiveVersion(base, name)
  }

  predicate IsPurgeOf(urn: Urn, a: Action, t: Table) {
    a.Purge? && ResolveArtifact(urn) == Some(TableRecord(t))
  }

  /** A table rebuild, which fills both derived tables whichever it is asked for. */
  predicate IsRefill(urn: Urn, a: Action) {
    && a.Rebuild? && ResolveArtifact(urn).Some? && ResolveArtifact(urn).value.TableRecord?
    && IsRebuildable(ResolveArtifact(urn).value.table)
  }

  ghost predicate PurgesTable(steps: seq<Step>, t: Table) {
    exists s: nat | s < |steps| :: IsPurgeOf(steps[s].urn, steps[s].action, t)
  }

  ghost predicate RefillsTables(steps: seq<Step>) {
    exists s: nat | s < |steps| :: IsRefill(steps[s].urn, steps[s].action)
  }

  ghost predicate PurgeDone(steps: seq<Step>, w: World, t: Table) {
    exists s: nat | s < |steps| && IsPurgeOf(steps[s].urn, steps[s].action, t) :: IsDone(w, s)
  }

  ghost predicate RefillsDone(steps: seq<Step>, w: World) {
    forall s: nat | s < |steps| && IsRefill(steps[s].urn, steps[s].action) :: IsDone(w, s)
  }

  ghost predicate SameTable(base: Content, c: Content, t: Table) {
    (t in c.tables <==> t in base.tables) && (t in base.tables ==> c.tables[t] == base.tables[t])
  }

  ghost predicate IsRefilled(base: Content, c: Content, t: Table) {
    && ApprovedFeedTable in base.tables && t in c.tables
    && c.tables[t] == if t.NormalizedTable? then DeriveAll(base.tables[ApprovedFeedTable], ApprovedLabel)
                      else SentimentRows(DeriveAll(base.tables[ApprovedFeedTable], ApprovedLabel))
  }

  /** What table `t` holds when the plan's steps only ever purge it, only ever refill
      it, or leave it alone. */
  ghost predicate TablePlanned(base: Content, steps: seq<Step>, w: World, t: Table) {
    var c, refilled := w.disk.content, RefillsTables(steps) && IsRebuildable(t);
    && (!PurgesTable(steps, t) && !refilled ==> SameTable(base, c, t))
    && (!PurgesTable(steps, t) && refilled && RefillsDone(steps, w) ==> IsRefilled(base, c, t))
    && (!refilled && PurgeDone(steps, w, t) ==> t in c.tables && c.tables[t] == [])
  }

  ghost predicate TablesPlanned(base: Content, steps: seq<Step>, w: World) {
    forall t: Table :: TablePlanned(base, steps, w, t)
  }

  lemma TableWrites(ctx: Context, c: Content, urn: Urn, a: Action, x: Content, t: Table)
    requires x in Execute(ctx, c, urn, a).after
    ensures IsPurgeOf(urn, a, t) ==> t in x.tables && x.tables[t] == []
    ensures !IsPurgeOf(urn, a, t) && !(IsRefill(urn, a) && IsRebuildable(t)) ==> SameTable(c, x, t)
  {
    match ResolveArtifact(urn).value
    case TableRecord(u) =>
      if a.Rebuild? { RebuildStates(ctx, c, u, x); }
    case _ => OthersLeaveTables(ctx, c, urn, a, x);
  }

  lemma RefillFills(base: Content, ctx: Context, c: Content, urn: Urn, a: Action, t: Table)
    requires Sound(base, c) && IsRefill(urn, a) && IsRebuildable(t) && Execute(ctx, c, urn, a).status.Succeeded?
    ensures IsRefilled(base, Last(c, Execute(ctx, c, urn, a).after), t)
  {
    RebuildEndsRebuilt(ctx, c, ResolveArtifact(urn).value.table);
  }

  /** One write of step `i`'s call keeps it, while step `i` is not completed. */
  lemma WriteKeepsTables(base: Content, steps: seq<Step>, ctx: Context, w: World, i: nat, x: World)
    requires i < |steps| && !IsDone(w, i) && TablesPlanned(base, steps, w)
    requires x.disk.content in Execute(ctx, w.disk.content, steps[i].urn, steps[i].action).after
    requires forall s :: IsDone(x, s) <==> IsDone(w, s)
    ensures TablesPlanned(base, steps, x)
  {
    forall t: Table ensures TablePlanned(base, steps, x, t) {
      assert TablePlanned(base, steps, w, t);
      TableWrites(ctx, w.disk.content, steps[i].urn, steps[i].action, x.disk.content, t);
    }
  }

  lemma CompletionKeepsTables(base: Content, steps: seq<Step>, ctx: Context, c: Content, i: nat, w: World, x: World)
    requires i < |steps| && Sound(base, c) && TablesPlanned(base, steps, w) && x.disk.content == w.disk.content
    requires var e := Execute(ctx, c, steps[i].urn, steps[i].action);
             e.status.Succeeded? && w.disk.content == Last(c, e.after)
    requires forall s | s != i :: IsDone(x, s) <==> IsDone(w, s)
    ensures TablesPlanned(base, steps, x)
  {
    var urn, a := steps[i].urn, steps[i].action;
    forall t: Table ensures TablePlanned(base, steps, x, t) {
      assert TablePlanned(base, steps, w, t);
      if IsRefill(urn, a) && IsRebuildable(t) { RefillFills(base, ctx, c, urn, a, t); }
      if IsPurgeOf(urn, a, t) { TableWrites(ctx, c, urn, a, w.disk.content, t); }
    }
  }

  lemma SameDiskKeepsTables(base: Content, steps: seq<Step>, w: World, x: World)
    requires TablesPlanned(base, steps, w) && x.disk.content == w.disk.content
    requires forall s | IsDone(x, s) :: IsDone(w, s)
    ensures TablesPlanned(base, steps, x)
  {
    forall t: Table ensures TablePlanned(base, steps, x, t) {
      assert TablePlanned(base, steps, w, t);
    }
  }

  /** Everything the journal shows as completed has been achieved. */
  ghost predicate Achieved(base: Content, steps: seq<Step>, w: World) {
    && Sound(base, w.disk.content)
    && Unreplaced(base, steps, w.disk.content)
    && TablesPlanned(base, steps, w)
    && (forall s: nat | s < |steps| && IsDone(w, s) :: Goal(base, steps[s].urn, steps[s].action, w.disk.content))
    && (forall s: nat | IsLastIndexStep(steps, s) && IsDone(w, s) :: IndexAchieved(steps[s].action, w.disk.content))
  }

  ghost predicate IndexAchieved(a: Action, c: Content) {
    IndexHolds(c) && (a.Purge? ==> IndexPurged(c))
  }

  /** Steps never come earlier in stage than a step before them. */
  ghost predicate Staged(steps: seq<Step>) {
    forall i, j | 0 <= i < j < |steps| :: StageOf(steps[i]) <= StageOf(steps[j])
  }

  lemma OnlyReplaceActivates(ctx: Context, c: Content, urn: Urn, a: Action, x: Content, name: ModelName)
    requires x in Execute(ctx, c, urn, a).after && !IsReplaceOf(urn, a, name)
    ensures ActiveVersion(x, name) == ActiveVersion(c, name)
  {
    match ResolveArtifact(urn).value
    case ModelRecord(other) =>
      if a.Retrain? { RetrainStates(ctx, c, other, x); }
    case _ => TableActionsLeaveModels(ctx, c, urn, a, x);
  }

  /** One write of step `i`'s call, while step `i` is not completed. */
  lemma WriteKeepsAchieved(base: Content, plan: ImpactPlan, steps: seq<Step>, ctx: Context, w: World, i: nat, x: World)
    requires ApprovedIsClean(base) && Staged(steps) && DependenciesDone(plan, steps, w)
    requires i < |steps| && !IsDone(w, i) && Achieved(base, steps, w)
    requires x.disk.content in Execute(ctx, w.disk.content, steps[i].urn, steps[i].action).after
    requires forall s :: IsDone(x, s) <==> IsDone(w, s)
    ensures Achieved(base, steps, x)
  {
    var c, y := w.disk.content, x.disk.content;
    WritesKeepSound(base, ctx, c, steps[i].urn, steps[i].action, y);
    WriteKeepsTables(base, steps, ctx, w, i, x);
    forall name: ModelName | !ReplacesModel(steps, name) ensures ActiveVersion(y, name) == ActiveVersion(base, name) {
      OnlyReplaceActivates(ctx, c, steps[i].urn, steps[i].action, y, name);
    }
    forall s: nat | s < |steps| && IsDone(x, s) ensures Goal(base, steps[s].urn, steps[s].action, y) {
      WritesKeepGoals(base, ctx, c, steps[i].urn, steps[i].action, y, steps[s].urn, steps[s].action);
    }
    forall s: nat | IsLastIndexStep(steps, s) && IsDone(x, s) ensures IndexAchieved(steps[s].action, y) {
      IndexWriteKept(base, plan, steps, ctx, w, i, y, s);
    }
  }

  lemma IndexWriteKept(base: Content, plan: ImpactPlan, steps: seq<Step>, ctx: Context, w: World, i: nat, y: Content, s: nat)
    requires Staged(steps) && DependenciesDone(plan, steps, w)
    requires i < |steps| && !IsDone(w, i) && Sound(base, w.disk.content)
    requires y in Execute(ctx, w.disk.content, steps[i].urn, steps[i].action).after
    requires IsLastIndexStep(steps, s) && IsDone(w, s) && IndexAchieved(steps[s].action, w.disk.content)
    ensures IndexAchieved(steps[s].action, y)
  {
    if IsIndexStep(steps, i) {
      assert i < s;
      if steps[s].action.Rebuild? {
        assert DependsOn(plan, steps, s, i);
        assert false;
      }
      assert StageOf(steps[i]) <= StageOf(steps[s]);
      assert steps[i].action.Purge?;
      PurgeKeepsPurged(ctx, w.disk.content, y);
    } else {
      IndexUntouched(base, ctx, w.disk.content, steps[i].urn, steps[i].action, y);
    }
  }

  /** Recording step `i` as completed, with its call's last write on the disk. */
  lemma CompletionKeepsAchieved(base: Content, plan: ImpactPlan, steps: seq<Step>, ctx: Context, w: World, i: nat, x: World)
    requires ApprovedIsClean(base) && Staged(steps) && DependenciesDone(plan, steps, w)
    requires i < |steps| && !IsDone(w, i) && Achieved(base, steps, w)
    requires var e := Execute(ctx, w.disk.content, steps[i].urn, steps[i].action);
             e.status.Succeeded? && x.disk.content == Last(w.disk.content, e.after)
    requires forall s | s != i :: IsDone(x, s) <==> IsDone(w, s)
    ensures Achieved(base, steps, x)
  {
    var c, y := w.disk.content, x.disk.content;
    var step := steps[i];
    var e := Execute(ctx, c, step.urn, step.action);
    var unrecorded := w.(disk := x.disk);
    assert forall s :: IsDone(unrecorded, s) <==> IsDone(w, s);
    if e.after != [] {
      WriteKeepsAchieved(base, plan, steps, ctx, w, i, unrecorded);
    } else {
      SameDiskKeepsAchieved(base, steps, w, unrecorded);
    }
    CompletionKeepsTables(base, steps, ctx, c, i, unrecorded, x);
    CompletionMeetsGoal(base, ctx, c, step.urn, step.action);
    if IsIndexStep(steps, i) {
      IndexCompletion(base, ctx, c, step.action);
    }
    forall s: nat | s < |steps| && IsDone(x, s) ensures Goal(base, steps[s].urn, steps[s].action, y) {
      if s != i { assert IsDone(unrecorded, s); }
    }
    forall s: nat | IsLastIndexStep(steps, s) && IsDone(x, s) ensures IndexAchieved(steps[s].action, y) {
      if s != i { assert IsDone(unrecorded, s); }
    }
  }

  lemma SameDiskKeepsAchieved(base: Content, steps: seq<Step>, w: World, x: World)
    requires Achieved(base, steps, w) && x.disk.content == w.disk.content
    requires forall s | IsDone(x, s) :: IsDone(w, s)
    ensures Achieved(base, steps, x)
  {
    SameDiskKeepsTables(base, steps, w, x);
  }

  /** The registry of a request is this estate's, for some adapter context. */
  ghost predicate UsesLocalAdapters(req: Request) {
    exists ctx: Context :: LocalRegistry(req, ctx)
  }

  ghost predicate LocalRegistry(req: Request, ctx: Context) {
    forall c, u, a :: req.perform(c, u, a) == Execute(ctx, c, u, a)
  }

  /** How a state of a call relates to the call: nothing written yet, one of its
      writes, or completed and recorded. */
  ghost predicate CallState(w: World, i: nat, e: Effect, x: World) {
    && (forall s | s != i :: IsDone(x, s) <==> IsDone(w, s))
    && (x.disk.content == w.disk.content || x.disk.content in e.after)
    && (IsDone(x, i) ==> e.status.Succeeded? && x.disk.content == Last(w.disk.content, e.after))
  }

  lemma PerformCallStates(req: Request, w: World, step: Step, e: Effect, x: World)
    requires !IsDone(w, step.seqNo) && x in Perform(req, w, step, e).trace
    ensures CallState(w, step.seqNo, e, x)
  {
    var called := Called(Intended(w, step), step);
    var writes := EstateWrites(called, e.after);
    var o := Perform(req, w, step, e).outcome;
    EstateWritesKeep(called, e.after);
    EstateWritesContents(called, e.after);
    if x in Conclude(req, LastWorld(called, writes), o) {
      ConcludedCall(req, w, step, e, o, LastWorld(called, writes), x);
    } else if x in writes {
      assert x == called.(disk := x.disk);
    }
  }

  lemma ConcludedCall(req: Request, w: World, step: Step, e: Effect, o: Outcome, written: World, x: World)
    requires !IsDone(w, step.seqNo) && o == Outcome(step, StatusOf(e.status), e.changed, false)
    requires written == Called(Intended(w, step), step).(disk := written.disk)
    requires written.disk.content == Last(w.disk.content, e.after) && x in Conclude(req, written, o)
    ensures CallState(w, step.seqNo, e, x)
  {
    ConcludeStates(req, written, o, x);
    assert e.after != [] ==> Last(w.disk.content, e.after) in e.after;
  }

  lemma CallKeepsAchieved(base: Content, req: Request, steps: seq<Step>, ctx: Context, w: World, i: nat, x: World)
    requires ApprovedIsClean(base) && Staged(steps) && DependenciesDone(req.plan, steps, w) && LocalRegistry(req, ctx)
    requires i < |steps| && steps[i].seqNo == i && !IsDone(w, i) && Achieved(base, steps, w)
    requires CallState(w, i, CallEffect(req, w.disk.content, steps[i]), x)
    ensures Achieved(base, steps, x)
  {
    var full := Execute(ctx, w.disk.content, steps[i].urn, steps[i].action);
    var e := CallEffect(req, w.disk.content, steps[i]);
    assert e == WithFault(full, FaultFor(req, i));
    assert forall y | y in e.after :: y in full.after;
    if IsDone(x, i) {
      CompletionKeepsAchieved(base, req.plan, steps, ctx, w, i, x);
    } else if x.disk.content == w.disk.content {
      SameDiskKeepsAchieved(base, steps, w, x);
    } else {
      WriteKeepsAchieved(base, req.plan, steps, ctx, w, i, x);
    }
  }

  lemma StepKeepsAchieved(base: Content, req: Request, steps: seq<Step>, ctx: Context, w: World, done: map<nat, JournalRow>, i: nat, outcomes: seq<Outcome>, s: StepRun)
    requires ApprovedIsClean(base) && Staged(steps) && DependenciesDone(req.plan, steps, w) && LocalRegistry(req, ctx)
    requires i < |steps| && IsNumbered(steps) && SnapshotOk(w, done, i) && Achieved(base, steps, w)
    requires s == StepAt(req, steps, w, done, i, outcomes)
    ensures forall x | x in s.trace :: Achieved(base, steps, x)
  {
    var step := steps[i];
    forall x | x in s.trace ensures Achieved(base, steps, x) {
      if i in done {
        assert x == w.(log := x.log);
        SameDiskKeepsAchieved(base, steps, w, x);
      } else if IsBlocked(req.plan, step, outcomes) {
        ConcludeStates(req, w, s.outcome, x);
        SameDiskKeepsAchieved(base, steps, w, x);
      } else if !Covers(req.approval.scope, step.urn, step.action) {
        if x in Conclude(req, Intended(w, step), s.outcome) { ConcludeStates(req, Intended(w, step), s.outcome, x); }
        SameDiskKeepsAchieved(base, steps, w, x);
      } else {
        PerformCallStates(req, w, step, CallEffect(req, w.disk.content, step), x);
        CallKeepsAchieved(base, req, steps, ctx, w, i, x);
      }
    }
  }

  lemma {:induction false} LoopKeepsAchieved(base: Content, req: Request, steps: seq<Step>, ctx: Context, w: World, done: map<nat, JournalRow>, i: nat, outcomes: seq<Outcome>)
    requires ApprovedIsClean(base) && Staged(steps) && LocalRegistry(req, ctx)
    requires i <= |steps| && IsNumbered(steps) && SnapshotOk(w, done, i) && Achieved(base, steps, w)
    requires Journalled(req.plan, steps, w) && Reflected(steps, w, outcomes) && |outcomes| == i
    ensures forall x | x in Loop(req, steps, w, done, i, outcomes).trace :: Achieved(base, steps, x)
    decreases |steps| - i
  {
    if i == |steps| {
      SameDiskKeepsAchieved(base, steps, w, Finished(w));
    } else if !SkipRefused(req, steps, done, i) {
      var s := StepAt(req, steps, w, done, i, outcomes);
      var v := LastWorld(w, s.trace);
      StepKeepsAchieved(base, req, steps, ctx, w, done, i, outcomes, s);
      StepContinues(req, steps, w, done, i, outcomes, s, v);
      LoopKeepsAchieved(base, req, steps, ctx, v, done, i + 1, outcomes + [s.outcome]);
    }
  }

  // --- whole histories --------------------------------------------------------------

  /** For any plan: if this run is that plan's run, what it completed is achieved. */
  ghost predicate RunAchieved(base: Content, plan: ImpactPlan, w: World) {
    && (w.run.None? ==> w.rows == map[] && Achieved(base, [], w))
    && (w.run.Some? && w.run.value.planHash == HashOf(plan) ==> Achieved(base, PlanSteps(plan), w))
  }

  lemma PlanIsStaged(plan: ImpactPlan)
    ensures Staged(PlanSteps(plan))
  {
    forall i, j | 0 <= i < j < |PlanSteps(plan)|
      ensures StageOf(PlanSteps(plan)[i]) <= StageOf(PlanSteps(plan)[j])
    {
      StepsAreStaged(plan, i, j);
    }
  }

  lemma BegunAchieved(base: Content, req: Request, w: World)
    requires RunAchieved(base, req.plan, w) && StartRefusal(req, w).None?
    ensures Achieved(base, PlanSteps(req.plan), Begun(req, w))
  {
    if w.run.None? {
      OpeningTables(base, PlanSteps(req.plan), w, Begun(req, w));
    }
  }

  lemma OpeningTables(base: Content, steps: seq<Step>, w: World, begun: World)
    requires TablesPlanned(base, [], w) && begun.disk == w.disk && begun.rows == map[]
    ensures TablesPlanned(base, steps, begun)
  {
    forall t: Table ensures TablePlanned(base, steps, begun, t) {
      assert TablePlanned(base, [], w, t);
    }
  }

  lemma RunKeepsAchieved(base: Content, plan: ImpactPlan, req: Request, ctx: Context, w: World, x: World)
    requires ApprovedIsClean(base) && LocalRegistry(req, ctx)
    requires RunJournalled(req.plan, w) && RunAchieved(base, req.plan, w)
    requires x in Run(req, w).trace
    ensures RunAchieved(base, plan, x)
  {
    var begun := Begun(req, w);
    var steps := PlanSteps(req.plan);
    PlanIsNumbered(req.plan);
    PlanIsStaged(req.plan);
    BegunSnapshot(begun);
    BegunAchieved(base, req, w);
    if InterruptedRefusal(steps, begun).None? {
      LoopKeepsAchieved(base, req, steps, ctx, begun, DoneRows(begun), 0, []);
    }
    assert Achieved(base, steps, x);
    RunFixesPlan(req, w, x);
    if HashOf(plan) == HashOf(req.plan) {
      HashDeterminesExecution(plan, req.plan);
    }
  }

  /** Attempts with this estate's adapters, and nobody else writing to it. */
  ghost predicate Undisturbed(events: seq<HistoryEvent>) {
    forall e | e in events :: e.Attempted? && UsesLocalAdapters(e.req)
  }

  lemma HappensKeepsAchieved(base: Content, plan: ImpactPlan, w: World, e: HistoryEvent, x: World)
    requires ApprovedIsClean(base) && e.Attempted? && UsesLocalAdapters(e.req)
    requires RunJournalled(e.req.plan, w) && RunAchieved(base, e.req.plan, w)
    requires x in Happens(w, e)
    ensures RunAchieved(base, plan, x)
  {
    var ctx :| LocalRegistry(e.req, ctx);
    RunKeepsAchieved(base, plan, e.req, ctx, w, x);
  }

  /** Over every sequence of attempts, failures, crashes and resumes, each durable
      state has achieved what its journal shows as completed. */
  lemma {:induction false} HistoryKeepsAchieved(base: Content, plan: ImpactPlan, w: World, events: seq<HistoryEvent>)
    requires ApprovedIsClean(base) && Undisturbed(events)
    requires forall p :: RunJournalled(p, w)
    requires forall p :: RunAchieved(base, p, w)
    ensures forall x | x in History(w, events) :: RunAchieved(base, plan, x)
    decreases |events|
  {
    if events != [] {
      var first := Happens(w, events[0]);
      assert events == [events[0]] + events[1..];
      forall x, p | x in first ensures RunAchieved(base, p, x) && RunJournalled(p, x) {
        HappensKeepsAchieved(base, p, w, events[0], x);
        HappensKeepsJournal(p, w, events[0], x);
      }
      HistoryKeepsAchieved(base, plan, LastWorld(w, first), events[1..]);
    }
  }

  // --- completed implies verified -----------------------------------------------------

  ghost predicate AllDone(steps: seq<Step>, x: World) {
    forall s: nat | s < |steps| :: IsDone(x, s)
  }

  lemma {:induction false} LastIndexStepExists(steps: seq<Step>, s: nat) returns (t: nat)
    requires IsIndexStep(steps, s)
    ensures IsLastIndexStep(steps, t)
    decreases |steps| - s
  {
    t := s;
    if u :| s < u < |steps| && IsIndexStep(steps, u) {
      t := LastIndexStepExists(steps, u);
    }
  }

  /** The served version is one an approved-only training made. */
  lemma RetrainedIsTrusted(base: Content, c: Content, name: ModelName)
    requires ApprovedIsClean(base) && ServesRetrained(base, c, name)
    ensures ModelTrusted(c, name)
  {
    var rows := base.tables[ApprovedFeedTable];
    VectorsAreRows(rows);
  }

  /** A destructive decision some of whose steps completed passes its probe, unless
      it is about a model that no step replaced. */
  lemma DoneDecisionPasses(base: Content, plan: ImpactPlan, x: World, d: Decision)
    requires ApprovedIsClean(base) && Achieved(base, PlanSteps(plan), x) && AllDone(PlanSteps(plan), x)
    requires d in plan.decisions && d.IsDestructive()
    ensures ResolveArtifact(d.urn).Some?
    ensures match ResolveArtifact(d.urn).value
            case ModelRecord(name) => ReplacesModel(PlanSteps(plan), name) ==> ModelTrusted(x.disk.content, name)
            case record => ContainmentPasses(x.disk.content, record)
  {
    var steps, c := PlanSteps(plan), x.disk.content;
    var a :| a in d.actions && Rights.IsDestructive(a);
    DecisionBecomesStep(plan, d, a);
    var s: nat :| s < |steps| && StepOfDecision(steps[s], d) && steps[s].action == a;
    assert Goal(base, steps[s].urn, steps[s].action, c);
    match ResolveArtifact(d.urn).value
    case IndexRecord =>
      var t := LastIndexStepExists(steps, s);
      assert IsDone(x, t);
    case ModelRecord(name) =>
      if ReplacesModel(steps, name) {
        var r: nat :| r < |steps| && IsReplaceOf(steps[r].urn, steps[r].action, name);
        assert Goal(base, steps[r].urn, steps[r].action, c);
        RetrainedIsTrusted(base, c, name);
      }
    case _ =>
  }

  ghost predicate CleanInputs(approved: seq<Row>) {
    forall r | r in approved :: !FromPartner(r.id)
  }

  /** An estate as built from two corpora, the approved one without partner rows. */
  ghost predicate IsBuilt(base: Content) {
    exists partner, approved, report :: CleanInputs(approved) && base == Built(partner, approved, report)
  }

  /** What is served as built: the revoked model cites the revoked features, the
      approved one does not. */
  ghost predicate ServedAsBuilt(base: Content) {
    && ActiveVersion(base, ReviewSentimentModel) == Some(V1) && ActiveVersion(base, ApprovedSentimentModel) == Some(V1)
    && !ModelTrusted(base, ReviewSentimentModel) && ModelTrusted(base, ApprovedSentimentModel)
  }

  lemma BuiltFacts(base: Content)
    requires IsBuilt(base)
    ensures ApprovedIsClean(base) && Sound(base, base) && ServedAsBuilt(base)
  {
    var partner, approved, report :| CleanInputs(approved) && base == Built(partner, approved, report);
    BuiltIsSound(partner, approved, report);
    BuiltServing(partner, approved, report);
  }

  lemma BuiltServing(partner: seq<Row>, approved: seq<Row>, report: seq<(int, int)>)
    requires CleanInputs(approved)
    ensures ServedAsBuilt(Built(partner, approved, report))
  {
    var base := Built(partner, approved, report);
    var rows := Map((r: Row) => r.(feed := ApprovedLabel, rating := 0), approved);
    FeaturesAreClean(approved, rows);
    assert FEATURES in ManifestOf(base, ReviewSentimentModel, V1).value.sources && IsTainted(FEATURES);
  }

  /** The revoked model is untrusted until a step replaces it; the approved one is
      never untrusted. */
  lemma UnreplacedModels(base: Content, c: Content)
    requires ApprovedIsClean(base) && ServedAsBuilt(base) && Sound(base, c)
    ensures ActiveVersion(c, ReviewSentimentModel) == Some(V1) ==> !ModelTrusted(c, ReviewSentimentModel)
    ensures ModelTrusted(c, ApprovedSentimentModel)
  {
    assert ModelTrue(base, c, ReviewSentimentModel) && ModelTrue(base, c, ApprovedSentimentModel);
    if ActiveVersion(c, ApprovedSentimentModel) != Some(V1) {
      RetrainedIsTrusted(base, c, ApprovedSentimentModel);
    }
  }

  lemma FeaturesAreClean(approved: seq<Row>, rows: seq<Row>)
    requires CleanInputs(approved) && |rows| == |approved|
    requires forall k | 0 <= k < |rows| :: rows[k].id == approved[k].id
    ensures NoPartner(SortedIds(rows))
  {
    VectorsAreRows(rows);
    forall id | id in SortedIds(rows) ensures !FromPartner(id) {
      var r :| r in rows && r.id == id;
      var k :| 0 <= k < |rows| && rows[k] == r;
      assert approved[k] in approved;
    }
  }

  ghost predicate ContainmentVerified(plan: ImpactPlan, c: Content) {
    forall p | p in VerifyPlan(plan, c).probes && p.containment :: p.passed
  }

  /** The plan leaves the revoked model alone, or puts a replacement in service. */
  ghost predicate RevokedModelReplaced(plan: ImpactPlan) {
    ContainsRevokedModel(plan) ==> ReplacesRevokedModel(plan)
  }

  ghost predicate ContainsRevokedModel(plan: ImpactPlan) {
    exists d | d in plan.decisions :: d.urn == Local(SentimentModel) && d.IsDestructive() && !d.IsEscalation()
  }

  ghost predicate ReplacesRevokedModel(plan: ImpactPlan) {
    exists d | d in plan.decisions :: d.urn == Local(SentimentModel) && Replace in d.actions
  }

  lemma ReplaceIsDecided(plan: ImpactPlan, s: nat)
    requires s < |PlanSteps(plan)| && PlanSteps(plan)[s].urn == Local(SentimentModel) && PlanSteps(plan)[s].action.Replace?
    ensures ReplacesRevokedModel(plan)
  {
    StepComesFromDecision(plan, s);
  }

  lemma ReplaceStepIsDecided(plan: ImpactPlan)
    ensures ReplacesModel(PlanSteps(plan), ReviewSentimentModel) <==> ReplacesRevokedModel(plan)
  {
    var steps := PlanSteps(plan);
    if ReplacesModel(steps, ReviewSentimentModel) {
      var s: nat :| s < |steps| && IsReplaceOf(steps[s].urn, steps[s].action, ReviewSentimentModel);
      ReplaceIsDecided(plan, s);
    }
    if ReplacesRevokedModel(plan) {
      DecidedReplaceIsStep(plan);
    }
  }

  lemma DecidedReplaceIsStep(plan: ImpactPlan)
    requires ReplacesRevokedModel(plan)
    ensures ReplacesModel(PlanSteps(plan), ReviewSentimentModel)
  {
    var steps := PlanSteps(plan);
    var d :| d in plan.decisions && d.urn == Local(SentimentModel) && Replace in d.actions;
    DecisionBecomesStep(plan, d, Replace);
    var s: nat :| s < |steps| && StepOfDecision(steps[s], d) && steps[s].action == Replace;
    assert IsReplaceOf(steps[s].urn, steps[s].action, ReviewSentimentModel);
  }

  lemma AchievedModels(base: Content, steps: seq<Step>, x: World)
    requires ApprovedIsClean(base) && ServedAsBuilt(base) && Achieved(base, steps, x)
    ensures ModelTrusted(x.disk.content, ApprovedSentimentModel)
    ensures ReplacesModel(steps, ReviewSentimentModel) || !ModelTrusted(x.disk.content, ReviewSentimentModel)
  {
    UnreplacedModels(base, x.disk.content);
  }

  lemma DecidedRecordPasses(base: Content, plan: ImpactPlan, x: World, d: Decision)
    requires ApprovedIsClean(base) && ServedAsBuilt(base) && Achieved(base, PlanSteps(plan), x)
    requires AllDone(PlanSteps(plan), x)
    requires d in plan.decisions && d.IsDestructive()
    requires d.urn == Local(SentimentModel) ==> ReplacesModel(PlanSteps(plan), ReviewSentimentModel)
    ensures ResolveArtifact(d.urn).Some? && ContainmentPasses(x.disk.content, ResolveArtifact(d.urn).value)
  {
    AchievedModels(base, PlanSteps(plan), x);
    DoneDecisionPasses(base, plan, x, d);
  }

  lemma AchievedPasses(base: Content, plan: ImpactPlan, x: World)
    requires ApprovedIsClean(base) && ServedAsBuilt(base) && Achieved(base, PlanSteps(plan), x)
    requires AllDone(PlanSteps(plan), x) && RevokedModelReplaced(plan)
    ensures ContainmentVerified(plan, x.disk.content)
  {
    ReplaceStepIsDecided(plan);
    forall p | p in VerifyPlan(plan, x.disk.content).probes && p.containment ensures p.passed {
      var d := ContainmentProbeIsDecided(plan, x.disk.content, p);
      DecidedRecordPasses(base, plan, x, d);
    }
  }

  lemma ContainmentProbeIsDecided(plan: ImpactPlan, c: Content, p: Probe) returns (d: Decision)
    requires p in VerifyPlan(plan, c).probes && p.containment
    ensures d in plan.decisions && d.IsDestructive() && !d.IsEscalation() && p.urn == d.urn
    ensures ResolveArtifact(d.urn).Some? ==> p.passed == ContainmentPasses(c, ResolveArtifact(d.urn).value)
  {
    ReportMembers(plan, c, p);
    d :| d in plan.decisions && p in ProbeOf(d, c);
  }

  lemma UnreplacedFails(base: Content, plan: ImpactPlan, x: World)
    requires ApprovedIsClean(base) && ServedAsBuilt(base) && Achieved(base, PlanSteps(plan), x)
    requires !RevokedModelReplaced(plan)
    ensures !ContainmentVerified(plan, x.disk.content)
  {
    AchievedModels(base, PlanSteps(plan), x);
    ReplaceStepIsDecided(plan);
    UntrustedFails(plan, x.disk.content);
  }

  lemma UntrustedFails(plan: ImpactPlan, c: Content)
    requires ContainsRevokedModel(plan) && !ModelTrusted(c, ReviewSentimentModel)
    ensures !ContainmentVerified(plan, c)
  {
    var d :| d in plan.decisions && d.urn == Local(SentimentModel) && d.IsDestructive() && !d.IsEscalation();
    var p := Probe(d.urn, false, true);
    assert ProbeOf(d, c) == [p];
    ReportMembers(plan, c, p);
  }

  lemma HistoryIsAchieved(base: Content, plan: ImpactPlan, w: World, events: seq<HistoryEvent>, x: World)
    requires IsBuilt(base) && IsFresh(w) && w.disk.content == base
    requires Undisturbed(events) && x in History(w, events)
    requires x.run.Some? && x.run.value.planHash == HashOf(plan)
    ensures Achieved(base, PlanSteps(plan), x)
  {
    BuiltFacts(base);
    FreshIsAchieved(base, w);
    HistoryKeepsAchieved(base, plan, w, events);
  }

  lemma FreshIsAchieved(base: Content, w: World)
    requires Sound(base, base) && IsFresh(w) && w.disk.content == base
    ensures forall p :: RunAchieved(base, p, w)
    ensures forall p :: RunJournalled(p, w)
  {
    assert Achieved(base, [], w);
  }

  /** Completed implies verified.  From an estate as built, over every history of
      attempts, failures, crashes and resumes: once every step of the plan is
      completed, every containment probe passes exactly when the plan, if it acts on
      the revoked model at all, also replaces what that model serves. */
  lemma CompletedImpliesVerified(base: Content, plan: ImpactPlan, w: World, events: seq<HistoryEvent>, x: World)
    requires IsBuilt(base) && IsFresh(w) && w.disk.content == base
    requires Undisturbed(events) && x in History(w, events)
    requires x.run.Some? && x.run.value.planHash == HashOf(plan) && AllDone(PlanSteps(plan), x)
    ensures ContainmentVerified(plan, x.disk.content) <==> RevokedModelReplaced(plan)
  {
    BuiltFacts(base);
    HistoryIsAchieved(base, plan, w, events, x);
    if RevokedModelReplaced(plan) {
      AchievedPasses(base, plan, x);
    } else {
      UnreplacedFails(base, plan, x);
    }
  }

  // --- what the plan leaves alone ---------------------------------------------------

  predicate AvailableAt(c: Content, urn: Urn) {
    ResolveArtifact(urn).Some? && IsAvailable(c, ResolveArtifact(urn).value)
  }

  /** Whether a table the plan does not contain is left with rows in it.  Only if the
      plan both purges and refills it does the order of completion decide. */
  ghost predicate TableLeftFilled(base: Content, steps: seq<Step>, c: Content, t: Table) {
    var refilled := RefillsTables(steps) && IsRebuildable(t);
    if PurgesTable(steps, t) then refilled && t in c.tables && c.tables[t] != []
    else if refilled then ApprovedFeedTable in base.tables && base.tables[ApprovedFeedTable] != []
    else t in base.tables && base.tables[t] != []
  }

  /** Whether the artifact at `urn`, not contained by the plan, can pass its probe once
      the plan is carried out on an estate built as `base`. */
  ghost predicate LeftWorking(base: Content, steps: seq<Step>, c: Content, urn: Urn) {
    match ResolveArtifact(urn)
    case Some(ModelRecord(name)) => name.ApprovedSentimentModel? || ReplacesModel(steps, name)
    case Some(TableRecord(t)) => TableLeftFilled(base, steps, c, t)
    case Some(ReportRecord) => base.report.Some? && base.report.value != []
    case _ => false
  }

  lemma RefilledIsFilled(base: Content, c: Content, t: Table)
    requires IsRefilled(base, c, t)
    ensures c.tables[t] != [] <==> base.tables[ApprovedFeedTable] != []
  {
    DerivedIds(base.tables[ApprovedFeedTable], ApprovedLabel);
  }

  lemma TableLeftExactly(base: Content, steps: seq<Step>, x: World, t: Table)
    requires TablesPlanned(base, steps, x) && AllDone(steps, x) && ApprovedFeedTable in base.tables
    ensures TableLeftFilled(base, steps, x.disk.content, t) <==> t in x.disk.content.tables && x.disk.content.tables[t] != []
  {
    assert TablePlanned(base, steps, x, t);
    var refilled := RefillsTables(steps) && IsRebuildable(t);
    if PurgesTable(steps, t) && !refilled {
      var s: nat :| s < |steps| && IsPurgeOf(steps[s].urn, steps[s].action, t);
      assert IsDone(x, s);
    } else if !PurgesTable(steps, t) && refilled {
      RefilledIsFilled(base, x.disk.content, t);
    }
  }

  lemma ModelLeftExactly(base: Content, steps: seq<Step>, x: World, name: ModelName)
    requires ApprovedIsClean(base) && ServedAsBuilt(base) && Achieved(base, steps, x) && AllDone(steps, x)
    ensures ModelTrusted(x.disk.content, name) <==> name.ApprovedSentimentModel? || ReplacesModel(steps, name)
  {
    AchievedModels(base, steps, x);
    if ReplacesModel(steps, ReviewSentimentModel) {
      var s: nat :| s < |steps| && IsReplaceOf(steps[s].urn, steps[s].action, ReviewSentimentModel);
      assert IsDone(x, s);
      assert Goal(base, steps[s].urn, steps[s].action, x.disk.content);
      RetrainedIsTrusted(base, x.disk.content, ReviewSentimentModel);
    }
  }

  lemma LeftWorkingExactly(base: Content, steps: seq<Step>, x: World, urn: Urn)
    requires ApprovedIsClean(base) && ServedAsBuilt(base) && Achieved(base, steps, x) && AllDone(steps, x)
    ensures LeftWorking(base, steps, x.disk.content, urn) <==> AvailableAt(x.disk.content, urn)
  {
    match ResolveArtifact(urn)
    case Some(ModelRecord(name)) => ModelLeftExactly(base, steps, x, name);
    case Some(TableRecord(t)) => TableLeftExactly(base, steps, x, t);
    case _ =>
  }

  // --- what containment never reaches ---------------------------------------------------

  predicate IsUnaffected(urn: Urn) {
    urn == APPROVED_MODEL || urn == SOURCE || urn == REPLACEMENT_SOURCE || urn == Local(ReviewVolume)
  }

  /** In no durable state of any history, finished or not, has the approved model,
      a feed or the volume report become unavailable. */
  lemma UnaffectedStayAvailable(base: Content, plan: ImpactPlan, w: World, events: seq<HistoryEvent>, x: World, urn: Urn)
    requires IsBuilt(base) && IsFresh(w) && w.disk.content == base
    requires Undisturbed(events) && x in History(w, events)
    requires x.run.Some? && x.run.value.planHash == HashOf(plan)
    requires IsUnaffected(urn) && AvailableAt(base, urn)
    ensures AvailableAt(x.disk.content, urn)
  {
    BuiltFacts(base);
    HistoryIsAchieved(base, plan, w, events, x);
    SoundKeepsUnaffected(base, x.disk.content, urn);
  }

  lemma SoundKeepsUnaffected(base: Content, c: Content, urn: Urn)
    requires ApprovedIsClean(base) && ServedAsBuilt(base) && Sound(base, c) && IsUnaffected(urn)
    requires AvailableAt(base, urn)
    ensures AvailableAt(c, urn)
  {
    UnreplacedModels(base, c);
  }
}
