/** What each action leaves behind: the whole estate after it, down to the rows, texts
    and labels, and what becomes of the published export over whole histories. */
module Products {
  import opened Ordering
  import opened Rights
  import opened Plan
  import opened Approvals
  import opened Estate
  import opened Provenance
  import opened Execution
  import opened JournalSafety
  import opened JournalState
  import opened CrashConvergence
  import opened Containment

  // --- which calls succeed -------------------------------------------------------------

  predicate HasReplacement(ctx: Context) {
    ctx.replacement == Some(Local(ApprovedFeed)) && ctx.owned(Local(ApprovedFeed))
  }

  ghost predicate HasTwoLabels(c: Content) {
    && ApprovedFeedTable in c.tables
    && exists i, j | 0 <= i < j < |c.tables[ApprovedFeedTable]| ::
         c.tables[ApprovedFeedTable][i].target != c.tables[ApprovedFeedTable][j].target
  }

  /** A retrained version that cites the replacement and is what its manifest says. */
  ghost predicate HasCandidate(ctx: Context, c: Content, name: ModelName) {
    && ctx.replacement.Some? && name in c.models && V2Approved in c.models[name].versions
    && var d := c.models[name].versions[V2Approved];
       && d.model.Some? && d.manifest.Some? && d.manifest.value.artifact == d.model.value
       && d.manifest.value.sources == [ctx.replacement.value]
  }

  /** What an artifact's adapter does with an action at all. */
  predicate IsSupported(artifact: Artifact, a: Action) {
    match artifact
    case PredictApi => a == Freeze
    case ReviewIndex => a in {Purge, Rebuild}
    case ReviewsExtract => a == Quarantine
    case SentimentModel => a in {Retrain, Replace}
    case ApprovedModel => a in {Retrain, Replace}
    case _ => a in {Purge, Rebuild}
  }

  /** What a supported action needs to succeed. */
  ghost predicate CanSucceed(ctx: Context, c: Content, artifact: Artifact, a: Action) {
    match artifact
    case PredictApi => true
    case ReviewIndex =>
      a == Rebuild ==>
        HasReplacement(ctx) && NormalizedTable in c.tables && forall r | r in c.tables[NormalizedTable] :: r.feed == ApprovedLabel
    case ReviewsExtract => c.published.Some? <==> c.quarantined.None?
    case SentimentModel =>
      if a == Retrain then HasReplacement(ctx) && HasTwoLabels(c) else HasCandidate(ctx, c, ReviewSentimentModel)
    case ApprovedModel =>
      if a == Retrain then HasReplacement(ctx) && HasTwoLabels(c) else HasCandidate(ctx, c, ApprovedSentimentModel)
    case NormalizedReviews => NormalizedTable in c.tables && (a == Rebuild ==> HasReplacement(ctx) && ApprovedFeedTable in c.tables)
    case Features => SentimentTable in c.tables && (a == Rebuild ==> HasReplacement(ctx) && ApprovedFeedTable in c.tables)
    case LegacySnapshot => a == Purge && SnapshotTable in c.tables
    case _ => false
  }

  lemma TwoLabelsTrain(c: Content)
    requires ApprovedFeedTable in c.tables
    ensures IsTrainable(c.tables[ApprovedFeedTable]) <==> HasTwoLabels(c)
  {
    var rows := c.tables[ApprovedFeedTable];
    if r :| r in rows && exists q | q in rows :: r.target != q.target {
      var q :| q in rows && r.target != q.target;
      var i :| 0 <= i < |rows| && rows[i] == r;
      var j :| 0 <= j < |rows| && rows[j] == q;
      if i < j {
        assert rows[i].target != rows[j].target;
      } else {
        assert rows[j].target != rows[i].target;
      }
    }
  }

  lemma SupportedCallsAreAnswered(ctx: Context, c: Content, artifact: Artifact, a: Action)
    requires ctx.owned(Local(artifact)) && IsSupported(artifact, a)
    ensures Execute(ctx, c, Local(artifact), a).status == if CanSucceed(ctx, c, artifact, a) then Succeeded else FailedCall
  {
    if ApprovedFeedTable in c.tables { TwoLabelsTrain(c); }
  }

  lemma UnansweredCallsWriteNothing(ctx: Context, c: Content, urn: Urn, a: Action)
    ensures var e := Execute(ctx, c, urn, a); !e.status.Succeeded? ==> e.after == [] && !e.changed
  {
  }

  /** How every call is answered: failed outside the namespace or without a record,
      unsupported if the kind of artifact does not know the action, succeeded exactly
      if what the action needs is there, and failed otherwise.  A call that does not
      succeed writes nothing. */
  lemma CallsAreAnswered(ctx: Context, c: Content, urn: Urn, a: Action)
    ensures var e := Execute(ctx, c, urn, a);
            && (e.status ==
                  if !ctx.owned(urn) || urn.Foreign? then FailedCall
                  else if !IsSupported(urn.artifact, a) then UnsupportedCall
                  else if CanSucceed(ctx, c, urn.artifact, a) then Succeeded
                  else FailedCall)
            && (!e.status.Succeeded? ==> e.after == [] && !e.changed)
  {
    UnansweredCallsWriteNothing(ctx, c, urn, a);
    if ctx.owned(urn) && urn.Local? && IsSupported(urn.artifact, a) {
      SupportedCallsAreAnswered(ctx, c, urn.artifact, a);
    }
  }

  /** A call that raises after `n` of its writes leaves these, or all if it has fewer, and
      has failed; one that would not have succeeded raises nothing new. */
  lemma RaisingCutsShort(e: Effect, n: nat)
    ensures WithFault(e, None) == e
    ensures !e.status.Succeeded? ==> WithFault(e, Some(n)) == e
    ensures e.status.Succeeded? ==>
              var cut := WithFault(e, Some(n));
              && cut.status.FailedCall? && !cut.changed && cut.after <= e.after
              && |cut.after| == (if n < |e.after| then n else |e.after|)
  {
  }

  // --- what the small actions leave -----------------------------------------------------

  /** An action that succeeded ends in `x`, and says whether it changed anything. */
  ghost predicate Ends(ctx: Context, c: Content, urn: Urn, a: Action, x: Content, changed: bool) {
    var e := Execute(ctx, c, urn, a);
    e.status.Succeeded? && Last(c, e.after) == x && e.changed == changed
  }

  lemma FreezeLeaves(ctx: Context, c: Content)
    requires ctx.owned(PREDICT_API)
    ensures Ends(ctx, c, PREDICT_API, Freeze, c.(serving := c.serving[PREDICT_API := Blocked]),
                 PREDICT_API !in c.serving || c.serving[PREDICT_API] != Blocked)
  {
  }

  lemma IndexPurgeLeaves(ctx: Context, c: Content)
    requires ctx.owned(Local(ReviewIndex))
    ensures Ends(ctx, c, Local(ReviewIndex), Purge, c.(vectors := None, manifest := Some(PurgedManifest)), c.vectors.Some?)
  {
  }

  lemma TablePurgeLeaves(ctx: Context, c: Content, urn: Urn, t: Table)
    requires ctx.owned(urn) && t in c.tables
    requires (urn, t) in {(Local(NormalizedReviews), NormalizedTable), (Local(Features), SentimentTable), (Local(LegacySnapshot), SnapshotTable)}
    ensures Ends(ctx, c, urn, Purge, c.(tables := c.tables[t := []]), c.tables[t] != [])
  {
  }

  lemma ReplaceLeaves(ctx: Context, c: Content, urn: Urn, name: ModelName)
    requires ctx.owned(urn) && HasCandidate(ctx, c, name) && IsModel(urn, name)
    ensures Ends(ctx, c, urn, Replace, c.(models := c.models[name := c.models[name].(active := Some(V2Approved))]),
                 c.models[name].active != Some(V2Approved))
  {
  }

  // --- the export -------------------------------------------------------------------------

  /** There is exactly one copy of the export, published or quarantined, with these rows. */
  ghost predicate OneCopy(c: Content, rows: seq<Row>) {
    || (c.published == Some(rows) && c.quarantined == None)
    || (c.published == None && c.quarantined == Some(rows))
  }

  /** Moved, then noted, and nothing else touched. */
  lemma QuarantineMoves(ctx: Context, c: Content, rows: seq<Row>)
    requires ctx.owned(Local(ReviewsExtract)) && c.published == Some(rows) && c.quarantined == None
    ensures var moved := c.(published := None, quarantined := Some(rows));
            && Execute(ctx, c, Local(ReviewsExtract), Quarantine).after == [moved, moved.(quarantineNote := true)]
            && Ends(ctx, c, Local(ReviewsExtract), Quarantine, moved.(quarantineNote := true), true)
  {
  }

  /** Done again, or resumed, it leaves the copy alone and sees to the note. */
  lemma QuarantineAgain(ctx: Context, c: Content)
    requires ctx.owned(Local(ReviewsExtract)) && c.published == None && c.quarantined != None
    ensures Ends(ctx, c, Local(ReviewsExtract), Quarantine, c.(quarantineNote := true), !c.quarantineNote)
  {
  }

  /** No write of any action loses the export, doubles it, changes a row of it or
      publishes it again; and only a quarantine touches it. */
  lemma WritesKeepTheExport(ctx: Context, c: Content, urn: Urn, a: Action, x: Content, rows: seq<Row>)
    requires x in Execute(ctx, c, urn, a).after
    ensures OneCopy(c, rows) ==> OneCopy(x, rows) && (c.published == None ==> x.published == None)
    ensures a != Quarantine ==>
              x.published == c.published && x.quarantined == c.quarantined && x.quarantineNote == c.quarantineNote
  {
    match (ResolveArtifact(urn).value, a)
    case (ModelRecord(name), Retrain) => RetrainStates(ctx, c, name, x);
    case (TableRecord(t), Rebuild) => RebuildStates(ctx, c, t, x);
    case _ =>
  }

  // --- over histories ------------------------------------------------------------------------

  ghost predicate AllKeepOneCopy(trace: seq<World>, rows: seq<Row>) {
    forall x | x in trace :: OneCopy(x.disk.content, rows)
  }

  /** Each state of a step has the contents it started with or one of the call's writes. */
  lemma StepContents(req: Request, steps: seq<Step>, w: World, done: map<nat, JournalRow>, i: nat, outcomes: seq<Outcome>, x: World)
    requires i < |steps| && x in StepAt(req, steps, w, done, i, outcomes).trace
    ensures x.disk.content == w.disk.content
         || x.disk.content in req.perform(w.disk.content, steps[i].urn, steps[i].action).after
  {
    var step := steps[i];
    if i !in done && !IsBlocked(req.plan, step, outcomes) && Covers(req.approval.scope, step.urn, step.action) {
      PerformContents(req, w, step, CallEffect(req, w.disk.content, step), x);
    }
  }

  lemma PerformContents(req: Request, w: World, step: Step, e: Effect, x: World)
    requires x in Perform(req, w, step, e).trace
    ensures x.disk.content == w.disk.content || x.disk.content in e.after
  {
    var called := Called(Intended(w, step), step);
    var writes := EstateWrites(called, e.after);
    EstateWritesContents(called, e.after);
    if x in Conclude(req, LastWorld(called, writes), Perform(req, w, step, e).outcome) {
      ConcludeStates(req, LastWorld(called, writes), Perform(req, w, step, e).outcome, x);
    }
  }

  lemma StepKeepsTheExport(req: Request, ctx: Context, steps: seq<Step>, w: World, done: map<nat, JournalRow>, i: nat, outcomes: seq<Outcome>, rows: seq<Row>)
    requires i < |steps| && LocalRegistry(req, ctx) && OneCopy(w.disk.content, rows)
    ensures AllKeepOneCopy(StepAt(req, steps, w, done, i, outcomes).trace, rows)
  {
    forall x | x in StepAt(req, steps, w, done, i, outcomes).trace ensures OneCopy(x.disk.content, rows) {
      StepContents(req, steps, w, done, i, outcomes, x);
      if x.disk.content != w.disk.content {
        WritesKeepTheExport(ctx, w.disk.content, steps[i].urn, steps[i].action, x.disk.content, rows);
      }
    }
  }

  lemma RunKeepsTheExport(req: Request, ctx: Context, w: World, rows: seq<Row>)
    requires LocalRegistry(req, ctx) && OneCopy(w.disk.content, rows)
    ensures AllKeepOneCopy(Run(req, w).trace, rows)
  {
    var steps, begun := PlanSteps(req.plan), Begun(req, w);
    ghost var done := DoneRows(begun);
    ghost var inv := (x: World, k: nat, os: seq<Outcome>) => OneCopy(x.disk.content, rows);
    ghost var step := (x: World, t: seq<World>) => AllKeepOneCopy(t, rows);
    ghost var whole := (x: World, a: Attempt) => AllKeepOneCopy(a.trace, rows);
    forall x: World, k: nat, os: seq<Outcome> ensures StepGoes(req, steps, done, inv, step, x, k, os) {
      if k < |steps| && OneCopy(x.disk.content, rows) { StepKeepsTheExport(req, ctx, steps, x, done, k, os, rows); }
    }
    LoopTraces(req, steps, done, inv, step, whole, begun, 0, []);
    if IsAdmitted(req, w) { RunIsLoop(req, w); }
  }

  /** Over every history with this estate's adapters: an estate with one copy of the
      export has exactly one in every durable state, with the same rows. */
  lemma {:induction false} ExportIsConserved(w: World, events: seq<HistoryEvent>, rows: seq<Row>)
    requires Undisturbed(events) && OneCopy(w.disk.content, rows)
    ensures AllKeepOneCopy(History(w, events), rows)
    decreases |events|
  {
    if events != [] {
      var first := Happens(w, events[0]);
      assert events == [events[0]] + events[1..];
      var ctx :| LocalRegistry(events[0].req, ctx);
      RunKeepsTheExport(events[0].req, ctx, w, rows);
      assert forall x | x in first :: x in Run(events[0].req, w).trace;
      ExportIsConserved(LastWorld(w, first), events[1..], rows);
    }
  }

  // --- what is regenerated ---------------------------------------------------------------------

  /** The same reviews: identifiers, texts, labels and ratings, whatever the order. */
  ghost predicate SameReviews(rows: seq<Row>, feed: seq<Row>) {
    multiset(Map((r: Row) => (r.id, r.text, r.target, r.rating), rows))
      == multiset(Map((r: Row) => (r.id, Normalized(r.text), r.target, r.rating), feed))
  }

  ghost predicate InOrderOfId(rows: seq<Row>) {
    forall i, j | 0 <= i < j < |rows| :: StringOrder()(rows[i].id, rows[j].id)
  }

  /** The reviews of the feed, normalised, in order of identifier, labelled with it. */
  ghost predicate DerivedFrom(rows: seq<Row>, feed: seq<Row>, origin: Feed) {
    SameReviews(rows, feed) && InOrderOfId(rows) && forall r | r in rows :: r.feed == origin
  }

  lemma DerivedRows(feed: seq<Row>, origin: Feed)
    ensures DerivedFrom(DeriveAll(feed, origin), feed, origin)
  {
    BasicOrders();
    var byId := By((r: Row) => r.id, StringOrder());
    var sorted, rows := Sort(feed, byId), DeriveAll(feed, origin);
    ByIsPreorder((r: Row) => r.id, StringOrder());
    SortSorts(feed, byId);
    SortPermutes(feed, byId);
    var f := (r: Row) => (r.id, Normalized(r.text), r.target, r.rating);
    MapPermutes(sorted, feed, f);
    assert Map((r: Row) => (r.id, r.text, r.target, r.rating), rows) == Map(f, sorted);
    forall i, j | 0 <= i < j < |rows| ensures StringOrder()(rows[i].id, rows[j].id) {
      assert byId(sorted[i], sorted[j]);
    }
  }

  /** Row by row: the features of a normalised review are its text and label. */
  ghost predicate FeaturesOf(features: seq<Row>, rows: seq<Row>) {
    && |features| == |rows|
    && forall i | 0 <= i < |rows| ::
         features[i].id == rows[i].id && features[i].text == rows[i].text && features[i].target == rows[i].target
         && features[i].feed == rows[i].feed && features[i].rating == 0
  }

  /** Both derived tables are the feed's, and nothing else is touched. */
  ghost predicate IsRebuiltFrom(c: Content, x: Content) {
    && x == c.(tables := x.tables) && x.tables.Keys == c.tables.Keys + {NormalizedTable, SentimentTable}
    && ApprovedFeedTable in c.tables && DerivedFrom(x.tables[NormalizedTable], c.tables[ApprovedFeedTable], ApprovedLabel)
    && FeaturesOf(x.tables[SentimentTable], x.tables[NormalizedTable])
    && (forall u | u in c.tables && u != NormalizedTable && u != SentimentTable :: x.tables[u] == c.tables[u])
  }

  lemma RebuiltHolds(c: Content)
    requires ApprovedFeedTable in c.tables
    ensures IsRebuiltFrom(c, RebuiltTables(c))
  {
    DerivedRows(c.tables[ApprovedFeedTable], ApprovedLabel);
  }

  /** A rebuild of either derived table regenerates both from the approved feed, and
      touches nothing else. */
  lemma RebuildLeaves(ctx: Context, c: Content, urn: Urn, t: Table)
    requires ctx.owned(urn) && HasReplacement(ctx) && t in c.tables && ApprovedFeedTable in c.tables
    requires (urn, t) in {(Local(NormalizedReviews), NormalizedTable), (Local(Features), SentimentTable)}
    ensures var e := Execute(ctx, c, urn, Rebuild);
            var x := Last(c, e.after);
            && e.status.Succeeded? && IsRebuiltFrom(c, x)
            && (e.changed <==> SortedIds(x.tables[t]) != SortedIds(c.tables[t]))
  {
    assert Execute(ctx, c, urn, Rebuild) == RebuildTablesEffect(ctx, c, t);
    RebuiltIsLast(ctx, c, t);
    RebuiltHolds(c);
  }

  /** Row by row: what the index stores of a review. */
  ghost predicate IndexOf(v: VectorFile, rows: seq<Row>) {
    && |v.entries| == |rows|
    && forall i | 0 <= i < |rows| :: v.entries[i] == Entry(rows[i].id, rows[i].text, rows[i].feed)
  }

  /** The identifiers of the rows, in order. */
  ghost predicate IdsOf(ids: seq<string>, rows: seq<Row>) {
    multiset(ids) == multiset(Map((r: Row) => r.id, rows)) && forall i, j | 0 <= i < j < |ids| :: StringOrder()(ids[i], ids[j])
  }

  lemma SortedIdsAre(rows: seq<Row>)
    ensures IdsOf(SortedIds(rows), rows)
  {
    BasicOrders();
    SortPermutes(Ids(rows), StringOrder());
    SortSorts(Ids(rows), StringOrder());
    assert Ids(rows) == Map((r: Row) => r.id, rows);
  }

  /** A rebuilt index holds the normalized table, and its manifest says so. */
  lemma IndexRebuildLeaves(ctx: Context, c: Content)
    requires ctx.owned(Local(ReviewIndex)) && HasReplacement(ctx) && NormalizedTable in c.tables
    requires forall r | r in c.tables[NormalizedTable] :: r.feed == ApprovedLabel
    ensures var e := Execute(ctx, c, Local(ReviewIndex), Rebuild);
            var x := Last(c, e.after);
            && e.status.Succeeded? && x == c.(vectors := x.vectors, manifest := x.manifest)
            && x.vectors.Some? && IndexOf(x.vectors.value, c.tables[NormalizedTable])
            && x.manifest.Some? && x.manifest.value.BuiltManifest?
            && x.manifest.value.sourceUrns == [Local(ApprovedFeed)] && x.manifest.value.feed == ApprovedLabel
            && x.manifest.value.artifact == x.vectors.value && IdsOf(x.manifest.value.rowIds, c.tables[NormalizedTable])
            && (e.changed <==> !(c.manifest.Some? && c.manifest.value.BuiltManifest? && c.manifest.value.rowIds == x.manifest.value.rowIds))
  {
    SortedIdsAre(c.tables[NormalizedTable]);
  }

  /** Row by row: what a model is fitted on. */
  ghost predicate FittedOn(m: ModelFile, rows: seq<Row>) {
    |m.samples| == |rows| && forall i | 0 <= i < |rows| :: m.samples[i] == (rows[i].text, rows[i].target)
  }

  ghost predicate IsModel(urn: Urn, name: ModelName) {
    (urn, name) in {(Local(SentimentModel), ReviewSentimentModel), (Local(ApprovedModel), ApprovedSentimentModel)}
  }

  /** A retraining leaves a version fitted on the approved feed, with a manifest that
      says so; what is served and every other version stay. */
  lemma RetrainLeaves(ctx: Context, c: Content, urn: Urn, name: ModelName)
    requires ctx.owned(urn) && HasReplacement(ctx) && HasTwoLabels(c) && IsModel(urn, name)
    ensures var e := Execute(ctx, c, urn, Retrain);
            var x, feed := Last(c, e.after), c.tables[ApprovedFeedTable];
            && e.status.Succeeded? && x == c.(models := x.models) && OtherVersionsStay(c, x, name)
            && V2Approved in x.models[name].versions && IsTrainedOn(x.models[name].versions[V2Approved], feed)
            && (e.changed <==> !(HasManifest(c, name) && c.models[name].versions[V2Approved].manifest.value.rowIds
                                   == x.models[name].versions[V2Approved].manifest.value.rowIds))
  {
    var e := Execute(ctx, c, urn, Retrain);
    TwoLabelsTrain(c);
    assert e == RetrainEffect(ctx, c, name);
    RetrainEndsRetrained(ctx, c, name);
    RetrainedHolds(c, name);
  }

  ghost predicate HasManifest(c: Content, name: ModelName) {
    name in c.models && V2Approved in c.models[name].versions && c.models[name].versions[V2Approved].manifest.Some?
  }

  ghost predicate OtherVersionsStay(c: Content, x: Content, name: ModelName) {
    && x.models.Keys == c.models.Keys + {name}
    && (forall other | other in c.models && other != name :: x.models[other] == c.models[other])
    && x.models[name].active == (if name in c.models then c.models[name].active else None)
    && (forall v | name in c.models && v in c.models[name].versions && v != V2Approved ::
          v in x.models[name].versions && x.models[name].versions[v] == c.models[name].versions[v])
  }

  ghost predicate IsTrainedOn(d: VersionDir, feed: seq<Row>) {
    && d.model.Some? && FittedOn(d.model.value, feed) && d.manifest.Some?
    && d.manifest.value.sources == [Local(ApprovedFeed)] && d.manifest.value.table == ApprovedFeedTable
    && d.manifest.value.artifact == d.model.value && IdsOf(d.manifest.value.rowIds, feed)
  }

  lemma RetrainedHolds(c: Content, name: ModelName)
    requires ApprovedFeedTable in c.tables
    ensures var x := Retrained(c, name);
            && x == c.(models := x.models) && OtherVersionsStay(c, x, name)
            && V2Approved in x.models[name].versions && IsTrainedOn(x.models[name].versions[V2Approved], c.tables[ApprovedFeedTable])
            && x.models[name].versions[V2Approved].manifest.value.rowIds == SortedIds(c.tables[ApprovedFeedTable])
  {
    SortedIdsAre(c.tables[ApprovedFeedTable]);
  }

  // --- write by write -----------------------------------------------------------------------

  /** The vectors are gone before the manifest says so, and there before it says so. */
  lemma IndexWrites(ctx: Context, c: Content)
    requires ctx.owned(Local(ReviewIndex))
    ensures var after, gone := Execute(ctx, c, Local(ReviewIndex), Purge).after, c.(vectors := None);
            after == if c.vectors.Some? then [gone, gone.(manifest := Some(PurgedManifest))] else [gone.(manifest := Some(PurgedManifest))]
    ensures var after := Execute(ctx, c, Local(ReviewIndex), Rebuild).after;
            after != [] ==> |after| == 2 && after[0] == c.(vectors := after[1].vectors)
  {
  }

  /** Freezing, emptying a table and activating a version are one write each. */
  lemma SingleWrites(ctx: Context, c: Content, urn: Urn, a: Action)
    requires a in {Freeze, Replace} || (a == Purge && urn != Local(ReviewIndex))
    ensures |Execute(ctx, c, urn, a).after| <= 1
  {
  }

  ghost predicate FillsInOrder(c: Content, after: seq<Content>) {
    && ApprovedFeedTable in c.tables && |after| == |c.tables[ApprovedFeedTable]| + 2
    && NormalizedTable in after[|after| - 1].tables
    && var rows := after[|after| - 1].tables[NormalizedTable];
       && |rows| == |c.tables[ApprovedFeedTable]|
       && forall k | 0 <= k < |after| - 1 :: after[k] == c.(tables := c.tables[NormalizedTable := rows[..k]])
  }

  lemma FillingWrites(c: Content)
    requires ApprovedFeedTable in c.tables
    ensures FillsInOrder(c, FillTrace(c, DeriveAll(c.tables[ApprovedFeedTable], ApprovedLabel)) + [RebuiltTables(c)])
  {
    var rows := DeriveAll(c.tables[ApprovedFeedTable], ApprovedLabel);
    DerivedIds(c.tables[ApprovedFeedTable], ApprovedLabel);
    var after := FillTrace(c, rows) + [RebuiltTables(c)];
    assert after[|after| - 1] == RebuiltTables(c) && RebuiltTables(c).tables[NormalizedTable] == rows;
  }

  /** A rebuild empties the normalized table, fills it row by row in the final order, and
      replaces the features last. */
  lemma RebuildWritesInOrder(ctx: Context, c: Content, urn: Urn, t: Table)
    requires ctx.owned(urn) && HasReplacement(ctx) && t in c.tables && ApprovedFeedTable in c.tables
    requires (urn, t) in {(Local(NormalizedReviews), NormalizedTable), (Local(Features), SentimentTable)}
    ensures FillsInOrder(c, Execute(ctx, c, urn, Rebuild).after)
  {
    assert Execute(ctx, c, urn, Rebuild) == RebuildTablesEffect(ctx, c, t);
    RebuiltIsLast(ctx, c, t);
    FillingWrites(c);
  }

  lemma RebuiltIsLast(ctx: Context, c: Content, t: Table)
    requires RebuildTablesEffect(ctx, c, t).status.Succeeded?
    ensures var rows := DeriveAll(c.tables[ApprovedFeedTable], ApprovedLabel);
            RebuildTablesEffect(ctx, c, t).after == FillTrace(c, rows) + [RebuiltTables(c)]
  {
    RebuildEndsRebuilt(ctx, c, t);
    var after := RebuildTablesEffect(ctx, c, t).after;
    assert after[|after| - 1] == RebuiltTables(c);
  }

  /** A retraining makes the directory of a version that has none, then writes the model,
      then its manifest. */
  lemma RetrainWritesInOrder(ctx: Context, c: Content, urn: Urn, name: ModelName)
    requires ctx.owned(urn) && HasReplacement(ctx) && HasTwoLabels(c) && IsModel(urn, name)
    ensures TrainsInOrder(c, name, Execute(ctx, c, urn, Retrain).after)
  {
    TwoLabelsTrain(c);
    assert Execute(ctx, c, urn, Retrain) == RetrainEffect(ctx, c, name);
    TrainingWrites(ctx, c, name);
  }

  ghost predicate TrainsInOrder(c: Content, name: ModelName, after: seq<Content>) {
    var was, n := VersionOf(c, name, V2Approved), |after|;
    && n == (if was.None? then 3 else 2)
    && VersionOf(after[n - 1], name, V2Approved).Some?
    && VersionOf(after[n - 2], name, V2Approved) ==
         Some(VersionDir(VersionOf(after[n - 1], name, V2Approved).value.model, if was.Some? then was.value.manifest else None))
    && (was.None? ==> VersionOf(after[0], name, V2Approved) == Some(VersionDir(None, None)))
  }

  lemma TrainingWrites(ctx: Context, c: Content, name: ModelName)
    requires RetrainEffect(ctx, c, name).status.Succeeded?
    ensures TrainsInOrder(c, name, RetrainEffect(ctx, c, name).after)
  {
  }

  // --- the estate as built ---------------------------------------------------------------------

  lemma BuiltTables(partner: seq<Row>, approved: seq<Row>, report: seq<(int, int)>)
    ensures var c := Built(partner, approved, report);
            && c.tables.Keys == {PartnerFeedTable, ApprovedFeedTable, NormalizedTable, SentimentTable, SnapshotTable, ApprovedFeaturesTable}
            && c.tables[PartnerFeedTable] == partner && c.tables[ApprovedFeedTable] == approved
            && DerivedFrom(c.tables[NormalizedTable], partner, PartnerLabel)
            && FeaturesOf(c.tables[SentimentTable], c.tables[NormalizedTable])
            && c.tables[SnapshotTable] <= partner && (|c.tables[SnapshotTable]| == 6 || (|partner| < 6 && c.tables[SnapshotTable] == partner))
  {
    DerivedRows(partner, PartnerLabel);
  }

  lemma BuiltIndex(partner: seq<Row>, approved: seq<Row>, report: seq<(int, int)>)
    ensures var c := Built(partner, approved, report);
            && NormalizedTable in c.tables
            && c.vectors.Some? && IndexOf(c.vectors.value, c.tables[NormalizedTable])
            && c.manifest.Some? && c.manifest.value.BuiltManifest? && c.manifest.value.sourceUrns == [SOURCE]
            && c.manifest.value.artifact == c.vectors.value && IdsOf(c.manifest.value.rowIds, c.tables[NormalizedTable])
  {
    SortedIdsAre(DeriveAll(partner, PartnerLabel));
  }

  /** The two models as built: each serves its first version, fitted on its own features. */
  lemma BuiltModels(partner: seq<Row>, approved: seq<Row>, report: seq<(int, int)>)
    ensures var c := Built(partner, approved, report);
            && c.models.Keys == {ReviewSentimentModel, ApprovedSentimentModel}
            && (forall name | name in c.models :: c.models[name].active == Some(V1) && c.models[name].versions.Keys == {V1})
            && IsFittedOn(c.models[ReviewSentimentModel].versions[V1], c.tables[SentimentTable], Local(Features))
            && IsFittedOn(c.models[ApprovedSentimentModel].versions[V1], c.tables[ApprovedFeaturesTable], Local(ApprovedFeed))
  {
    SortedIdsAre(SentimentRows(DeriveAll(partner, PartnerLabel)));
    SortedIdsAre(Map((r: Row) => r.(feed := ApprovedLabel, rating := 0), approved));
  }

  ghost predicate IsFittedOn(d: VersionDir, rows: seq<Row>, source: Urn) {
    && d.model.Some? && FittedOn(d.model.value, rows) && d.manifest.Some? && d.manifest.value.artifact == d.model.value
    && d.manifest.value.sources == [source] && IdsOf(d.manifest.value.rowIds, rows)
  }

  /** The partner corpus reaches everything derived from it, the approved one its own
      model, and the export, index and manifests are those of the derived rows. */
  lemma BuiltHolds(partner: seq<Row>, approved: seq<Row>, report: seq<(int, int)>)
    ensures var c := Built(partner, approved, report);
            && c.tables.Keys == {PartnerFeedTable, ApprovedFeedTable, NormalizedTable, SentimentTable, SnapshotTable, ApprovedFeaturesTable}
            && c.tables[PartnerFeedTable] == partner && c.tables[ApprovedFeedTable] == approved
            && DerivedFrom(c.tables[NormalizedTable], partner, PartnerLabel)
            && FeaturesOf(c.tables[SentimentTable], c.tables[NormalizedTable])
            && c.tables[SnapshotTable] <= partner && (|c.tables[SnapshotTable]| == 6 || (|partner| < 6 && c.tables[SnapshotTable] == partner))
            && c.published == Some(c.tables[NormalizedTable]) && c.quarantined == None && !c.quarantineNote
            && c.report == Some(report) && c.serving == map[PREDICT_API := ServingOn]
            && c.vectors.Some? && IndexOf(c.vectors.value, c.tables[NormalizedTable])
            && c.manifest.Some? && c.manifest.value.BuiltManifest? && c.manifest.value.sourceUrns == [SOURCE]
            && c.manifest.value.artifact == c.vectors.value && IdsOf(c.manifest.value.rowIds, c.tables[NormalizedTable])
            && OneCopy(c, c.tables[NormalizedTable])
  {
    BuiltTables(partner, approved, report);
    BuiltIndex(partner, approved, report);
  }
}
