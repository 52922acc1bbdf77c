/** The local data estate (demo/estate.py) as a value, and what each containment
    action writes to it (adapters/containment.py).

    An action is a sequence of individually atomic writes.  `Execute` gives the
    estate after each of them, so a process that stops anywhere leaves the estate
    in one of those values.  Hashes are injective, so the value hashed stands for
    its digest; training and vectorising are functions of the rows read, so the
    rows stand for the file. */
module Estate {
  import opened Ordering
  import opened Rights

  datatype Feed = NoFeed | PartnerLabel | ApprovedLabel

  datatype Text = Raw(s: string) | Normalized(t: Text)

  datatype Row = Row(id: string, text: Text, target: int, rating: int, feed: Feed)

  datatype Table =
    | PartnerFeedTable | ApprovedFeedTable | NormalizedTable | SentimentTable
    | SnapshotTable | ApprovedFeaturesTable

  datatype Entry = Entry(id: string, text: Text, feed: Feed)

  /** index/vectors.json */
  datatype VectorFile = VectorFile(entries: seq<Entry>)

  /** index/manifest.json */
  datatype IndexManifest =
    | PurgedManifest
    | BuiltManifest(sourceUrns: seq<Urn>, feed: Feed, rowIds: seq<string>, artifact: VectorFile)

  datatype ModelName = ReviewSentimentModel | ApprovedSentimentModel

  datatype Version = V1 | V2Approved

  /** model.json: determined by the documents and labels it was fitted on. */
  datatype ModelFile = ModelFile(samples: seq<(Text, int)>)

  datatype TrainingManifest = TrainingManifest(sources: seq<Urn>, table: Table, rowIds: seq<string>, artifact: ModelFile)

  datatype VersionDir = VersionDir(model: Option<ModelFile>, manifest: Option<TrainingManifest>)

  datatype ModelDir = ModelDir(active: Option<Version>, versions: map<Version, VersionDir>)

  datatype ServingState = ServingOn | Blocked

  datatype Content = Content(
    tables: map<Table, seq<Row>>,
    report: Option<seq<(int, int)>>,
    vectors: Option<VectorFile>,
    manifest: Option<IndexManifest>,
    models: map<ModelName, ModelDir>,
    published: Option<seq<Row>>,
    quarantined: Option<seq<Row>>,
    quarantineNote: bool,
    serving: map<Urn, ServingState>)

  // --- registry -------------------------------------------------------------

  datatype Record =
    | TableRecord(table: Table) | ReportRecord | ModelRecord(name: ModelName)
    | IndexRecord | ServiceRecord | ExportRecord

  function ResolveArtifact(urn: Urn): Option<Record> {
    match urn
    case Local(PartnerFeed) => Some(TableRecord(PartnerFeedTable))
    case Local(ApprovedFeed) => Some(TableRecord(ApprovedFeedTable))
    case Local(NormalizedReviews) => Some(TableRecord(NormalizedTable))
    case Local(Features) => Some(TableRecord(SentimentTable))
    case Local(SentimentModel) => Some(ModelRecord(ReviewSentimentModel))
    case Local(ReviewIndex) => Some(IndexRecord)
    case Local(PredictApi) => Some(ServiceRecord)
    case Local(ReviewsExtract) => Some(ExportRecord)
    case Local(ReviewVolume) => Some(ReportRecord)
    case Local(ApprovedModel) => Some(ModelRecord(ApprovedSentimentModel))
    case Local(LegacySnapshot) => Some(TableRecord(SnapshotTable))
    case Foreign(_) => None
  }

  // --- reading --------------------------------------------------------------

  function Ids(rows: seq<Row>): seq<string> { Map((r: Row) => r.id, rows) }

  function SortedIds(rows: seq<Row>): seq<string> { Sort(Ids(rows), StringOrder()) }

  function EntryIds(v: VectorFile): seq<string> { Map((e: Entry) => e.id, v.entries) }

  function ServingOf(c: Content, urn: Urn): ServingState {
    if urn in c.serving then c.serving[urn] else ServingOn
  }

  /** The recorded content hash of the index, absent for a purged or missing manifest. */
  function IndexHash(c: Content): Option<seq<string>> {
    match c.manifest
    case Some(BuiltManifest(_, _, rowIds, _)) => Some(rowIds)
    case _ => None
  }

  function VersionOf(c: Content, name: ModelName, v: Version): Option<VersionDir> {
    if name in c.models && v in c.models[name].versions then Some(c.models[name].versions[v]) else None
  }

  function ManifestOf(c: Content, name: ModelName, v: Version): Option<TrainingManifest> {
    match VersionOf(c, name, v)
    case Some(d) => d.manifest
    case None => None
  }

  function ActiveVersion(c: Content, name: ModelName): Option<Version> {
    if name in c.models then c.models[name].active else None
  }

  function TrainingHash(m: Option<TrainingManifest>): Option<seq<string>> {
    if m.Some? then Some(m.value.rowIds) else None
  }

  // --- deterministic products -----------------------------------------------

  function OrderedById(rows: seq<Row>): seq<Row> {
    Sort(rows, By((r: Row) => r.id, StringOrder()))
  }

  function DeriveRow(r: Row, feed: Feed): Row {
    Row(r.id, Normalized(r.text), r.target, r.rating, feed)
  }

  function DeriveAll(rows: seq<Row>, feed: Feed): seq<Row> {
    Map((r: Row) => DeriveRow(r, feed), OrderedById(rows))
  }

  function SentimentRows(normalized: seq<Row>): seq<Row> {
    Map((r: Row) => r.(rating := 0), normalized)
  }

  function Vectorise(rows: seq<Row>): VectorFile {
    VectorFile(Map((r: Row) => Entry(r.id, r.text, r.feed), rows))
  }

  function IndexManifestFor(rows: seq<Row>, source: Urn, feed: Feed): IndexManifest {
    BuiltManifest([source], feed, SortedIds(rows), Vectorise(rows))
  }

  function Fit(rows: seq<Row>): ModelFile {
    ModelFile(Map((r: Row) => (r.text, r.target), rows))
  }

  function TrainingManifestFor(rows: seq<Row>, source: Urn, table: Table): TrainingManifest {
    TrainingManifest([source], table, SortedIds(rows), Fit(rows))
  }

  // --- single writes --------------------------------------------------------

  function SetTable(c: Content, t: Table, rows: seq<Row>): Content { c.(tables := c.tables[t := rows]) }

  function ModelDirOf(c: Content, name: ModelName): ModelDir {
    if name in c.models then c.models[name] else ModelDir(None, map[])
  }

  function SetVersion(c: Content, name: ModelName, v: Version, d: VersionDir): Content {
    var dir := ModelDirOf(c, name);
    c.(models := c.models[name := dir.(versions := dir.versions[v := d])])
  }

  function SetActive(c: Content, name: ModelName, v: Version): Content {
    c.(models := c.models[name := ModelDirOf(c, name).(active := Some(v))])
  }

  // --- actions as write sequences -------------------------------------------

  datatype CallStatus = Succeeded | FailedCall | UnsupportedCall

  /** The estate after each write of one adapter call, and how the call ended. */
  datatype Effect = Effect(after: seq<Content>, status: CallStatus, changed: bool)

  const REFUSED := Effect([], FailedCall, false)

  function Last(c: Content, after: seq<Content>): Content {
    if after == [] then c else after[|after| - 1]
  }

  /** What an adapter call may consult besides the estate. */
  datatype Context = Context(owned: Urn -> bool, replacement: Option<Urn>)

  /** The replacement source exists, is ours, and is the one feed supported here. */
  predicate ReplacementUsable(ctx: Context) {
    ctx.replacement.Some? && ctx.owned(ctx.replacement.value) && ctx.replacement.value == REPLACEMENT_SOURCE
  }

  function FreezeEffect(c: Content, urn: Urn): Effect {
    Effect([c.(serving := c.serving[urn := Blocked])], Succeeded, ServingOf(c, urn) != Blocked)
  }

  function PurgeIndexEffect(c: Content): Effect {
    var unlinked := c.(vectors := None);
    Effect((if c.vectors.Some? then [unlinked] else []) + [unlinked.(manifest := Some(PurgedManifest))],
           Succeeded, c.vectors.Some?)
  }

  function RebuildIndexEffect(ctx: Context, c: Content): Effect {
    if !ReplacementUsable(ctx) || NormalizedTable !in c.tables then REFUSED
    else
      var rows := c.tables[NormalizedTable];
      if exists r | r in rows :: r.feed != ApprovedLabel then REFUSED
      else
        var written := c.(vectors := Some(Vectorise(rows)));
        var done := written.(manifest := Some(IndexManifestFor(rows, REPLACEMENT_SOURCE, ApprovedLabel)));
        Effect([written, done], Succeeded, IndexHash(done) != IndexHash(c))
  }

  function QuarantineEffect(c: Content): Effect {
    if c.published.None? then
      if c.quarantined.None? then REFUSED
      else if c.quarantineNote then Effect([], Succeeded, false)
      else Effect([c.(quarantineNote := true)], Succeeded, true)
    else if c.quarantined.Some? then REFUSED
    else
      var moved := c.(published := None, quarantined := c.published);
      Effect([moved, moved.(quarantineNote := true)], Succeeded, true)
  }

  /** The classifier needs rows of two labels to fit anything. */
  predicate IsTrainable(rows: seq<Row>) {
    exists r | r in rows :: exists q | q in rows :: r.target != q.target
  }

  function RetrainEffect(ctx: Context, c: Content, name: ModelName): Effect {
    if !ReplacementUsable(ctx) || ApprovedFeedTable !in c.tables || !IsTrainable(c.tables[ApprovedFeedTable]) then REFUSED
    else
      var rows := c.tables[ApprovedFeedTable];
      var manifest := TrainingManifestFor(rows, REPLACEMENT_SOURCE, ApprovedFeedTable);
      var existing := VersionOf(c, name, V2Approved);
      var dir := if existing.Some? then existing.value else VersionDir(None, None);
      var made := SetVersion(c, name, V2Approved, dir);
      var fitted := SetVersion(made, name, V2Approved, dir.(model := Some(Fit(rows))));
      var done := SetVersion(fitted, name, V2Approved, VersionDir(Some(Fit(rows)), Some(manifest)));
      Effect((if existing.None? then [made] else []) + [fitted, done], Succeeded,
             TrainingHash(dir.manifest) != TrainingHash(Some(manifest)))
  }

  /** The retrained candidate cites the replacement and matches its recorded hash. */
  predicate CandidateTrusted(ctx: Context, d: VersionDir) {
    && d.manifest.Some? && d.model.Some? && ctx.replacement.Some?
    && d.manifest.value.sources == [ctx.replacement.value]
    && d.manifest.value.artifact == d.model.value
  }

  function ReplaceEffect(ctx: Context, c: Content, name: ModelName): Effect {
    match VersionOf(c, name, V2Approved)
    case None => REFUSED
    case Some(d) =>
      if !CandidateTrusted(ctx, d) then REFUSED
      else Effect([SetActive(c, name, V2Approved)], Succeeded, ActiveVersion(c, name) != Some(V2Approved))
  }

  predicate IsRebuildable(t: Table) { t.NormalizedTable? || t.SentimentTable? }

  predicate IsPurgeable(t: Table) { IsRebuildable(t) || t.SnapshotTable? }

  function PurgeTableEffect(c: Content, t: Table): Effect {
    if !IsPurgeable(t) || t !in c.tables then REFUSED
    else Effect([SetTable(c, t, [])], Succeeded, c.tables[t] != [])
  }

  /** `normalized` is replaced by an empty table and then filled row by row. */
  function FillTrace(c: Content, rows: seq<Row>): (after: seq<Content>)
    ensures |after| == |rows| + 1
  {
    seq(|rows| + 1, k requires 0 <= k < |rows| + 1 => SetTable(c, NormalizedTable, rows[..k]))
  }

  function RebuildTablesEffect(ctx: Context, c: Content, t: Table): Effect {
    if !IsRebuildable(t) || !ReplacementUsable(ctx) || t !in c.tables || ApprovedFeedTable !in c.tables then REFUSED
    else
      var rows := DeriveAll(c.tables[ApprovedFeedTable], ApprovedLabel);
      var filled := SetTable(c, NormalizedTable, rows);
      var done := SetTable(filled, SentimentTable, SentimentRows(rows));
      Effect(FillTrace(c, rows) + [done], Succeeded, SortedIds(done.tables[t]) != SortedIds(c.tables[t]))
  }

  /** AdapterRegistry.execute: namespace, then record, then the adapter that
      supports the action for that kind of artifact. */
  function Execute(ctx: Context, c: Content, urn: Urn, action: Action): Effect {
    if !ctx.owned(urn) then REFUSED
    else
      match ResolveArtifact(urn)
      case None => REFUSED
      case Some(record) => Apply(ctx, c, urn, record, action)
  }

  function Apply(ctx: Context, c: Content, urn: Urn, record: Record, action: Action): Effect {
    match (record, action)
    case (ServiceRecord, Freeze) => FreezeEffect(c, urn)
    case (IndexRecord, Purge) => PurgeIndexEffect(c)
    case (IndexRecord, Rebuild) => RebuildIndexEffect(ctx, c)
    case (ExportRecord, Quarantine) => QuarantineEffect(c)
    case (ModelRecord(name), Retrain) => RetrainEffect(ctx, c, name)
    case (ModelRecord(name), Replace) => ReplaceEffect(ctx, c, name)
    case (TableRecord(t), Purge) => PurgeTableEffect(c, t)
    case (TableRecord(t), Rebuild) => RebuildTablesEffect(ctx, c, t)
    case (ReportRecord, Purge) => REFUSED
    case (ReportRecord, Rebuild) => REFUSED
    case _ => Effect([], UnsupportedCall, false)
  }

  /** An adapter that raises after some of its writes: what was written stays. */
  function WithFault(e: Effect, fault: Option<nat>): Effect {
    if fault.None? || !e.status.Succeeded? then e
    else Effect(e.after[..(if fault.value < |e.after| then fault.value else |e.after|)], FailedCall, false)
  }

  // --- repeating an interrupted action ----------------------------------------

  function RebuiltTables(c: Content): Content
    requires ApprovedFeedTable in c.tables
  {
    Refill(c, DeriveAll(c.tables[ApprovedFeedTable], ApprovedLabel))
  }

  function Refill(c: Content, rows: seq<Row>): Content {
    SetTable(SetTable(c, NormalizedTable, rows), SentimentTable, SentimentRows(rows))
  }

  lemma RefillForgets(c: Content, part: seq<Row>, rows: seq<Row>)
    ensures Refill(SetTable(c, NormalizedTable, part), rows) == Refill(c, rows)
    ensures Refill(Refill(c, rows), rows) == Refill(c, rows)
  {
    assert Refill(SetTable(c, NormalizedTable, part), rows).tables == Refill(c, rows).tables;
    assert Refill(Refill(c, rows), rows).tables == Refill(c, rows).tables;
  }

  lemma RebuildEndsRebuilt(ctx: Context, c: Content, t: Table)
    requires RebuildTablesEffect(ctx, c, t).status.Succeeded?
    ensures Last(c, RebuildTablesEffect(ctx, c, t).after) == RebuiltTables(c)
    ensures RebuildTablesEffect(ctx, c, t).changed <==> SortedIds(RebuiltTables(c).tables[t]) != SortedIds(c.tables[t])
  {
  }

  lemma RebuildStates(ctx: Context, c: Content, t: Table, x: Content)
    requires RebuildTablesEffect(ctx, c, t).status.Succeeded?
    requires x in RebuildTablesEffect(ctx, c, t).after
    ensures x == RebuiltTables(c) ||
            exists k :: 0 <= k <= |DeriveAll(c.tables[ApprovedFeedTable], ApprovedLabel)|
                        && x == SetTable(c, NormalizedTable, DeriveAll(c.tables[ApprovedFeedTable], ApprovedLabel)[..k])
  {
    var rows := DeriveAll(c.tables[ApprovedFeedTable], ApprovedLabel);
    var after := RebuildTablesEffect(ctx, c, t).after;
    var k :| 0 <= k < |after| && after[k] == x;
    if k < |FillTrace(c, rows)| {
      assert x == FillTrace(c, rows)[k] == SetTable(c, NormalizedTable, rows[..k]);
    }
  }

  lemma RebuildConverges(ctx: Context, c: Content, t: Table, x: Content)
    requires RebuildTablesEffect(ctx, c, t).status.Succeeded?
    requires x in RebuildTablesEffect(ctx, c, t).after
    ensures RebuildTablesEffect(ctx, x, t).status.Succeeded?
    ensures Last(x, RebuildTablesEffect(ctx, x, t).after) == Last(c, RebuildTablesEffect(ctx, c, t).after)
  {
    var rows := DeriveAll(c.tables[ApprovedFeedTable], ApprovedLabel);
    RebuildStates(ctx, c, t, x);
    RebuildEndsRebuilt(ctx, c, t);
    if x != RebuiltTables(c) {
      var k :| 0 <= k <= |rows| && x == SetTable(c, NormalizedTable, rows[..k]);
      RefillForgets(c, rows[..k], rows);
    } else {
      RefillForgets(c, rows, rows);
    }
    assert x.tables[ApprovedFeedTable] == c.tables[ApprovedFeedTable];
    RebuildEndsRebuilt(ctx, x, t);
  }

  function Retrained(c: Content, name: ModelName): Content
    requires ApprovedFeedTable in c.tables
  {
    var rows := c.tables[ApprovedFeedTable];
    SetVersion(c, name, V2Approved,
               VersionDir(Some(Fit(rows)), Some(TrainingManifestFor(rows, REPLACEMENT_SOURCE, ApprovedFeedTable))))
  }

  lemma SetVersionTwice(c: Content, name: ModelName, v: Version, d: VersionDir, e: VersionDir)
    ensures SetVersion(SetVersion(c, name, v, d), name, v, e) == SetVersion(c, name, v, e)
  {
    var dir := ModelDirOf(c, name);
    assert dir.versions[v := d][v := e] == dir.versions[v := e];
    var once := dir.(versions := dir.versions[v := d]);
    var final := dir.(versions := dir.versions[v := e]);
    assert c.models[name := once][name := final] == c.models[name := final];
  }

  /** Every state of a retrain differs from its start only in the new version. */
  lemma RetrainStates(ctx: Context, c: Content, name: ModelName, x: Content)
    requires RetrainEffect(ctx, c, name).status.Succeeded?
    requires x in RetrainEffect(ctx, c, name).after
    ensures exists d :: x == SetVersion(c, name, V2Approved, d)
    ensures x == SetVersion(c, name, V2Approved, VersionOf(x, name, V2Approved).value)
    ensures VersionOf(x, name, V2Approved).value.model.Some? ==>
              VersionOf(x, name, V2Approved).value.model == Some(Fit(c.tables[ApprovedFeedTable]))
              || (VersionOf(c, name, V2Approved).Some?
                  && VersionOf(x, name, V2Approved).value.model == VersionOf(c, name, V2Approved).value.model)
    ensures VersionOf(x, name, V2Approved).value.manifest.Some? ==>
              VersionOf(x, name, V2Approved).value.manifest
                == Some(TrainingManifestFor(c.tables[ApprovedFeedTable], REPLACEMENT_SOURCE, ApprovedFeedTable))
              || (VersionOf(c, name, V2Approved).Some?
                  && VersionOf(x, name, V2Approved).value.manifest == VersionOf(c, name, V2Approved).value.manifest)
  {
    var rows := c.tables[ApprovedFeedTable];
    var existing := VersionOf(c, name, V2Approved);
    var dir := if existing.Some? then existing.value else VersionDir(None, None);
    var manifest := TrainingManifestFor(rows, REPLACEMENT_SOURCE, ApprovedFeedTable);
    var fit := dir.(model := Some(Fit(rows)));
    SetVersionTwice(c, name, V2Approved, dir, fit);
    SetVersionTwice(c, name, V2Approved, fit, VersionDir(Some(Fit(rows)), Some(manifest)));
  }

  lemma RetrainEndsRetrained(ctx: Context, c: Content, name: ModelName)
    requires RetrainEffect(ctx, c, name).status.Succeeded?
    ensures Last(c, RetrainEffect(ctx, c, name).after) == Retrained(c, name)
  {
    var rows := c.tables[ApprovedFeedTable];
    var existing := VersionOf(c, name, V2Approved);
    var dir := if existing.Some? then existing.value else VersionDir(None, None);
    var fit := dir.(model := Some(Fit(rows)));
    SetVersionTwice(c, name, V2Approved, dir, fit);
    SetVersionTwice(c, name, V2Approved, fit,
                    VersionDir(Some(Fit(rows)), Some(TrainingManifestFor(rows, REPLACEMENT_SOURCE, ApprovedFeedTable))));
  }

  lemma RetrainConverges(ctx: Context, c: Content, name: ModelName, x: Content)
    requires RetrainEffect(ctx, c, name).status.Succeeded?
    requires x in RetrainEffect(ctx, c, name).after
    ensures RetrainEffect(ctx, x, name).status.Succeeded?
    ensures Last(x, RetrainEffect(ctx, x, name).after) == Last(c, RetrainEffect(ctx, c, name).after)
  {
    RetrainStates(ctx, c, name, x);
    RetrainEndsRetrained(ctx, c, name);
    RetrainEndsRetrained(ctx, x, name);
    var rows := c.tables[ApprovedFeedTable];
    SetVersionTwice(c, name, V2Approved, VersionOf(x, name, V2Approved).value,
                    VersionDir(Some(Fit(rows)), Some(TrainingManifestFor(rows, REPLACEMENT_SOURCE, ApprovedFeedTable))));
  }

  lemma ReplaceConverges(ctx: Context, c: Content, name: ModelName)
    requires ReplaceEffect(ctx, c, name).status.Succeeded?
    ensures var x := SetActive(c, name, V2Approved);
            ReplaceEffect(ctx, x, name) == Effect([x], Succeeded, false)
  {
    var x := SetActive(c, name, V2Approved);
    assert VersionOf(x, name, V2Approved) == VersionOf(c, name, V2Approved);
    assert x.models[name := x.models[name].(active := Some(V2Approved))] == x.models;
  }

  lemma IndexConverges(ctx: Context, c: Content, action: Action, x: Content)
    requires action.Purge? || action.Rebuild?
    requires Apply(ctx, c, Local(ReviewIndex), IndexRecord, action).status.Succeeded?
    requires x in Apply(ctx, c, Local(ReviewIndex), IndexRecord, action).after
    ensures Apply(ctx, x, Local(ReviewIndex), IndexRecord, action).status.Succeeded?
    ensures Last(x, Apply(ctx, x, Local(ReviewIndex), IndexRecord, action).after)
         == Last(c, Apply(ctx, c, Local(ReviewIndex), IndexRecord, action).after)
  {
  }

  lemma FreezeConverges(c: Content, urn: Urn)
    ensures var x := Last(c, FreezeEffect(c, urn).after);
            FreezeEffect(x, urn) == Effect([x], Succeeded, false)
  {
    var x := Last(c, FreezeEffect(c, urn).after);
    assert x.serving[urn := Blocked] == x.serving;
  }

  lemma PurgeTableConverges(c: Content, t: Table)
    requires PurgeTableEffect(c, t).status.Succeeded?
    ensures var x := SetTable(c, t, []);
            PurgeTableEffect(x, t) == Effect([x], Succeeded, false)
  {
    var x := SetTable(c, t, []);
    assert x.tables[t := []] == x.tables;
  }

  ghost predicate Converges(ctx: Context, c: Content, x: Content, urn: Urn, action: Action) {
    var e, f := Execute(ctx, c, urn, action), Execute(ctx, x, urn, action);
    f.status.Succeeded? && Last(x, f.after) == Last(c, e.after)
  }

  /** Crash anywhere inside an action that would complete: doing the action again
      from what is left completes and ends in the same estate. */
  lemma InterruptedActionConverges(ctx: Context, c: Content, urn: Urn, action: Action, x: Content)
    requires Execute(ctx, c, urn, action).status.Succeeded?
    requires x in Execute(ctx, c, urn, action).after
    ensures Converges(ctx, c, x, urn, action)
  {
    match (ResolveArtifact(urn).value, action)
    case (TableRecord(t), Rebuild) => RebuildConverges(ctx, c, t, x);
    case (TableRecord(t), Purge) => PurgeTableConverges(c, t);
    case (ModelRecord(name), Retrain) => RetrainConverges(ctx, c, name, x);
    case (ModelRecord(name), Replace) => ReplaceConverges(ctx, c, name);
    case (ServiceRecord, Freeze) => FreezeConverges(c, urn);
    case (IndexRecord, _) => IndexConverges(ctx, c, action, x);
    case (ExportRecord, _) =>
    case _ => assert false;
  }

  /** A completed action done again completes, leaves the estate as it was and
      says that it changed nothing. */
  lemma CompletedActionIsIdempotent(ctx: Context, c: Content, urn: Urn, action: Action)
    requires Execute(ctx, c, urn, action).status.Succeeded?
    ensures var done := Last(c, Execute(ctx, c, urn, action).after);
            var again := Execute(ctx, done, urn, action);
            again.status.Succeeded? && !again.changed && Last(done, again.after) == done
  {
    var e := Execute(ctx, c, urn, action);
    var done := Last(c, e.after);
    if e.after != [] {
      InterruptedActionConverges(ctx, c, urn, action, done);
    }
    match (ResolveArtifact(urn).value, action)
    case (TableRecord(t), Rebuild) =>
      RebuildEndsRebuilt(ctx, c, t);
      RebuildEndsRebuilt(ctx, done, t);
    case (TableRecord(t), Purge) => PurgeTableConverges(c, t);
    case (ModelRecord(name), Retrain) => RetrainEndsRetrained(ctx, c, name);
    case (ModelRecord(name), Replace) => ReplaceConverges(ctx, c, name);
    case (ServiceRecord, Freeze) => FreezeConverges(c, urn);
    case _ =>
  }
}
