/** Where the estate's rows come from, under every write any adapter makes. */
module Provenance {
  import opened Ordering
  import opened Rights
  import opened Estate

  const PARTNER_PREFIX := "P-"

  predicate FromPartner(id: string) { PARTNER_PREFIX <= id }

  /** The approved feed as the estate was built with. */
  ghost predicate ApprovedIsClean(base: Content) {
    && ApprovedFeedTable in base.tables
    && forall r | r in base.tables[ApprovedFeedTable] :: !FromPartner(r.id)
  }

  ghost predicate IsApprovedId(base: Content, id: string) {
    ApprovedFeedTable in base.tables && exists r | r in base.tables[ApprovedFeedTable] :: r.id == id
  }

  /** Feeds, the untouched feature table and the retained report are as built. */
  ghost predicate InputsUnchanged(base: Content, c: Content) {
    && (forall t | t in {PartnerFeedTable, ApprovedFeedTable, ApprovedFeaturesTable} ::
          (t in c.tables <==> t in base.tables) && (t in base.tables ==> c.tables[t] == base.tables[t]))
    && c.report == base.report
  }

  /** Derived rows labelled with the approved feed are rows of the approved feed. */
  ghost predicate LabelsTrue(base: Content, c: Content) {
    && (forall t, r | t in {NormalizedTable, SentimentTable} && t in c.tables && r in c.tables[t] && r.feed == ApprovedLabel ::
          IsApprovedId(base, r.id))
    && (c.vectors.Some? ==>
          forall e | e in c.vectors.value.entries && e.feed == ApprovedLabel :: IsApprovedId(base, e.id))
    && (c.manifest.Some? && c.manifest.value.BuiltManifest? && c.manifest.value.feed == ApprovedLabel ==>
          forall id | id in c.manifest.value.rowIds :: IsApprovedId(base, id))
  }

  function ApprovedVersion(base: Content): VersionDir {
    if ApprovedFeedTable in base.tables then
      var rows := base.tables[ApprovedFeedTable];
      VersionDir(Some(Fit(rows)), Some(TrainingManifestFor(rows, REPLACEMENT_SOURCE, ApprovedFeedTable)))
    else VersionDir(None, None)
  }

  /** A retrained version holds what training on the approved feed gives, or parts
      of it; it is served only whole; other versions are as built. */
  ghost predicate ModelsTrue(base: Content, c: Content) {
    && (forall name: ModelName :: ModelTrue(base, c, name))
  }

  ghost predicate ModelTrue(base: Content, c: Content, name: ModelName) {
    && VersionOf(c, name, V1) == VersionOf(base, name, V1)
    && (VersionOf(c, name, V2Approved).Some? ==>
          var d := VersionOf(c, name, V2Approved).value;
          && (d.model.Some? ==> d.model == ApprovedVersion(base).model)
          && (d.manifest.Some? ==> d.manifest == ApprovedVersion(base).manifest))
    && (ActiveVersion(c, name) == ActiveVersion(base, name)
        || (ActiveVersion(c, name) == Some(V2Approved) && VersionOf(c, name, V2Approved) == Some(ApprovedVersion(base))))
  }

  ghost predicate Sound(base: Content, c: Content) {
    InputsUnchanged(base, c) && LabelsTrue(base, c) && ModelsTrue(base, c)
  }

  // --- every write keeps it -----------------------------------------------------

  lemma DerivedIds(rows: seq<Row>, feed: Feed)
    ensures |DeriveAll(rows, feed)| == |rows|
    ensures forall d | d in DeriveAll(rows, feed) :: d.feed == feed && exists r | r in rows :: r.id == d.id
  {
    SortPermutes(rows, By((r: Row) => r.id, StringOrder()));
    forall d | d in DeriveAll(rows, feed) ensures d.feed == feed && exists r | r in rows :: r.id == d.id {
      var k :| 0 <= k < |DeriveAll(rows, feed)| && DeriveAll(rows, feed)[k] == d;
      assert OrderedById(rows)[k] in rows;
    }
  }

  /** The normalized table during a rebuild, and the features after it. */
  ghost predicate OnlyApproved(base: Content, rows: seq<Row>) {
    forall r | r in rows :: IsApprovedId(base, r.id)
  }

  lemma RebuiltRowsAreApproved(base: Content, k: nat)
    requires ApprovedFeedTable in base.tables
    requires k <= |DeriveAll(base.tables[ApprovedFeedTable], ApprovedLabel)|
    ensures OnlyApproved(base, DeriveAll(base.tables[ApprovedFeedTable], ApprovedLabel)[..k])
    ensures OnlyApproved(base, SentimentRows(DeriveAll(base.tables[ApprovedFeedTable], ApprovedLabel)))
  {
    var rows := base.tables[ApprovedFeedTable];
    var derived := DeriveAll(rows, ApprovedLabel);
    DerivedIds(rows, ApprovedLabel);
    assert forall r | r in derived[..k] :: r in derived;
    forall s | s in SentimentRows(derived) ensures IsApprovedId(base, s.id) {
      var j :| 0 <= j < |derived| && SentimentRows(derived)[j] == s;
      assert derived[j] in derived;
    }
  }

  /** What a table rebuild leaves at any of its writes. */
  lemma RebuildWrites(base: Content, ctx: Context, c: Content, t: Table, x: Content)
    requires Sound(base, c) && RebuildTablesEffect(ctx, c, t).status.Succeeded?
    requires x in RebuildTablesEffect(ctx, c, t).after
    ensures x == c.(tables := x.tables)
    ensures forall u | u != NormalizedTable && u != SentimentTable ::
              (u in x.tables <==> u in c.tables) && (u in c.tables ==> x.tables[u] == c.tables[u])
    ensures NormalizedTable in x.tables && OnlyApproved(base, x.tables[NormalizedTable])
    ensures SentimentTable in x.tables ==>
              OnlyApproved(base, x.tables[SentimentTable])
              || (SentimentTable in c.tables && x.tables[SentimentTable] == c.tables[SentimentTable])
  {
    var rows := DeriveAll(c.tables[ApprovedFeedTable], ApprovedLabel);
    assert c.tables[ApprovedFeedTable] == base.tables[ApprovedFeedTable];
    RebuildStates(ctx, c, t, x);
    RebuiltRowsAreApproved(base, |rows|);
    assert rows[..|rows|] == rows;
    if x != RebuiltTables(c) {
      var k :| 0 <= k <= |rows| && x == SetTable(c, NormalizedTable, rows[..k]);
      RebuiltRowsAreApproved(base, k);
    }
  }

  lemma RebuildEndsApproved(base: Content, ctx: Context, c: Content, t: Table)
    requires Sound(base, c) && RebuildTablesEffect(ctx, c, t).status.Succeeded?
    ensures var done := Last(c, RebuildTablesEffect(ctx, c, t).after);
            && NormalizedTable in done.tables && OnlyApproved(base, done.tables[NormalizedTable])
            && SentimentTable in done.tables && OnlyApproved(base, done.tables[SentimentTable])
  {
    RebuildEndsRebuilt(ctx, c, t);
    var rows := DeriveAll(c.tables[ApprovedFeedTable], ApprovedLabel);
    assert c.tables[ApprovedFeedTable] == base.tables[ApprovedFeedTable];
    RebuiltRowsAreApproved(base, |rows|);
    assert rows[..|rows|] == rows;
  }

  lemma TablesOnlyKeepsModels(base: Content, c: Content, x: Content)
    requires ModelsTrue(base, c) && x.models == c.models
    ensures ModelsTrue(base, x)
  {
    forall name: ModelName ensures ModelTrue(base, x, name) {
      assert ModelTrue(base, c, name);
    }
  }

  lemma RebuildKeepsSound(base: Content, ctx: Context, c: Content, t: Table, x: Content)
    requires Sound(base, c) && RebuildTablesEffect(ctx, c, t).status.Succeeded?
    requires x in RebuildTablesEffect(ctx, c, t).after
    ensures Sound(base, x)
  {
    RebuildWrites(base, ctx, c, t, x);
    TablesOnlyKeepsModels(base, c, x);
  }

  lemma VectorsAreRows(rows: seq<Row>)
    ensures forall e | e in Vectorise(rows).entries :: exists r | r in rows :: r.id == e.id && r.feed == e.feed
    ensures EntryIds(Vectorise(rows)) == Ids(rows)
    ensures forall id | id in SortedIds(rows) :: exists r | r in rows :: r.id == id
  {
    forall e | e in Vectorise(rows).entries ensures exists r | r in rows :: r.id == e.id && r.feed == e.feed {
      var k :| 0 <= k < |rows| && Vectorise(rows).entries[k] == e;
      assert rows[k] in rows;
    }
    SortedIdsAreRows(rows);
  }

  lemma SortedIdsAreRows(rows: seq<Row>)
    ensures forall id | id in SortedIds(rows) :: exists r | r in rows :: r.id == id
  {
    SortPermutes(Ids(rows), StringOrder());
    forall id | id in SortedIds(rows) ensures exists r | r in rows :: r.id == id {
      var k :| 0 <= k < |rows| && Ids(rows)[k] == id;
      assert rows[k] in rows;
    }
  }

  lemma IndexKeepsSound(base: Content, ctx: Context, c: Content, action: Action, x: Content)
    requires Sound(base, c) && (action.Purge? || action.Rebuild?)
    requires x in Apply(ctx, c, Local(ReviewIndex), IndexRecord, action).after
    ensures Sound(base, x)
  {
    TablesOnlyKeepsModels(base, c, x);
    if action.Rebuild? {
      VectorsAreRows(c.tables[NormalizedTable]);
    }
  }

  lemma SetVersionKeepsModels(base: Content, c: Content, name: ModelName, d: VersionDir)
    requires ModelsTrue(base, c)
    requires d.model.Some? ==> d.model == ApprovedVersion(base).model
    requires d.manifest.Some? ==> d.manifest == ApprovedVersion(base).manifest
    requires VersionOf(c, name, V2Approved) == Some(ApprovedVersion(base)) ==> d == ApprovedVersion(base)
    ensures ModelsTrue(base, SetVersion(c, name, V2Approved, d))
  {
    forall other: ModelName ensures ModelTrue(base, SetVersion(c, name, V2Approved, d), other) {
      assert ModelTrue(base, c, other);
    }
  }

  lemma RetrainKeepsSound(base: Content, ctx: Context, c: Content, name: ModelName, x: Content)
    requires Sound(base, c) && RetrainEffect(ctx, c, name).status.Succeeded?
    requires x in RetrainEffect(ctx, c, name).after
    ensures Sound(base, x)
  {
    RetrainStates(ctx, c, name, x);
    assert c.tables[ApprovedFeedTable] == base.tables[ApprovedFeedTable];
    assert ModelTrue(base, c, name);
    if VersionOf(c, name, V2Approved) == Some(ApprovedVersion(base)) {
      RetrainKeepsWhole(ctx, c, name, x);
    }
    SetVersionKeepsModels(base, c, name, VersionOf(x, name, V2Approved).value);
  }

  /** Retraining over a complete version rewrites it with what it holds. */
  lemma RetrainKeepsWhole(ctx: Context, c: Content, name: ModelName, x: Content)
    requires RetrainEffect(ctx, c, name).status.Succeeded? && x in RetrainEffect(ctx, c, name).after
    requires VersionOf(c, name, V2Approved)
          == Some(VersionDir(Some(Fit(c.tables[ApprovedFeedTable])),
                             Some(TrainingManifestFor(c.tables[ApprovedFeedTable], REPLACEMENT_SOURCE, ApprovedFeedTable))))
    ensures VersionOf(x, name, V2Approved) == VersionOf(c, name, V2Approved)
  {
  }

  lemma ReplaceKeepsSound(base: Content, ctx: Context, c: Content, name: ModelName)
    requires Sound(base, c) && ReplaceEffect(ctx, c, name).status.Succeeded?
    ensures Sound(base, SetActive(c, name, V2Approved))
  {
    var x := SetActive(c, name, V2Approved);
    assert ModelTrue(base, c, name);
    forall other: ModelName ensures ModelTrue(base, x, other) {
      assert ModelTrue(base, c, other);
    }
  }

  /** Every write of every adapter call keeps the provenance invariant. */
  lemma WritesKeepSound(base: Content, ctx: Context, c: Content, urn: Urn, action: Action, x: Content)
    requires Sound(base, c) && x in Execute(ctx, c, urn, action).after
    ensures Sound(base, x)
  {
    match (ResolveArtifact(urn).value, action)
    case (TableRecord(t), Rebuild) => RebuildKeepsSound(base, ctx, c, t, x);
    case (ModelRecord(name), Retrain) => RetrainKeepsSound(base, ctx, c, name, x);
    case (ModelRecord(name), Replace) => ReplaceKeepsSound(base, ctx, c, name);
    case (IndexRecord, _) => IndexKeepsSound(base, ctx, c, action, x);
    case _ => TablesOnlyKeepsModels(base, c, x);
  }

  // --- the estate as built --------------------------------------------------------

  /** demo/estate.py, build_estate: every artifact from the two corpora. */
  function Built(partner: seq<Row>, approved: seq<Row>, report: seq<(int, int)>): Content {
    var derived := DeriveAll(partner, PartnerLabel);
    var features := SentimentRows(derived);
    var approvedFeatures := Map((r: Row) => r.(feed := ApprovedLabel, rating := 0), approved);
    Content(
      map[PartnerFeedTable := partner, ApprovedFeedTable := approved, NormalizedTable := derived,
          SentimentTable := features, SnapshotTable := partner[..(if |partner| < 6 then |partner| else 6)],
          ApprovedFeaturesTable := approvedFeatures],
      Some(report),
      Some(Vectorise(derived)),
      Some(IndexManifestFor(derived, SOURCE, PartnerLabel)),
      map[ReviewSentimentModel := ModelDir(Some(V1), map[V1 :=
            VersionDir(Some(Fit(features)), Some(TrainingManifestFor(features, FEATURES, SentimentTable)))]),
          ApprovedSentimentModel := ModelDir(Some(V1), map[V1 :=
            VersionDir(Some(Fit(approvedFeatures)),
                       Some(TrainingManifestFor(approvedFeatures, REPLACEMENT_SOURCE, ApprovedFeaturesTable)))])],
      Some(derived), None, false, map[PREDICT_API := ServingOn])
  }

  ghost predicate NothingApprovedYet(c: Content) {
    && (forall t, r | t in {NormalizedTable, SentimentTable} && t in c.tables && r in c.tables[t] :: r.feed != ApprovedLabel)
    && (c.vectors.Some? ==> forall e | e in c.vectors.value.entries :: e.feed != ApprovedLabel)
    && (c.manifest.Some? && c.manifest.value.BuiltManifest? ==> c.manifest.value.feed != ApprovedLabel)
    && (forall name: ModelName :: VersionOf(c, name, V2Approved).None?)
  }

  lemma NothingApprovedIsSound(c: Content)
    requires NothingApprovedYet(c)
    ensures Sound(c, c)
  {
    forall name: ModelName ensures ModelTrue(c, c, name) {
      assert VersionOf(c, name, V2Approved).None?;
    }
  }

  lemma PartnerLabels(partner: seq<Row>)
    ensures var derived := DeriveAll(partner, PartnerLabel);
            && (forall r | r in derived :: r.feed == PartnerLabel)
            && (forall r | r in SentimentRows(derived) :: r.feed == PartnerLabel)
            && (forall e | e in Vectorise(derived).entries :: e.feed == PartnerLabel)
  {
    DerivedIds(partner, PartnerLabel);
    var derived := DeriveAll(partner, PartnerLabel);
    forall r | r in SentimentRows(derived) ensures r.feed == PartnerLabel {
      var k :| 0 <= k < |derived| && SentimentRows(derived)[k] == r;
      assert derived[k] in derived;
    }
    VectorsAreRows(derived);
  }

  lemma BuiltIsSound(partner: seq<Row>, approved: seq<Row>, report: seq<(int, int)>)
    ensures var c := Built(partner, approved, report); Sound(c, c)
  {
    PartnerLabels(partner);
    NothingApprovedIsSound(Built(partner, approved, report));
  }
}
