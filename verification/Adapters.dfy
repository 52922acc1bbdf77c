/** The adapters as code that changes the estate in place.

    Every method returns, beside its status, the estate after each of its writes,
    and is proved to go through exactly the states `Estate.Execute` gives. */
module Adapters {
  import opened Ordering
  import opened Rights
  import opened Estate

  /** The estate directory.  `budget` counts the writes that will still succeed;
      absent, none fails.  `stamp` moves on with every write. */
  class LocalEstate {
    var tables: map<Table, seq<Row>>
    var report: Option<seq<(int, int)>>
    var vectors: Option<VectorFile>
    var manifest: Option<IndexManifest>
    var models: map<ModelName, ModelDir>
    var published: Option<seq<Row>>
    var quarantined: Option<seq<Row>>
    var quarantineNote: bool
    var serving: map<Urn, ServingState>
    var budget: Option<nat>
    var stamp: nat

    function Contents(): Content
      reads this
    {
      Content(tables, report, vectors, manifest, models, published, quarantined, quarantineNote, serving)
    }

    constructor (c: Content)
      ensures Contents() == c && budget == None && stamp == 0
    {
      tables, report, vectors, manifest, models := c.tables, c.report, c.vectors, c.manifest, c.models;
      published, quarantined, quarantineNote, serving := c.published, c.quarantined, c.quarantineNote, c.serving;
      budget, stamp := None, 0;
    }

    /** Account for one write about to be made; false when it fails instead. */
    method Spend() returns (ok: bool)
      modifies this`budget, this`stamp
      ensures ok == (old(budget) != Some(0))
      ensures ok ==> stamp == old(stamp) + 1 && budget == if old(budget).None? then None else Some(old(budget).value - 1)
      ensures !ok ==> stamp == old(stamp) && budget == old(budget)
    {
      if budget == Some(0) {
        return false;
      }
      if budget.Some? {
        budget := Some(budget.value - 1);
      }
      stamp := stamp + 1;
      ok := true;
    }
  }

  /** The effect of a call whose writes fail once the budget is spent. */
  function Cut(e: Effect, budget: Option<nat>): Effect {
    if budget.None? || |e.after| <= budget.value then e
    else Effect(e.after[..budget.value], FailedCall, false)
  }

  /** What one adapter method did: `e` under the budget it started with. */
  ghost predicate Did(c: Content, stamp: nat, budget: Option<nat>, e: Effect, done: Effect,
                      now: Content, stampNow: nat, budgetNow: Option<nat>)
  {
    && done == Cut(e, budget)
    && now == Last(c, done.after)
    && stampNow == stamp + |done.after|
    && (budget.None? <==> budgetNow.None?)
  }

  method Freeze(e: LocalEstate, urn: Urn) returns (status: CallStatus, changed: bool, ghost after: seq<Content>)
    modifies e
    ensures Did(old(e.Contents()), old(e.stamp), old(e.budget), FreezeEffect(old(e.Contents()), urn),
                Effect(after, status, changed), e.Contents(), e.stamp, e.budget)
  {
    after := [];
    changed := ServingOf(e.Contents(), urn) != Blocked;
    var ok := e.Spend();
    if !ok {
      return FailedCall, false, [];
    }
    e.serving := e.serving[urn := Blocked];
    after := [e.Contents()];
    status := Succeeded;
  }

  method PurgeIndex(e: LocalEstate) returns (status: CallStatus, changed: bool, ghost after: seq<Content>)
    modifies e
    ensures Did(old(e.Contents()), old(e.stamp), old(e.budget), PurgeIndexEffect(old(e.Contents())),
                Effect(after, status, changed), e.Contents(), e.stamp, e.budget)
  {
    after := [];
    changed := e.vectors.Some?;
    if changed {
      var unlinked := e.Spend();
      if !unlinked {
        return FailedCall, false, [];
      }
      e.vectors := None;
      after := [e.Contents()];
    }
    var written := e.Spend();
    if !written {
      return FailedCall, false, after;
    }
    e.manifest := Some(PurgedManifest);
    after := after + [e.Contents()];
    status := Succeeded;
  }

  method RebuildIndex(ctx: Context, e: LocalEstate) returns (status: CallStatus, changed: bool, ghost after: seq<Content>)
    modifies e
    ensures Did(old(e.Contents()), old(e.stamp), old(e.budget), RebuildIndexEffect(ctx, old(e.Contents())),
                Effect(after, status, changed), e.Contents(), e.stamp, e.budget)
  {
    after := [];
    if !ReplacementUsable(ctx) || NormalizedTable !in e.tables {
      return FailedCall, false, [];
    }
    var rows := e.tables[NormalizedTable];
    if exists r | r in rows :: r.feed != ApprovedLabel {
      return FailedCall, false, [];
    }
    var before := IndexHash(e.Contents());
    var written := e.Spend();
    if !written {
      return FailedCall, false, [];
    }
    e.vectors := Some(Vectorise(rows));
    after := [e.Contents()];
    written := e.Spend();
    if !written {
      return FailedCall, false, after;
    }
    e.manifest := Some(IndexManifestFor(rows, REPLACEMENT_SOURCE, ApprovedLabel));
    after := after + [e.Contents()];
    status, changed := Succeeded, IndexHash(e.Contents()) != before;
  }

  method QuarantineExport(e: LocalEstate) returns (status: CallStatus, changed: bool, ghost after: seq<Content>)
    modifies e
    ensures Did(old(e.Contents()), old(e.stamp), old(e.budget), QuarantineEffect(old(e.Contents())),
                Effect(after, status, changed), e.Contents(), e.stamp, e.budget)
  {
    after := [];
    if e.published.None? {
      if e.quarantined.None? {
        return FailedCall, false, [];
      }
      if e.quarantineNote {
        return Succeeded, false, [];
      }
      var noted := e.Spend();
      if !noted {
        return FailedCall, false, [];
      }
      e.quarantineNote := true;
      return Succeeded, true, [e.Contents()];
    }
    if e.quarantined.Some? {
      return FailedCall, false, [];
    }
    var moved := e.Spend();
    if !moved {
      return FailedCall, false, [];
    }
    e.published, e.quarantined := None, e.published;
    after := [e.Contents()];
    var noted := e.Spend();
    if !noted {
      return FailedCall, false, after;
    }
    e.quarantineNote := true;
    after := after + [e.Contents()];
    status, changed := Succeeded, true;
  }

  /** Write one file of a model version, or fail. */
  method StoreVersion(e: LocalEstate, name: ModelName, v: Version, d: VersionDir) returns (ok: bool)
    modifies e
    ensures ok <==> old(e.budget) != Some(0)
    ensures e.budget == if old(e.budget).Some? && ok then Some(old(e.budget).value - 1) else old(e.budget)
    ensures e.stamp == old(e.stamp) + if ok then 1 else 0
    ensures e.Contents() == if ok then SetVersion(old(e.Contents()), name, v, d) else old(e.Contents())
  {
    ok := e.Spend();
    if ok {
      e.models := SetVersion(e.Contents(), name, v, d).models;
    }
  }

  /** model.json, then training_manifest.json. */
  method StoreTraining(e: LocalEstate, name: ModelName, dir: VersionDir, rows: seq<Row>)
    returns (ok: bool, ghost after: seq<Content>)
    modifies e
    ensures var fitted := SetVersion(old(e.Contents()), name, V2Approved, dir.(model := Some(Fit(rows))));
            after <= [fitted, SetVersion(fitted, name, V2Approved,
              VersionDir(Some(Fit(rows)), Some(TrainingManifestFor(rows, REPLACEMENT_SOURCE, ApprovedFeedTable))))]
    ensures e.Contents() == Last(old(e.Contents()), after) && e.stamp == old(e.stamp) + |after|
    ensures ok <==> old(e.budget).None? || 2 <= old(e.budget).value
    ensures |after| == if ok then 2 else old(e.budget).value
    ensures old(e.budget).None? <==> e.budget.None?
  {
    after := [];
    ok := StoreVersion(e, name, V2Approved, dir.(model := Some(Fit(rows))));
    if ok {
      after := [e.Contents()];
      ok := StoreVersion(e, name, V2Approved,
        VersionDir(Some(Fit(rows)), Some(TrainingManifestFor(rows, REPLACEMENT_SOURCE, ApprovedFeedTable))));
      if ok {
        after := after + [e.Contents()];
      }
    }
  }

  method RetrainModel(ctx: Context, e: LocalEstate, name: ModelName)
    returns (status: CallStatus, changed: bool, ghost after: seq<Content>)
    modifies e
    ensures Did(old(e.Contents()), old(e.stamp), old(e.budget), RetrainEffect(ctx, old(e.Contents()), name),
                Effect(after, status, changed), e.Contents(), e.stamp, e.budget)
  {
    after := [];
    if !ReplacementUsable(ctx) || ApprovedFeedTable !in e.tables || !IsTrainable(e.tables[ApprovedFeedTable]) {
      return FailedCall, false, [];
    }
    var rows := e.tables[ApprovedFeedTable];
    var trained := TrainingManifestFor(rows, REPLACEMENT_SOURCE, ApprovedFeedTable);
    var existing := VersionOf(e.Contents(), name, V2Approved);
    var dir := if existing.Some? then existing.value else VersionDir(None, None);
    ghost var c := e.Contents();
    ghost var made := SetVersion(c, name, V2Approved, dir);
    if existing.None? {
      var created := StoreVersion(e, name, V2Approved, dir);
      if !created {
        return FailedCall, false, [];
      }
      after := [e.Contents()];
    } else {
      SetVersionAgain(c, name, V2Approved);
    }
    assert e.Contents() == made;
    var ok;
    ghost var more;
    ok, more := StoreTraining(e, name, dir, rows);
    after := after + more;
    if !ok {
      return FailedCall, false, after;
    }
    status, changed := Succeeded, TrainingHash(dir.manifest) != TrainingHash(Some(trained));
  }

  lemma SetVersionAgain(c: Content, name: ModelName, v: Version)
    requires VersionOf(c, name, v).Some?
    ensures SetVersion(c, name, v, VersionOf(c, name, v).value) == c
  {
    var dir := c.models[name];
    assert dir.versions[v := dir.versions[v]] == dir.versions;
    assert c.models[name := dir] == c.models;
  }

  method ReplaceModel(ctx: Context, e: LocalEstate, name: ModelName)
    returns (status: CallStatus, changed: bool, ghost after: seq<Content>)
    modifies e
    ensures Did(old(e.Contents()), old(e.stamp), old(e.budget), ReplaceEffect(ctx, old(e.Contents()), name),
                Effect(after, status, changed), e.Contents(), e.stamp, e.budget)
  {
    after := [];
    var candidate := VersionOf(e.Contents(), name, V2Approved);
    if candidate.None? || !CandidateTrusted(ctx, candidate.value) {
      return FailedCall, false, [];
    }
    changed := ActiveVersion(e.Contents(), name) != Some(V2Approved);
    var flipped := e.Spend();
    if !flipped {
      return FailedCall, false, [];
    }
    e.models := SetActive(e.Contents(), name, V2Approved).models;
    after := [e.Contents()];
    status := Succeeded;
  }

  method PurgeTable(e: LocalEstate, t: Table) returns (status: CallStatus, changed: bool, ghost after: seq<Content>)
    modifies e
    ensures Did(old(e.Contents()), old(e.stamp), old(e.budget), PurgeTableEffect(old(e.Contents()), t),
                Effect(after, status, changed), e.Contents(), e.stamp, e.budget)
  {
    after := [];
    if !IsPurgeable(t) || t !in e.tables {
      return FailedCall, false, [];
    }
    changed := e.tables[t] != [];
    var deleted := e.Spend();
    if !deleted {
      return FailedCall, false, [];
    }
    e.tables := e.tables[t := []];
    after := [e.Contents()];
    status := Succeeded;
  }

  /** Replace `normalized` by an empty table and insert the rows one by one. */
  method FillNormalized(e: LocalEstate, rows: seq<Row>) returns (ok: bool, ghost after: seq<Content>)
    modifies e
    ensures after <= FillTrace(old(e.Contents()), rows)
    ensures e.Contents() == Last(old(e.Contents()), after) && e.stamp == old(e.stamp) + |after|
    ensures ok <==> old(e.budget).None? || |rows| + 1 <= old(e.budget).value
    ensures |after| == if ok then |rows| + 1 else old(e.budget).value
    ensures e.budget == if old(e.budget).None? then None else Some(old(e.budget).value - |after|)
  {
    ghost var c := e.Contents();
    after := [];
    ok := e.Spend();
    if !ok {
      return;
    }
    e.tables := e.tables[NormalizedTable := []];
    after := [e.Contents()];
    assert rows[..0] == [];
    assert after == FillTrace(c, rows)[..1];
    for k := 0 to |rows|
      invariant after == FillTrace(c, rows)[..k + 1]
      invariant e.Contents() == SetTable(c, NormalizedTable, rows[..k])
      invariant e.stamp == old(e.stamp) + k + 1
      invariant old(e.budget).None? || k + 1 <= old(e.budget).value
      invariant e.budget == if old(e.budget).None? then None else Some(old(e.budget).value - (k + 1))
    {
      ok := e.Spend();
      if !ok {
        return;
      }
      e.tables := e.tables[NormalizedTable := e.tables[NormalizedTable] + [rows[k]]];
      assert rows[..k + 1] == rows[..k] + [rows[k]];
      assert e.Contents() == SetTable(c, NormalizedTable, rows[..k + 1]) by {
        assert c.tables[NormalizedTable := rows[..k]][NormalizedTable := rows[..k + 1]] == c.tables[NormalizedTable := rows[..k + 1]];
      }
      after := after + [e.Contents()];
    }
    assert FillTrace(c, rows)[..|rows| + 1] == FillTrace(c, rows);
    ok := true;
  }

  method RebuildTables(ctx: Context, e: LocalEstate, t: Table)
    returns (status: CallStatus, changed: bool, ghost after: seq<Content>)
    modifies e
    ensures Did(old(e.Contents()), old(e.stamp), old(e.budget), RebuildTablesEffect(ctx, old(e.Contents()), t),
                Effect(after, status, changed), e.Contents(), e.stamp, e.budget)
  {
    after := [];
    if !IsRebuildable(t) || !ReplacementUsable(ctx) || t !in e.tables || ApprovedFeedTable !in e.tables {
      return FailedCall, false, [];
    }
    ghost var c := e.Contents();
    var before := SortedIds(e.tables[t]);
    var rows := DeriveAll(e.tables[ApprovedFeedTable], ApprovedLabel);
    var filled;
    filled, after := FillNormalized(e, rows);
    ghost var all := FillTrace(c, rows) + [SetTable(SetTable(c, NormalizedTable, rows), SentimentTable, SentimentRows(rows))];
    if !filled {
      assert after == all[..|after|];
      return FailedCall, false, after;
    }
    assert after == FillTrace(c, rows) && e.Contents() == SetTable(c, NormalizedTable, rows) by {
      assert rows[..|rows|] == rows;
    }
    var derived := e.Spend();
    if !derived {
      assert after == all[..|after|];
      return FailedCall, false, after;
    }
    e.tables := e.tables[SentimentTable := SentimentRows(e.tables[NormalizedTable])];
    after := after + [e.Contents()];
    status, changed := Succeeded, SortedIds(e.tables[t]) != before;
  }

  /** AdapterRegistry.execute on this estate. */
  method ExecuteAction(ctx: Context, e: LocalEstate, urn: Urn, action: Action)
    returns (status: CallStatus, changed: bool, ghost after: seq<Content>)
    modifies e
    ensures Did(old(e.Contents()), old(e.stamp), old(e.budget), Execute(ctx, old(e.Contents()), urn, action),
                Effect(after, status, changed), e.Contents(), e.stamp, e.budget)
  {
    if !ctx.owned(urn) {
      return FailedCall, false, [];
    }
    var record := ResolveArtifact(urn);
    if record.None? {
      return FailedCall, false, [];
    }
    match (record.value, action)
    case (ServiceRecord, Freeze) => status, changed, after := Freeze(e, urn);
    case (IndexRecord, Purge) => status, changed, after := PurgeIndex(e);
    case (IndexRecord, Rebuild) => status, changed, after := RebuildIndex(ctx, e);
    case (ExportRecord, Quarantine) => status, changed, after := QuarantineExport(e);
    case (ModelRecord(name), Retrain) => status, changed, after := RetrainModel(ctx, e, name);
    case (ModelRecord(name), Replace) => status, changed, after := ReplaceModel(ctx, e, name);
    case (TableRecord(t), Purge) => status, changed, after := PurgeTable(e, t);
    case (TableRecord(t), Rebuild) => status, changed, after := RebuildTables(ctx, e, t);
    case (ReportRecord, Purge) => return FailedCall, false, [];
    case (ReportRecord, Rebuild) => return FailedCall, false, [];
    case _ => return UnsupportedCall, false, [];
  }

  /** One adapter call that raises after `fault` writes, if a fault is given. */
  method CallAdapter(ctx: Context, e: LocalEstate, urn: Urn, action: Action, fault: Option<nat>)
    returns (status: CallStatus, changed: bool, ghost after: seq<Content>)
    modifies e
    ensures Effect(after, status, changed) == WithFault(Execute(ctx, old(e.Contents()), urn, action), fault)
    ensures e.Contents() == Last(old(e.Contents()), after) && e.stamp == old(e.stamp) + |after|
  {
    e.budget := fault;
    status, changed, after := ExecuteAction(ctx, e, urn, action);
    if fault.Some? && status == Succeeded {
      status, changed := FailedCall, false;
    }
    e.budget := None;
  }
}
