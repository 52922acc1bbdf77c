/** The typed vocabulary of app/rights.py and the artifact names of demo/graph.py. */
module Rights {
  import opened Ordering

  datatype Option<+T> = None | Some(value: T)

  datatype Purpose = Training | Retrieval | Analytics | Serving | ExportUse

  datatype ArtifactClass =
    | DatasetClass | TransformationClass | FeatureClass | TrainingSnapshotClass | ModelClass
    | DeploymentClass | VectorIndexClass | ApiClass | CacheClass | ExportClass | UnknownClass

  datatype Action =
    | Freeze | Quarantine | Purge | Rebuild | Retrain | Replace | NoAction | Escalate

  /** The artifacts that have a local record (demo/estate.py, LOCAL_ARTIFACTS). */
  datatype Artifact =
    | ReviewVolume | ApprovedFeed | LegacySnapshot | NormalizedReviews | PartnerFeed
    | Features | ReviewsExtract | ApprovedModel | SentimentModel | PredictApi | ReviewIndex

  /** A URN either names a local artifact or is some other string. */
  datatype Urn = Local(artifact: Artifact) | Foreign(name: string)

  const SOURCE := Local(PartnerFeed)
  const REPLACEMENT_SOURCE := Local(ApprovedFeed)
  const NORMALIZED := Local(NormalizedReviews)
  const FEATURES := Local(Features)
  const APPROVED_MODEL := Local(ApprovedModel)
  const PREDICT_API := Local(PredictApi)

  predicate IsDestructive(a: Action) {
    a.Freeze? || a.Quarantine? || a.Purge? || a.Rebuild? || a.Retrain? || a.Replace?
  }

  predicate IsNonExecutable(a: Action) {
    a.NoAction? || a.Escalate?
  }

  /** The action's string value; steps are ordered by it. */
  function ActionName(a: Action): string {
    match a
    case Freeze => "freeze"
    case Quarantine => "quarantine"
    case Purge => "purge"
    case Rebuild => "rebuild"
    case Retrain => "retrain"
    case Replace => "replace"
    case NoAction => "no_action"
    case Escalate => "escalate"
  }

  /** Position of a local URN in the string order of the real URNs. */
  function UrnRank(u: Urn): nat {
    match u
    case Local(ReviewVolume) => 0
    case Local(ApprovedFeed) => 1
    case Local(LegacySnapshot) => 2
    case Local(NormalizedReviews) => 3
    case Local(PartnerFeed) => 4
    case Local(Features) => 5
    case Local(ReviewsExtract) => 6
    case Local(ApprovedModel) => 7
    case Local(SentimentModel) => 8
    case Local(PredictApi) => 9
    case Local(ReviewIndex) => 10
    case Foreign(_) => 11
  }

  function UrnKey(u: Urn): (nat, string) {
    (UrnRank(u), if u.Foreign? then u.name else "")
  }

  function UrnOrder(): (Urn, Urn) -> bool {
    By((u: Urn) => UrnKey(u), Then(NatOrder(), StringOrder()))
  }

  /** The parts of the real URNs after the head they share (demo/graph.py): platform,
      folder, name. */
  function UrnParts(a: Artifact): (string, string, string) {
    match a
    case ReviewVolume => ("duckdb,license.", "reports.", "review_volume,PROD)")
    case ApprovedFeed => ("duckdb,license.", "reviews.", "approved_feed,PROD)")
    case LegacySnapshot => ("duckdb,license.", "reviews.", "legacy_snapshot,PROD)")
    case NormalizedReviews => ("duckdb,license.", "reviews.", "normalized,PROD)")
    case PartnerFeed => ("duckdb,license.", "reviews.", "partner_feed,PROD)")
    case Features => ("feast,license.", "features.", "review_sentiment,PROD)")
    case ReviewsExtract => ("file,license.", "exports.", "reviews_extract,PROD)")
    case ApprovedModel => ("mlflow,license.", "models.", "approved_sentiment,PROD)")
    case SentimentModel => ("mlflow,license.", "models.", "review_sentiment,PROD)")
    case PredictApi => ("rest-api,license.", "services.", "predict_api,PROD)")
    case ReviewIndex => ("vectorstore,license.", "indexes.", "review_search,PROD)")
  }

  function UrnTail(a: Artifact): string { UrnParts(a).0 + (UrnParts(a).1 + UrnParts(a).2) }

  function UrnString(a: Artifact): string { "urn:li:dataset:(urn:li:dataPlatform:" + UrnTail(a) }

  lemma Differ(x: string, y: string, k: nat)
    requires k < |x| && k < |y| && x[..k] == y[..k] && x[k] < y[k]
    ensures StringOrder()(x, y) && x != y
  {
    LexAt(CharOrder(), x, y, k);
  }

  lemma SkipHead(head: string, x: string, y: string)
    requires StringOrder()(x, y) && x != y
    ensures StringOrder()(head + x, head + y) && head + x != head + y
  {
    LexSkip(CharOrder(), head, x, y);
    assert (head + x)[|head|..] == x && (head + y)[|head|..] == y;
  }

  lemma NextPlatform(a: Artifact, b: Artifact)
    requires UrnRank(Local(b)) == UrnRank(Local(a)) + 1 && UrnParts(a).0 != UrnParts(b).0
    ensures StringOrder()(UrnTail(a), UrnTail(b)) && UrnTail(a) != UrnTail(b)
  {
    Differ(UrnTail(a), UrnTail(b), if a.Features? then 1 else 0);
  }

  lemma NextInPlatform(a: Artifact, b: Artifact)
    requires UrnRank(Local(b)) == UrnRank(Local(a)) + 1 && UrnParts(a).0 == UrnParts(b).0
    ensures var x, y := UrnParts(a).1 + UrnParts(a).2, UrnParts(b).1 + UrnParts(b).2; StringOrder()(x, y) && x != y
  {
    if UrnParts(a).1 != UrnParts(b).1 {
      Differ(UrnParts(a).1 + UrnParts(a).2, UrnParts(b).1 + UrnParts(b).2, 2);
    } else {
      Differ(UrnParts(a).2, UrnParts(b).2, 0);
      SkipHead(UrnParts(a).1, UrnParts(a).2, UrnParts(b).2);
    }
  }

  /** Each URN comes before the next. */
  lemma NextUrn(a: Artifact, b: Artifact)
    requires UrnRank(Local(b)) == UrnRank(Local(a)) + 1
    ensures StringOrder()(UrnTail(a), UrnTail(b)) && UrnTail(a) != UrnTail(b)
  {
    if UrnParts(a).0 != UrnParts(b).0 {
      NextPlatform(a, b);
    } else {
      NextInPlatform(a, b);
      SkipHead(UrnParts(a).0, UrnParts(a).1 + UrnParts(a).2, UrnParts(b).1 + UrnParts(b).2);
    }
  }

  function AtRank(n: nat): Artifact
    requires n <= 10
  {
    match n
    case 0 => ReviewVolume
    case 1 => ApprovedFeed
    case 2 => LegacySnapshot
    case 3 => NormalizedReviews
    case 4 => PartnerFeed
    case 5 => Features
    case 6 => ReviewsExtract
    case 7 => ApprovedModel
    case 8 => SentimentModel
    case 9 => PredictApi
    case _ => ReviewIndex
  }

  lemma {:induction false} EarlierUrn(m: nat, n: nat)
    requires m < n <= 10
    ensures StringOrder()(UrnTail(AtRank(m)), UrnTail(AtRank(n))) && UrnTail(AtRank(m)) != UrnTail(AtRank(n))
    decreases n - m
  {
    BasicOrders();
    assert UrnRank(Local(AtRank(n))) == UrnRank(Local(AtRank(n - 1))) + 1;
    NextUrn(AtRank(n - 1), AtRank(n));
    if m < n - 1 {
      EarlierUrn(m, n - 1);
      Chained(UrnTail(AtRank(m)), UrnTail(AtRank(n - 1)), UrnTail(AtRank(n)));
    }
  }

  lemma Chained(x: string, y: string, z: string)
    requires StringOrder()(x, y) && x != y && StringOrder()(y, z) && y != z
    ensures StringOrder()(x, z) && x != z
  {
    BasicOrders();
  }

  /** The URNs are ordered as the strings they stand for. */
  lemma UrnsAreOrdered(a: Artifact, b: Artifact)
    ensures UrnOrder()(Local(a), Local(b)) <==> StringOrder()(UrnString(a), UrnString(b))
  {
    var m, n := UrnRank(Local(a)), UrnRank(Local(b));
    assert UrnOrder()(Local(a), Local(b)) <==> m <= n;
    TailsAreOrdered(a, b);
    LexSkip(CharOrder(), "urn:li:dataset:(urn:li:dataPlatform:", UrnTail(a), UrnTail(b));
  }

  lemma TailsAreOrdered(a: Artifact, b: Artifact)
    ensures UrnRank(Local(a)) <= UrnRank(Local(b)) <==> StringOrder()(UrnTail(a), UrnTail(b))
  {
    var m, n := UrnRank(Local(a)), UrnRank(Local(b));
    assert AtRank(m) == a && AtRank(n) == b;
    if m < n { EarlierUrn(m, n); } else if n < m { EarlierUrn(n, m); }
    OneWay(UrnTail(a), UrnTail(b));
  }

  /** Of two strings one comes first, and only equal ones both do. */
  lemma OneWay(x: string, y: string)
    ensures x == y ==> StringOrder()(x, y)
    ensures StringOrder()(x, y) && StringOrder()(y, x) ==> x == y
  {
    BasicOrders();
    assert StringOrder()(x, x) || StringOrder()(x, x);
  }

  lemma UrnOrderIsTotal()
    ensures TotalOrder(UrnOrder()) && TotalOrder(Lex(UrnOrder()))
  {
    BasicOrders();
    ThenIsTotalOrder(NatOrder(), StringOrder());
    var leq := Then(NatOrder(), StringOrder());
    forall a: Urn, b: Urn | UrnOrder()(a, b) && UrnOrder()(b, a) ensures a == b {
      assert UrnKey(a) == UrnKey(b);
    }
    forall a: Urn, b: Urn ensures UrnOrder()(a, b) || UrnOrder()(b, a) {
      assert leq(UrnKey(a), UrnKey(b)) || leq(UrnKey(b), UrnKey(a));
    }
    forall a: Urn, b: Urn, c: Urn | UrnOrder()(a, b) && UrnOrder()(b, c) ensures UrnOrder()(a, c) {
      assert leq(UrnKey(a), UrnKey(b)) && leq(UrnKey(b), UrnKey(c));
    }
    LexIsTotalOrder(UrnOrder());
  }

  function Map<A, B>(f: A -> B, xs: seq<A>): (r: seq<B>)
    ensures |r| == |xs| && forall i | 0 <= i < |xs| :: r[i] == f(xs[i])
  {
    seq(|xs|, i requires 0 <= i < |xs| => f(xs[i]))
  }

  function Filter<A(!new)>(p: A -> bool, xs: seq<A>): (r: seq<A>)
    ensures forall x :: x in r <==> x in xs && p(x)
  {
    if xs == [] then []
    else
      assert xs == [xs[0]] + xs[1..];
      (if p(xs[0]) then [xs[0]] else []) + Filter(p, xs[1..])
  }

  function Without<T>(xs: seq<T>, j: nat): seq<T>
    requires j < |xs|
  {
    xs[..j] + xs[j + 1..]
  }

  lemma TakeOut<T>(xs: seq<T>, j: nat)
    requires j < |xs|
    ensures multiset(xs) == multiset(Without(xs, j)) + multiset{xs[j]}
  {
    assert xs == xs[..j] + [xs[j]] + xs[j + 1..];
  }

  lemma MapTakeOut<T, U>(xs: seq<T>, j: nat, f: T -> U)
    requires j < |xs|
    ensures multiset(Map(f, xs)) == multiset(Map(f, Without(xs, j))) + multiset{f(xs[j])}
  {
    TakeOut(Map(f, xs), j);
    assert Without(Map(f, xs), j) == Map(f, Without(xs, j));
  }

  /** The same entry taken out of two arrangements leaves two arrangements. */
  lemma TakeOutBoth<T>(xs: seq<T>, i: nat, ys: seq<T>, j: nat)
    requires i < |xs| && j < |ys| && xs[i] == ys[j] && multiset(xs) == multiset(ys)
    ensures multiset(Without(xs, i)) == multiset(Without(ys, j))
  {
    TakeOut(xs, i);
    TakeOut(ys, j);
    assert multiset(Without(xs, i)) == multiset(xs) - multiset{xs[i]};
    assert multiset(Without(ys, j)) == multiset(ys) - multiset{ys[j]};
  }

  lemma {:induction false} MapPermutes<T(!new), U>(xs: seq<T>, ys: seq<T>, f: T -> U)
    requires multiset(xs) == multiset(ys)
    ensures multiset(Map(f, xs)) == multiset(Map(f, ys))
    decreases |xs|
  {
    if xs == [] {
      assert |ys| == |multiset(ys)| == 0;
    } else {
      assert xs[0] in multiset(ys);
      var j :| 0 <= j < |ys| && ys[j] == xs[0];
      TakeOutBoth(xs, 0, ys, j);
      MapPermutes(Without(xs, 0), Without(ys, j), f);
      MapTakeOut(xs, 0, f);
      MapTakeOut(ys, j, f);
    }
  }

  /** Whether keys repeat is a matter of which entries there are, not of their order. */
  lemma DistinctKeysPermute<T(!new), U>(xs: seq<T>, ys: seq<T>, key: T -> U)
    requires multiset(xs) == multiset(ys)
    ensures Distinct(Map(key, xs)) <==> Distinct(Map(key, ys))
  {
    MapPermutes(xs, ys, key);
    DistinctByCount(Map(key, xs));
    DistinctByCount(Map(key, ys));
  }
}
