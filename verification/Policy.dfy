/** The rule table and its evaluation (app/policy.py, policy/rules.yaml). */
module Policy {
  import opened Ordering
  import opened Rights
  import opened Plan
  import opened LineageContext

  /** A rule's conditions; an absent one does not restrict. */
  datatype Conditions = Conditions(
    lineageComplete: Option<bool>,
    hasPaths: Option<bool>,
    affected: Option<bool>,
    hasReplacement: Option<bool>,
    rebuildable: Option<bool>,
    contextComplete: Option<bool>,
    classes: Option<seq<ArtifactClass>>)

  const ALWAYS := Conditions(None, None, None, None, None, None, None)

  datatype Rule = Rule(
    id: string,
    description: string,
    precedence: int,
    when: Conditions,
    actions: seq<Action>,
    missingEvidence: seq<string>,
    requiresApproval: bool)

  datatype PriorityModel = PriorityModel(exposure: map<Exposure, int>, criticality: map<Criticality, int>, escalationBonus: int, cap: int)

  datatype PolicyTable = PolicyTable(rules: seq<Rule>, priority: PriorityModel)

  // --- loading ----------------------------------------------------------------------

  datatype PolicyError = NoRules | DuplicateIds | DuplicatePrecedences | NoBackstop

  datatype Loaded = Table(table: PolicyTable) | Rejected(error: PolicyError)

  function Precedence(): (Rule, Rule) -> bool {
    By((r: Rule) => r.precedence, (a: int, b: int) => a <= b)
  }

  predicate IsBackstop(r: Rule) { r.when == ALWAYS && Escalate in r.actions }

  function LoadPolicy(rules: seq<Rule>, priority: PriorityModel): Loaded {
    if rules == [] then Rejected(NoRules)
    else if !Distinct(Map((r: Rule) => r.id, rules)) then Rejected(DuplicateIds)
    else if !Distinct(Map((r: Rule) => r.precedence, rules)) then Rejected(DuplicatePrecedences)
    else if !(exists r | r in rules :: IsBackstop(r)) then Rejected(NoBackstop)
    else Table(PolicyTable(Sort(rules, Precedence()), priority))
  }

  // --- evaluation -------------------------------------------------------------------

  datatype Facts = Facts(
    lineageComplete: bool,
    hasPaths: bool,
    affected: bool,
    hasReplacement: bool,
    rebuildable: bool,
    contextComplete: bool,
    artifactClass: ArtifactClass)

  predicate Agrees(expected: Option<bool>, actual: bool) { expected.Some? ==> expected.value == actual }

  predicate Matches(r: Rule, f: Facts) {
    && Agrees(r.when.lineageComplete, f.lineageComplete) && Agrees(r.when.hasPaths, f.hasPaths)
    && Agrees(r.when.affected, f.affected) && Agrees(r.when.hasReplacement, f.hasReplacement)
    && Agrees(r.when.rebuildable, f.rebuildable) && Agrees(r.when.contextComplete, f.contextComplete)
    && (r.when.classes.Some? ==> f.artifactClass in r.when.classes.value)
  }

  function FirstMatch(rules: seq<Rule>, f: Facts): Option<Rule> {
    if rules == [] then None
    else if Matches(rules[0], f) then Some(rules[0])
    else FirstMatch(rules[1..], f)
  }

  /** In scope: it uses a lost purpose itself, or is derived from something that does. */
  predicate IsAffected(lost: set<Purpose>, d: Descendant) {
    lost != {} && (d.purposes * lost != {} || d.contaminated)
  }

  function FactsOf(lost: set<Purpose>, hasReplacement: bool, d: Descendant): Facts {
    Facts(d.LineageComplete(), d.paths != [], IsAffected(lost, d), hasReplacement, d.rebuildable,
          d.missingEvidence == [], d.artifactClass)
  }

  function Score(m: PriorityModel, e: Exposure, c: Criticality, escalated: bool): int {
    var total := (if e in m.exposure then m.exposure[e] else 0) + (if c in m.criticality then m.criticality[c] else 0)
               + (if escalated then m.escalationBonus else 0);
    if total < m.cap then total else m.cap
  }

  datatype Evaluated = Decided(decision: Decision) | NoRuleMatched | PriorityOutOfRange

  function Evaluate(table: PolicyTable, lost: set<Purpose>, hasReplacement: bool, d: Descendant): Evaluated {
    match FirstMatch(table.rules, FactsOf(lost, hasReplacement, d))
    case None => NoRuleMatched
    case Some(rule) =>
      var score := Score(table.priority, d.exposure, d.criticality, Escalate in rule.actions);
      if !(0 <= score <= 100) then PriorityOutOfRange
      else Decided(Decision(d.urn, d.artifactClass, rule.actions, [rule.id],
                            if rule.description != "" then rule.description else rule.id,
                            d.paths, score, rule.missingEvidence + d.missingEvidence, rule.requiresApproval))
  }

  /** The loop over the rules. */
  method RunEvaluate(table: PolicyTable, lost: set<Purpose>, hasReplacement: bool, d: Descendant) returns (result: Evaluated)
    ensures result == Evaluate(table, lost, hasReplacement, d)
  {
    var facts := FactsOf(lost, hasReplacement, d);
    for i := 0 to |table.rules|
      invariant FirstMatch(table.rules, facts) == FirstMatch(table.rules[i..], facts)
    {
      var rule := table.rules[i];
      assert table.rules[i..][1..] == table.rules[i + 1..];
      if !Matches(rule, facts) {
        continue;
      }
      var score := Score(table.priority, d.exposure, d.criticality, Escalate in rule.actions);
      if !(0 <= score <= 100) {
        return PriorityOutOfRange;
      }
      return Decided(Decision(d.urn, d.artifactClass, rule.actions, [rule.id],
                              if rule.description != "" then rule.description else rule.id,
                              d.paths, score, rule.missingEvidence + d.missingEvidence, rule.requiresApproval));
    }
    return NoRuleMatched;
  }

  lemma {:induction false} FirstMatchIsFirst(rules: seq<Rule>, f: Facts) returns (k: nat)
    requires exists r | r in rules :: Matches(r, f)
    ensures k < |rules| && FirstMatch(rules, f) == Some(rules[k]) && Matches(rules[k], f)
    ensures forall j | 0 <= j < k :: !Matches(rules[j], f)
  {
    if Matches(rules[0], f) {
      k := 0;
    } else {
      assert rules == [rules[0]] + rules[1..];
      var j := FirstMatchIsFirst(rules[1..], f);
      k := j + 1;
    }
  }

  lemma {:induction false} FirstMatchMatches(rules: seq<Rule>, f: Facts)
    ensures FirstMatch(rules, f).Some? ==> FirstMatch(rules, f).value in rules && Matches(FirstMatch(rules, f).value, f)
  {
    if rules != [] && !Matches(rules[0], f) {
      FirstMatchMatches(rules[1..], f);
      assert rules == [rules[0]] + rules[1..];
    }
  }

  lemma PrecedenceIsPreorder()
    ensures TotalPreorder(Precedence())
  {
  }

  ghost predicate PrecedencesDiffer(rules: seq<Rule>) {
    forall a, b | a in rules && b in rules && a.precedence == b.precedence :: a == b
  }

  lemma DistinctPrecedences(rules: seq<Rule>)
    requires Distinct(Map((r: Rule) => r.precedence, rules))
    ensures PrecedencesDiffer(rules)
  {
    var ps := Map((r: Rule) => r.precedence, rules);
    forall a, b | a in rules && b in rules && a.precedence == b.precedence ensures a == b {
      var i :| 0 <= i < |rules| && rules[i] == a;
      var j :| 0 <= j < |rules| && rules[j] == b;
      assert ps[i] == ps[j];
    }
  }

  /** A table that loads never falls through: for any facts it picks the one rule of
      least precedence, among all that were loaded, that matches them. */
  lemma LoadedTableDecides(rules: seq<Rule>, priority: PriorityModel, f: Facts)
    requires LoadPolicy(rules, priority).Table?
    ensures var r := FirstMatch(LoadPolicy(rules, priority).table.rules, f);
            && r.Some? && r.value in rules && Matches(r.value, f)
            && forall other | other in rules && Matches(other, f) && other != r.value :: r.value.precedence < other.precedence
  {
    var sorted := Sort(rules, Precedence());
    SortPermutes(rules, Precedence());
    PrecedenceIsPreorder();
    SortSorts(rules, Precedence());
    DistinctPrecedences(rules);
    var backstop :| backstop in rules && IsBackstop(backstop);
    assert backstop in sorted && Matches(backstop, f);
    var k := FirstMatchIsFirst(sorted, f);
    forall other | other in rules && Matches(other, f) && other != sorted[k] ensures sorted[k].precedence < other.precedence {
      assert other in sorted;
      var j :| 0 <= j < |sorted| && sorted[j] == other;
      assert k < j && Precedence()(sorted[k], sorted[j]);
    }
  }

  /** The order of the file does not matter, to the table it gives or to why it is
      rejected. */
  lemma FileOrderIsIgnored(rules: seq<Rule>, others: seq<Rule>, priority: PriorityModel)
    requires multiset(rules) == multiset(others)
    ensures LoadPolicy(rules, priority) == LoadPolicy(others, priority)
  {
    assert |rules| == |multiset(rules)| == |others|;
    assert forall r :: r in rules <==> r in multiset(others);
    DistinctKeysPermute(rules, others, (r: Rule) => r.id);
    DistinctKeysPermute(rules, others, (r: Rule) => r.precedence);
    if LoadPolicy(rules, priority).Table? {
      PrecedenceIsPreorder();
      DistinctPrecedences(rules);
      SortDeterministic(rules, others, Precedence());
    }
  }

  // --- the whole plan's decisions -------------------------------------------------------

  /** Highest priority first, then by URN. */
  function DecisionOrder(): (Decision, Decision) -> bool {
    By((d: Decision) => (d.priority, d.urn), Then((a: nat, b: nat) => a >= b, UrnOrder()))
  }

  /** One decision for each descendant, or the first error. */
  function DecideEach(table: PolicyTable, lost: set<Purpose>, hasReplacement: bool, ds: seq<Descendant>): Option<seq<Decision>> {
    if ds == [] then Some([])
    else
      var n := |ds| - 1;
      match (DecideEach(table, lost, hasReplacement, ds[..n]), Evaluate(table, lost, hasReplacement, ds[n]))
      case (Some(before), Decided(d)) => Some(before + [d])
      case _ => None
  }

  function EvaluateAll(table: PolicyTable, lost: set<Purpose>, hasReplacement: bool, ds: seq<Descendant>): Option<seq<Decision>> {
    var decided := DecideEach(table, lost, hasReplacement, ds);
    if decided.None? then None else Some(Sort(decided.value, DecisionOrder()))
  }

  lemma {:induction false} DecisionMembers(table: PolicyTable, lost: set<Purpose>, hasReplacement: bool, ds: seq<Descendant>, x: Decision)
    requires DecideEach(table, lost, hasReplacement, ds).Some?
    ensures x in DecideEach(table, lost, hasReplacement, ds).value <==>
              exists d | d in ds :: Evaluate(table, lost, hasReplacement, d) == Decided(x)
  {
    if ds != [] {
      var n := |ds| - 1;
      DecisionMembers(table, lost, hasReplacement, ds[..n], x);
      assert ds == ds[..n] + [ds[n]];
    }
  }

  lemma EvaluatedMembers(table: PolicyTable, lost: set<Purpose>, hasReplacement: bool, ds: seq<Descendant>, x: Decision)
    requires EvaluateAll(table, lost, hasReplacement, ds).Some?
    ensures x in EvaluateAll(table, lost, hasReplacement, ds).value <==>
              exists d | d in ds :: Evaluate(table, lost, hasReplacement, d) == Decided(x)
  {
    DecisionMembers(table, lost, hasReplacement, ds, x);
    SortPermutes(DecideEach(table, lost, hasReplacement, ds).value, DecisionOrder());
  }

  lemma {:induction false} EachIsDecided(table: PolicyTable, lost: set<Purpose>, hasReplacement: bool, ds: seq<Descendant>)
    requires DecideEach(table, lost, hasReplacement, ds).Some?
    ensures forall d | d in ds :: Evaluate(table, lost, hasReplacement, d).Decided?
  {
    if ds != [] {
      var n := |ds| - 1;
      EachIsDecided(table, lost, hasReplacement, ds[..n]);
      assert ds == ds[..n] + [ds[n]];
    }
  }

  // --- the shipped table ------------------------------------------------------------------

  const NONE: seq<string> := []

  function When(classes: seq<ArtifactClass>): Conditions { ALWAYS.(classes := Some(classes)) }

  function Replaceable(classes: seq<ArtifactClass>): Conditions {
    When(classes).(hasReplacement := Some(true), rebuildable := Some(true))
  }

  /** policy/rules.yaml, in its own order; descriptions and evidence texts left out. */
  function ShippedRules(): (rules: seq<Rule>)
    ensures |rules| == 17
  {
    EvidenceRules() + ContainmentRules() + [Rule("LCB-R090", "", 90, ALWAYS, [Escalate], NONE, true)]
  }

  function EvidenceRules(): (rules: seq<Rule>)
    ensures |rules| == 5
  {
    [ Rule("LCB-R002", "", 10, ALWAYS.(hasPaths := Some(false)), [Escalate], NONE, true),
      Rule("LCB-R001", "", 11, ALWAYS.(lineageComplete := Some(false)), [Escalate], NONE, true),
      Rule("LCB-R003", "", 12, When([UnknownClass]), [Escalate], NONE, true),
      Rule("LCB-R004", "", 13, ALWAYS.(contextComplete := Some(false)), [Escalate], NONE, true),
      Rule("LCB-R010", "", 20, ALWAYS.(affected := Some(false)), [NoAction], NONE, false) ]
  }

  function ContainmentRules(): (rules: seq<Rule>)
    ensures |rules| == 11
  {
    [ Rule("LCB-R020", "", 30, Replaceable([DatasetClass, TransformationClass]), [Rebuild], NONE, true),
      Rule("LCB-R021", "", 31, When([DatasetClass, TransformationClass]), [Purge], NONE, true),
      Rule("LCB-R022", "", 32, Replaceable([FeatureClass]), [Rebuild], NONE, true),
      Rule("LCB-R023", "", 33, When([FeatureClass]), [Purge], NONE, true),
      Rule("LCB-R030", "", 40, Replaceable([ModelClass, TrainingSnapshotClass]), [Retrain, Replace], NONE, true),
      Rule("LCB-R031", "", 41, When([ModelClass, TrainingSnapshotClass]), [Freeze, Quarantine], NONE, true),
      Rule("LCB-R040", "", 50, Replaceable([VectorIndexClass]), [Purge, Rebuild], NONE, true),
      Rule("LCB-R041", "", 51, When([VectorIndexClass]), [Purge], NONE, true),
      Rule("LCB-R042", "", 52, When([CacheClass]), [Purge], NONE, true),
      Rule("LCB-R050", "", 60, When([ApiClass, DeploymentClass]), [Freeze], NONE, true),
      Rule("LCB-R051", "", 61, When([ExportClass]), [Quarantine], NONE, true) ]
  }

  predicate AllClearFacts(f: Facts) {
    f.hasPaths && f.lineageComplete && f.contextComplete && !f.affected && !f.artifactClass.UnknownClass?
  }

  /** A table that says "no action" only on a clear, fully evidenced descendant. */
  ghost predicate IsCautious(rules: seq<Rule>) {
    forall f | FirstMatch(rules, f).Some? && NoAction in FirstMatch(rules, f).value.actions :: AllClearFacts(f)
  }

  /** What decides each of the first rules. */
  ghost predicate DecideEvidence(rules: seq<Rule>, f: Facts) {
    && |rules| == 5
    && (Matches(rules[0], f) <==> !f.hasPaths) && (Matches(rules[1], f) <==> !f.lineageComplete)
    && (Matches(rules[2], f) <==> f.artifactClass.UnknownClass?) && (Matches(rules[3], f) <==> !f.contextComplete)
    && (Matches(rules[4], f) <==> !f.affected) && rules[4].actions == [NoAction]
    && forall k | 0 <= k < 4 :: rules[k].actions == [Escalate]
  }

  /** The rules after them neither escalate nor stand by, and cover every known class. */
  ghost predicate DecideContainment(rules: seq<Rule>, f: Facts) {
    && (forall k | 0 <= k < |rules| :: NoAction !in rules[k].actions && Escalate !in rules[k].actions)
    && (f.artifactClass.UnknownClass? || exists k | 0 <= k < |rules| :: Matches(rules[k], f))
  }

  lemma {:induction false} FirstMatchConcat(first: seq<Rule>, second: seq<Rule>, f: Facts)
    ensures FirstMatch(first + second, f) ==
              if FirstMatch(first, f).Some? then FirstMatch(first, f) else FirstMatch(second, f)
    decreases |first|
  {
    if first == [] {
      assert first + second == second;
    } else {
      FirstMatchConcat(first[1..], second, f);
      assert (first + second)[1..] == first[1..] + second;
    }
  }

  lemma EvidenceRulesDecide(f: Facts)
    ensures DecideEvidence(EvidenceRules(), f)
  {
  }

  lemma ContainmentRulesDecide(f: Facts)
    ensures DecideContainment(ContainmentRules(), f)
  {
    var rules := ContainmentRules();
    match f.artifactClass
    case DatasetClass => assert Matches(rules[1], f);
    case TransformationClass => assert Matches(rules[1], f);
    case FeatureClass => assert Matches(rules[3], f);
    case ModelClass => assert Matches(rules[5], f);
    case TrainingSnapshotClass => assert Matches(rules[5], f);
    case VectorIndexClass => assert Matches(rules[7], f);
    case CacheClass => assert Matches(rules[8], f);
    case ApiClass => assert Matches(rules[9], f);
    case DeploymentClass => assert Matches(rules[9], f);
    case ExportClass => assert Matches(rules[10], f);
    case UnknownClass =>
  }

  lemma EvidenceOutcome(rules: seq<Rule>, f: Facts)
    requires DecideEvidence(rules, f)
    ensures var r := FirstMatch(rules, f);
            && (r.None? <==> f.hasPaths && f.lineageComplete && f.contextComplete && f.affected && !f.artifactClass.UnknownClass?)
            && (r.Some? ==> r.value.actions == if AllClearFacts(f) then [NoAction] else [Escalate])
  {
    FirstMatchMatches(rules, f);
    if FirstMatch(rules, f).None? {
      NoMatch(rules, f);
    } else {
      var k := FirstMatchIsFirst(rules, f);
    }
  }

  lemma {:induction false} NoMatch(rules: seq<Rule>, f: Facts)
    requires FirstMatch(rules, f).None?
    ensures forall r | r in rules :: !Matches(r, f)
  {
    if rules != [] {
      NoMatch(rules[1..], f);
      assert rules == [rules[0]] + rules[1..];
    }
  }

  lemma ContainmentOutcome(rules: seq<Rule>, f: Facts)
    requires DecideContainment(rules, f)
    ensures FirstMatch(rules, f).None? ==> f.artifactClass.UnknownClass?
    ensures FirstMatch(rules, f).Some? ==>
              NoAction !in FirstMatch(rules, f).value.actions && Escalate !in FirstMatch(rules, f).value.actions
  {
    FirstMatchMatches(rules, f);
    if FirstMatch(rules, f).None? { NoMatch(rules, f); }
  }

  /** The shipped table says "no action" exactly on a clear, fully evidenced
      descendant, and escalates exactly when it cannot tell. */
  lemma ShippedRulesAreExact(f: Facts)
    ensures var r := FirstMatch(ShippedRules(), f);
            && r.Some?
            && (NoAction in r.value.actions <==> AllClearFacts(f))
            && (Escalate in r.value.actions <==>
                  !f.hasPaths || !f.lineageComplete || !f.contextComplete || f.artifactClass.UnknownClass?)
  {
    EvidenceRulesDecide(f);
    ContainmentRulesDecide(f);
    EvidenceOutcome(EvidenceRules(), f);
    ContainmentOutcome(ContainmentRules(), f);
    FirstMatchConcat(EvidenceRules(), ContainmentRules(), f);
    FirstMatchConcat(EvidenceRules() + ContainmentRules(), [Rule("LCB-R090", "", 90, ALWAYS, [Escalate], NONE, true)], f);
  }

  lemma ShippedRulesAreCautious()
    ensures IsCautious(ShippedRules())
  {
    forall f | FirstMatch(ShippedRules(), f).Some? && NoAction in FirstMatch(ShippedRules(), f).value.actions ensures AllClearFacts(f) {
      ShippedRulesAreExact(f);
    }
  }

  /** A file already in order of precedence loads as it is. */
  lemma OrderedRulesLoad(rules: seq<Rule>, priority: PriorityModel)
    requires forall i, j | 0 <= i < j < |rules| :: rules[i].precedence < rules[j].precedence
    requires Distinct(Map((r: Rule) => r.id, rules)) && exists r | r in rules :: IsBackstop(r)
    ensures LoadPolicy(rules, priority) == Table(PolicyTable(rules, priority))
  {
    DistinctPrecedences(rules);
    PrecedenceIsPreorder();
    SortPermutes(rules, Precedence());
    SortSorts(rules, Precedence());
    SortedUnique(Sort(rules, Precedence()), rules, Precedence());
  }

  lemma ShippedRulesLoad(priority: PriorityModel)
    ensures LoadPolicy(ShippedRules(), priority) == Table(PolicyTable(ShippedRules(), priority))
  {
    var rules := ShippedRules();
    ShippedPrecedences(rules);
    ShippedIds(Map((r: Rule) => r.id, rules));
    ShippedBackstop(rules);
    OrderedRulesLoad(rules, priority);
  }

  lemma ShippedBackstop(rules: seq<Rule>)
    requires rules == ShippedRules()
    ensures exists r | r in rules :: IsBackstop(r)
  {
    assert IsBackstop(rules[16]) && rules[16] in rules;
  }

  lemma ShippedPrecedences(rules: seq<Rule>)
    requires rules == ShippedRules()
    ensures forall i, j | 0 <= i < j < |rules| :: rules[i].precedence < rules[j].precedence
  {
  }

  lemma ShippedIds(ids: seq<string>)
    requires ids == Map((r: Rule) => r.id, ShippedRules())
    ensures Distinct(ids)
  {
    assert forall i | 0 <= i < 17 :: |ids[i]| == 8;
    forall i, j | 0 <= i < j < |ids| ensures ids[i] != ids[j] {
      assert ids[i][5..] != ids[j][5..] by {
        assert ids[i][5] != ids[j][5] || ids[i][6] != ids[j][6] || ids[i][7] != ids[j][7];
      }
    }
  }

  // --- what decides, read off the descendant ----------------------------------------------

  ghost predicate IsInScope(lost: set<Purpose>, d: Descendant) {
    lost != {} && (d.contaminated || exists p :: p in lost && p in d.purposes)
  }

  ghost predicate HasUnbrokenPaths(d: Descendant) {
    |d.paths| > 0 && forall i | 0 <= i < |d.paths| :: d.paths[i].complete
  }

  /** Every condition the rule sets holds of the descendant. */
  ghost predicate AppliesTo(r: Rule, lost: set<Purpose>, hasReplacement: bool, d: Descendant) {
    && (r.when.lineageComplete == Some(true) ==> HasUnbrokenPaths(d))
    && (r.when.lineageComplete == Some(false) ==> !HasUnbrokenPaths(d))
    && (r.when.hasPaths == Some(true) ==> |d.paths| > 0)
    && (r.when.hasPaths == Some(false) ==> |d.paths| == 0)
    && (r.when.affected == Some(true) ==> IsInScope(lost, d))
    && (r.when.affected == Some(false) ==> !IsInScope(lost, d))
    && (r.when.hasReplacement == Some(true) ==> hasReplacement)
    && (r.when.hasReplacement == Some(false) ==> !hasReplacement)
    && (r.when.rebuildable == Some(true) ==> d.rebuildable)
    && (r.when.rebuildable == Some(false) ==> !d.rebuildable)
    && (r.when.contextComplete == Some(true) ==> |d.missingEvidence| == 0)
    && (r.when.contextComplete == Some(false) ==> |d.missingEvidence| > 0)
    && (forall cs | r.when.classes == Some(cs) :: exists i | 0 <= i < |cs| :: cs[i] == d.artifactClass)
  }

  lemma FactsAreTheDescendants(lost: set<Purpose>, hasReplacement: bool, d: Descendant)
    ensures var f := FactsOf(lost, hasReplacement, d);
            && (f.lineageComplete <==> HasUnbrokenPaths(d)) && (f.hasPaths <==> |d.paths| > 0)
            && (f.affected <==> IsInScope(lost, d)) && f.hasReplacement == hasReplacement && f.rebuildable == d.rebuildable
            && (f.contextComplete <==> |d.missingEvidence| == 0) && f.artifactClass == d.artifactClass
  {
    if p :| p in lost && p in d.purposes { assert p in d.purposes * lost; }
    if d.purposes * lost != {} {
      var p :| p in d.purposes * lost;
      assert p in lost && p in d.purposes;
    }
    if HasUnbrokenPaths(d) {
      forall p | p in d.paths ensures p.complete {
        var i :| 0 <= i < |d.paths| && d.paths[i] == p;
      }
    }
  }

  lemma MatchesExactly(r: Rule, lost: set<Purpose>, hasReplacement: bool, d: Descendant)
    ensures Matches(r, FactsOf(lost, hasReplacement, d)) <==> AppliesTo(r, lost, hasReplacement, d)
  {
    FactsAreTheDescendants(lost, hasReplacement, d);
  }

  /** Weights add up to at most the cap, absent ones counting nothing. */
  function PriorityUnder(m: PriorityModel, d: Descendant, escalated: bool): int {
    var e := if d.exposure in m.exposure then m.exposure[d.exposure] else 0;
    var c := if d.criticality in m.criticality then m.criticality[d.criticality] else 0;
    var total := if escalated then e + c + m.escalationBonus else e + c;
    if m.cap < total then m.cap else total
  }

  /** The decision a rule gives. */
  ghost predicate DecidesBy(x: Decision, r: Rule, m: PriorityModel, d: Descendant) {
    && x.urn == d.urn && x.artifactClass == d.artifactClass && x.paths == d.paths
    && x.actions == r.actions && x.ruleIds == [r.id] && x.requiresApproval == r.requiresApproval
    && x.missingEvidence == r.missingEvidence + d.missingEvidence
    && x.rationale == (if |r.description| == 0 then r.id else r.description)
    && x.priority == PriorityUnder(m, d, Escalate in r.actions)
  }

  /** Any table that loads decides every descendant by the rule of least precedence all
      of whose conditions hold of it, and by no rule one of whose conditions does not;
      only a priority out of range is an error. */
  lemma TableDecides(rules: seq<Rule>, priority: PriorityModel, lost: set<Purpose>, hasReplacement: bool, d: Descendant)
    returns (r: Rule)
    requires LoadPolicy(rules, priority).Table?
    ensures r in rules && AppliesTo(r, lost, hasReplacement, d)
    ensures forall other | other in rules && other.precedence < r.precedence :: !AppliesTo(other, lost, hasReplacement, d)
    ensures var result := Evaluate(LoadPolicy(rules, priority).table, lost, hasReplacement, d);
            if 0 <= PriorityUnder(priority, d, Escalate in r.actions) <= 100
            then result.Decided? && DecidesBy(result.decision, r, priority, d)
            else result.PriorityOutOfRange?
  {
    var f := FactsOf(lost, hasReplacement, d);
    LoadedTableDecides(rules, priority, f);
    r := FirstMatch(LoadPolicy(rules, priority).table.rules, f).value;
    MatchesExactly(r, lost, hasReplacement, d);
    forall other | other in rules && other.precedence < r.precedence ensures !AppliesTo(other, lost, hasReplacement, d) {
      MatchesExactly(other, lost, hasReplacement, d);
    }
  }

  /** A table loads exactly if it has rules, no identifier or precedence twice, and one
      that escalates unconditionally; it holds those rules, by precedence. */
  lemma TableLoads(rules: seq<Rule>, priority: PriorityModel)
    ensures LoadPolicy(rules, priority).Table? <==>
              && |rules| > 0
              && (forall i, j | 0 <= i < j < |rules| :: rules[i].id != rules[j].id && rules[i].precedence != rules[j].precedence)
              && exists i | 0 <= i < |rules| :: rules[i].when == Conditions(None, None, None, None, None, None, None) && Escalate in rules[i].actions
    ensures LoadPolicy(rules, priority).Table? ==>
              var table := LoadPolicy(rules, priority).table;
              && table.priority == priority && multiset(table.rules) == multiset(rules)
              && forall i, j | 0 <= i < j < |table.rules| :: table.rules[i].precedence < table.rules[j].precedence
  {
    var ids, ps := Map((r: Rule) => r.id, rules), Map((r: Rule) => r.precedence, rules);
    assert Distinct(ids) <==> forall i, j | 0 <= i < j < |rules| :: rules[i].id != rules[j].id;
    assert Distinct(ps) <==> forall i, j | 0 <= i < j < |rules| :: rules[i].precedence != rules[j].precedence;
    if i :| 0 <= i < |rules| && IsBackstop(rules[i]) { assert rules[i] in rules; }
    if LoadPolicy(rules, priority).Table? { LoadedOrder(rules); }
  }

  /** Why a table is rejected: the first of these that is so. */
  lemma RejectionsAreExplained(rules: seq<Rule>, priority: PriorityModel)
    requires LoadPolicy(rules, priority).Rejected?
    ensures LoadPolicy(rules, priority).error ==
              if |rules| == 0 then NoRules
              else if exists i, j | 0 <= i < j < |rules| :: rules[i].id == rules[j].id then DuplicateIds
              else if exists i, j | 0 <= i < j < |rules| :: rules[i].precedence == rules[j].precedence then DuplicatePrecedences
              else NoBackstop
  {
    var ids, ps := Map((r: Rule) => r.id, rules), Map((r: Rule) => r.precedence, rules);
    assert Distinct(ids) <==> forall i, j | 0 <= i < j < |rules| :: rules[i].id != rules[j].id;
    assert Distinct(ps) <==> forall i, j | 0 <= i < j < |rules| :: rules[i].precedence != rules[j].precedence;
  }

  lemma LoadedOrder(rules: seq<Rule>)
    requires Distinct(Map((r: Rule) => r.precedence, rules))
    ensures multiset(Sort(rules, Precedence())) == multiset(rules)
    ensures forall i, j | 0 <= i < j < |rules| :: Sort(rules, Precedence())[i].precedence < Sort(rules, Precedence())[j].precedence
    ensures |Sort(rules, Precedence())| == |rules|
  {
    var sorted := Sort(rules, Precedence());
    PrecedenceIsPreorder();
    SortPermutes(rules, Precedence());
    SortSorts(rules, Precedence());
    DistinctKeysPermute(rules, sorted, (r: Rule) => r.precedence);
    var ps := Map((r: Rule) => r.precedence, sorted);
    forall i, j | 0 <= i < j < |rules| ensures sorted[i].precedence < sorted[j].precedence {
      assert Precedence()(sorted[i], sorted[j]);
      assert ps[i] != ps[j];
    }
  }

  // --- the shipped table, descendant by descendant ------------------------------------------

  /** policy/rules.yaml, its priority section. */
  const SHIPPED_PRIORITY := PriorityModel(
    map[Public := 60, Internal := 35, Offline := 10],
    map[High := 30, Medium := 15, Low := 5], 10, 100)

  /** What is done to an affected artifact of a class, replaced or not. */
  function ContainmentVerdict(c: ArtifactClass, replace: bool): (string, seq<Action>) {
    match c
    case DatasetClass => if replace then ("LCB-R020", [Rebuild]) else ("LCB-R021", [Purge])
    case TransformationClass => if replace then ("LCB-R020", [Rebuild]) else ("LCB-R021", [Purge])
    case FeatureClass => if replace then ("LCB-R022", [Rebuild]) else ("LCB-R023", [Purge])
    case ModelClass => if replace then ("LCB-R030", [Retrain, Replace]) else ("LCB-R031", [Freeze, Quarantine])
    case TrainingSnapshotClass => if replace then ("LCB-R030", [Retrain, Replace]) else ("LCB-R031", [Freeze, Quarantine])
    case VectorIndexClass => if replace then ("LCB-R040", [Purge, Rebuild]) else ("LCB-R041", [Purge])
    case CacheClass => ("LCB-R042", [Purge])
    case ApiClass => ("LCB-R050", [Freeze])
    case DeploymentClass => ("LCB-R050", [Freeze])
    case ExportClass => ("LCB-R051", [Quarantine])
    case UnknownClass => ("LCB-R003", [Escalate])
  }

  /** The rule that decides and what it does. */
  ghost function ShippedVerdict(lost: set<Purpose>, hasReplacement: bool, d: Descendant): (string, seq<Action>) {
    if |d.paths| == 0 then ("LCB-R002", [Escalate])
    else if exists i | 0 <= i < |d.paths| :: !d.paths[i].complete then ("LCB-R001", [Escalate])
    else if d.artifactClass.UnknownClass? then ("LCB-R003", [Escalate])
    else if |d.missingEvidence| > 0 then ("LCB-R004", [Escalate])
    else if !IsInScope(lost, d) then ("LCB-R010", [NoAction])
    else
      ContainmentVerdict(d.artifactClass, hasReplacement && d.rebuildable)
  }

  lemma ShippedPrioritiesFit(d: Descendant, escalated: bool)
    ensures PriorityUnder(SHIPPED_PRIORITY, d, escalated) ==
              (match d.exposure case Public => 60 case Internal => 35 case Offline => 10)
              + (match d.criticality case High => 30 case Medium => 15 case Low => 5)
              + (if escalated then 10 else 0)
    ensures 15 <= PriorityUnder(SHIPPED_PRIORITY, d, escalated) <= 100
  {
  }

  lemma {:induction false} FirstMatchIs(rules: seq<Rule>, f: Facts, k: nat)
    requires k < |rules| && Matches(rules[k], f) && forall j | 0 <= j < k :: !Matches(rules[j], f)
    ensures FirstMatch(rules, f) == Some(rules[k])
    decreases k
  {
    if k > 0 {
      assert !Matches(rules[0], f);
      FirstMatchIs(rules[1..], f, k - 1);
    }
  }

  /** Which containment rule a class comes to. */
  function ContainmentRule(c: ArtifactClass, replace: bool): nat {
    match c
    case DatasetClass => if replace then 0 else 1
    case TransformationClass => if replace then 0 else 1
    case FeatureClass => if replace then 2 else 3
    case ModelClass => if replace then 4 else 5
    case TrainingSnapshotClass => if replace then 4 else 5
    case VectorIndexClass => if replace then 6 else 7
    case CacheClass => 8
    case ApiClass => 9
    case DeploymentClass => 9
    case ExportClass => 10
    case UnknownClass => 0
  }

  lemma StoredDataRules(f: Facts)
    ensures var rules, replace := ContainmentRules(), f.hasReplacement && f.rebuildable;
            && (Matches(rules[0], f) <==> f.artifactClass in {DatasetClass, TransformationClass} && replace)
            && (Matches(rules[1], f) <==> f.artifactClass in {DatasetClass, TransformationClass})
            && (Matches(rules[2], f) <==> f.artifactClass == FeatureClass && replace)
            && (Matches(rules[3], f) <==> f.artifactClass == FeatureClass)
            && (Matches(rules[4], f) <==> f.artifactClass in {ModelClass, TrainingSnapshotClass} && replace)
            && (Matches(rules[5], f) <==> f.artifactClass in {ModelClass, TrainingSnapshotClass})
  {
  }

  lemma SurfaceRules(f: Facts)
    ensures var rules, replace := ContainmentRules(), f.hasReplacement && f.rebuildable;
            && (Matches(rules[6], f) <==> f.artifactClass == VectorIndexClass && replace)
            && (Matches(rules[7], f) <==> f.artifactClass == VectorIndexClass)
            && (Matches(rules[8], f) <==> f.artifactClass == CacheClass)
            && (Matches(rules[9], f) <==> f.artifactClass in {ApiClass, DeploymentClass})
            && (Matches(rules[10], f) <==> f.artifactClass == ExportClass)
  {
  }

  lemma ContainmentRuleFits(f: Facts)
    requires !f.artifactClass.UnknownClass?
    ensures var k := ContainmentRule(f.artifactClass, f.hasReplacement && f.rebuildable);
            FirstMatch(ContainmentRules(), f) == Some(ContainmentRules()[k])
  {
    StoredDataRules(f);
    SurfaceRules(f);
    FirstMatchIs(ContainmentRules(), f, ContainmentRule(f.artifactClass, f.hasReplacement && f.rebuildable));
  }

  /** What the rule for a class says. */
  lemma ContainmentRuleSays(c: ArtifactClass, replace: bool)
    requires !c.UnknownClass?
    ensures var r := ContainmentRules()[ContainmentRule(c, replace)];
            && (r.id, r.actions) == ContainmentVerdict(c, replace)
            && r.missingEvidence == [] && r.requiresApproval && Escalate !in r.actions && r.actions != [NoAction]
  {
  }

  lemma EvidenceRuleFits(f: Facts)
    ensures var rules := EvidenceRules();
            && (!f.hasPaths ==> FirstMatch(rules, f) == Some(rules[0]))
            && (f.hasPaths && !f.lineageComplete ==> FirstMatch(rules, f) == Some(rules[1]))
            && (f.hasPaths && f.lineageComplete && f.artifactClass.UnknownClass? ==> FirstMatch(rules, f) == Some(rules[2]))
            && (f.hasPaths && f.lineageComplete && !f.artifactClass.UnknownClass? && !f.contextComplete ==>
                  FirstMatch(rules, f) == Some(rules[3]))
            && (AllClearFacts(f) ==> FirstMatch(rules, f) == Some(rules[4]))
  {
    var rules := EvidenceRules();
    EvidenceRulesDecide(f);
    if !f.hasPaths { FirstMatchIs(rules, f, 0); }
    else if !f.lineageComplete { FirstMatchIs(rules, f, 1); }
    else if f.artifactClass.UnknownClass? { FirstMatchIs(rules, f, 2); }
    else if !f.contextComplete { FirstMatchIs(rules, f, 3); }
    else if !f.affected { FirstMatchIs(rules, f, 4); }
  }

  lemma ShippedMatch(f: Facts)
    ensures FirstMatch(ShippedRules(), f) ==
              if FirstMatch(EvidenceRules(), f).Some? then FirstMatch(EvidenceRules(), f)
              else FirstMatch(ContainmentRules(), f)
  {
    var backstop := [Rule("LCB-R090", "", 90, ALWAYS, [Escalate], NONE, true)];
    EvidenceRulesDecide(f);
    EvidenceOutcome(EvidenceRules(), f);
    ContainmentRulesDecide(f);
    ContainmentOutcome(ContainmentRules(), f);
    FirstMatchConcat(EvidenceRules(), ContainmentRules(), f);
    FirstMatchConcat(EvidenceRules() + ContainmentRules(), backstop, f);
  }

  /** The shipped table in one place: for every descendant, which rule decides and what
      is to be done; approval is required for all but no action, and the priority is
      what exposure, criticality and escalation add up to. */
  lemma ShippedTableDecides(lost: set<Purpose>, hasReplacement: bool, d: Descendant)
    ensures var result := Evaluate(PolicyTable(ShippedRules(), SHIPPED_PRIORITY), lost, hasReplacement, d);
            var (id, actions) := ShippedVerdict(lost, hasReplacement, d);
            && result.Decided?
            && result.decision.urn == d.urn && result.decision.artifactClass == d.artifactClass
            && result.decision.paths == d.paths && result.decision.missingEvidence == d.missingEvidence
            && result.decision.ruleIds == [id] && result.decision.actions == actions
            && (result.decision.requiresApproval <==> actions != [NoAction])
            && result.decision.priority == PriorityUnder(SHIPPED_PRIORITY, d, actions == [Escalate])
  {
    var f := FactsOf(lost, hasReplacement, d);
    FactsAreTheDescendants(lost, hasReplacement, d);
    ShippedFactsDecide(f);
    assert HasUnbrokenPaths(d) || |d.paths| == 0 || exists i | 0 <= i < |d.paths| :: !d.paths[i].complete;
    ShippedPrioritiesFit(d, true);
    ShippedPrioritiesFit(d, false);
  }

  /** The same on the facts alone. */
  function VerdictOn(f: Facts): (string, seq<Action>) {
    if !f.hasPaths then ("LCB-R002", [Escalate])
    else if !f.lineageComplete then ("LCB-R001", [Escalate])
    else if f.artifactClass.UnknownClass? then ("LCB-R003", [Escalate])
    else if !f.contextComplete then ("LCB-R004", [Escalate])
    else if !f.affected then ("LCB-R010", [NoAction])
    else ContainmentVerdict(f.artifactClass, f.hasReplacement && f.rebuildable)
  }

  lemma ShippedFactsDecide(f: Facts)
    ensures var r := FirstMatch(ShippedRules(), f);
            && r.Some? && (r.value.id, r.value.actions) == VerdictOn(f) && r.value.missingEvidence == []
            && (r.value.requiresApproval <==> r.value.actions != [NoAction])
            && (Escalate in r.value.actions <==> r.value.actions == [Escalate])
  {
    ShippedMatch(f);
    EvidenceRuleFits(f);
    EvidenceRulesDecide(f);
    EvidenceOutcome(EvidenceRules(), f);
    if FirstMatch(EvidenceRules(), f).None? {
      ContainmentRuleFits(f);
      ContainmentRuleSays(f.artifactClass, f.hasReplacement && f.rebuildable);
    }
  }

  // --- the order of the decisions -------------------------------------------------------------

  lemma DecisionOrderIsPreorder()
    ensures TotalPreorder(DecisionOrder())
  {
    UrnOrderIsTotal();
    var down := (a: nat, b: nat) => a >= b;
    assert TotalOrder(down);
    ThenIsTotalOrder(down, UrnOrder());
    ByIsPreorder((d: Decision) => (d.priority, d.urn), Then(down, UrnOrder()));
  }

  lemma {:induction false} EachIsCounted(table: PolicyTable, lost: set<Purpose>, hasReplacement: bool, ds: seq<Descendant>)
    ensures DecideEach(table, lost, hasReplacement, ds).Some? <==>
              forall i | 0 <= i < |ds| :: Evaluate(table, lost, hasReplacement, ds[i]).Decided?
    ensures DecideEach(table, lost, hasReplacement, ds).Some? ==> |DecideEach(table, lost, hasReplacement, ds).value| == |ds|
  {
    if ds != [] {
      var n := |ds| - 1;
      EachIsCounted(table, lost, hasReplacement, ds[..n]);
      assert forall i | 0 <= i < n :: ds[..n][i] == ds[i];
    }
  }

  /** A plan is made exactly if every descendant can be decided; it has one decision for
      each, the most urgent first and equally urgent ones by URN. */
  lemma PlanIsInOrder(table: PolicyTable, lost: set<Purpose>, hasReplacement: bool, ds: seq<Descendant>)
    ensures EvaluateAll(table, lost, hasReplacement, ds).Some? <==>
              forall i | 0 <= i < |ds| :: Evaluate(table, lost, hasReplacement, ds[i]).Decided?
    ensures EvaluateAll(table, lost, hasReplacement, ds).Some? ==>
              var xs := EvaluateAll(table, lost, hasReplacement, ds).value;
              && |xs| == |ds|
              && forall i, j | 0 <= i < j < |xs| ::
                   xs[i].priority > xs[j].priority || (xs[i].priority == xs[j].priority && UrnOrder()(xs[i].urn, xs[j].urn))
  {
    EachIsCounted(table, lost, hasReplacement, ds);
    var decided := DecideEach(table, lost, hasReplacement, ds);
    if decided.Some? {
      DecisionOrderIsPreorder();
      SortSorts(decided.value, DecisionOrder());
      SortPermutes(decided.value, DecisionOrder());
      var xs := Sort(decided.value, DecisionOrder());
      forall i, j | 0 <= i < j < |xs|
        ensures xs[i].priority > xs[j].priority || (xs[i].priority == xs[j].priority && UrnOrder()(xs[i].urn, xs[j].urn))
      {
        assert DecisionOrder()(xs[i], xs[j]);
      }
    }
  }
}
