/** The impact plan of app/workflow.py: its hash, its steps and its scope. */
module Plan {
  import opened Ordering
  import opened Rights

  datatype LineagePath = LineagePath(hops: seq<Urn>, complete: bool)

  datatype Decision = Decision(
    urn: Urn,
    artifactClass: ArtifactClass,
    actions: seq<Action>,
    ruleIds: seq<string>,
    rationale: string,
    paths: seq<LineagePath>,
    priority: nat,
    missingEvidence: seq<string>,
    requiresApproval: bool)
  {
    predicate IsEscalation() { Escalate in actions }

    predicate IsDestructive() { exists a | a in actions :: Rights.IsDestructive(a) }
  }

  datatype Validation = Validation(
    urn: Urn,
    present: bool,
    inNamespace: bool,
    hasProjectTag: bool,
    inProjectDomain: bool,
    issues: seq<string>)
  {
    predicate IsUsable() { present && inNamespace && hasProjectTag }
  }

  datatype Event = Event(id: string, version: nat, contentHash: string)

  datatype ImpactPlan = ImpactPlan(
    event: Event,
    decisions: seq<Decision>,
    validations: seq<Validation>,
    generatedAt: int,
    policyHash: string,
    replacementHash: string,
    contextHash: string)

  // --- the hash -------------------------------------------------------------

  datatype DecisionView = DecisionView(
    urn: Urn,
    artifactClass: ArtifactClass,
    actions: seq<Action>,
    ruleIds: seq<string>,
    priority: nat,
    requiresApproval: bool,
    missingEvidence: seq<string>,
    paths: seq<(seq<Urn>, bool)>)

  /** What the hash is taken over.  The digest itself is an injective function of
      this value, so the value stands for the digest. */
  datatype PlanHash = PlanHash(
    event: string,
    policy: string,
    replacement: string,
    context: string,
    decisions: seq<DecisionView>,
    validations: seq<(Urn, (bool, seq<string>))>)

  function PathKey(p: LineagePath): (seq<Urn>, bool) { (p.hops, p.complete) }

  function PathOrder(): ((seq<Urn>, bool), (seq<Urn>, bool)) -> bool {
    Then(Lex(UrnOrder()), BoolOrder())
  }

  function ValidationOrder(): ((Urn, (bool, seq<string>)), (Urn, (bool, seq<string>))) -> bool {
    Then(UrnOrder(), Then(BoolOrder(), Lex(StringOrder())))
  }

  function SortedStrings(xs: seq<string>): seq<string> { Sort(xs, StringOrder()) }

  function PathKeys(paths: seq<LineagePath>): seq<(seq<Urn>, bool)> {
    Map((p: LineagePath) => PathKey(p), paths)
  }

  function View(d: Decision): DecisionView {
    DecisionView(d.urn, d.artifactClass, d.actions, d.ruleIds, d.priority, d.requiresApproval,
                 SortedStrings(d.missingEvidence), Sort(PathKeys(d.paths), PathOrder()))
  }

  function ValidationKey(v: Validation): (Urn, (bool, seq<string>)) {
    (v.urn, (v.IsUsable(), SortedStrings(v.issues)))
  }

  function ValidationKeys(vs: seq<Validation>): seq<(Urn, (bool, seq<string>))> {
    Map((v: Validation) => ValidationKey(v), vs)
  }

  function HashOf(p: ImpactPlan): PlanHash {
    PlanHash(p.event.contentHash, p.policyHash, p.replacementHash, p.contextHash,
             Map((d: Decision) => View(d), p.decisions),
             Sort(ValidationKeys(p.validations), ValidationOrder()))
  }

  /** Two decisions that differ at most in rationale and in the order of their
      paths and missing-evidence entries. */
  ghost predicate SameDecision(d: Decision, e: Decision) {
    && d.urn == e.urn && d.artifactClass == e.artifactClass && d.actions == e.actions
    && d.ruleIds == e.ruleIds && d.priority == e.priority && d.requiresApproval == e.requiresApproval
    && multiset(d.missingEvidence) == multiset(e.missingEvidence)
    && multiset(PathKeys(d.paths)) == multiset(PathKeys(e.paths))
  }

  /** Plans that differ at most in the generation time, in rationales, in flags of a
      validation that leave it as usable as it was, and in the order of entries the
      plan treats as unordered. */
  ghost predicate SamePlan(p: ImpactPlan, q: ImpactPlan) {
    && p.event.contentHash == q.event.contentHash && p.policyHash == q.policyHash
    && p.replacementHash == q.replacementHash && p.contextHash == q.contextHash
    && |p.decisions| == |q.decisions|
    && (forall i | 0 <= i < |p.decisions| :: SameDecision(p.decisions[i], q.decisions[i]))
    && multiset(ValidationKeys(p.validations)) == multiset(ValidationKeys(q.validations))
  }

  lemma PlanOrders()
    ensures TotalOrder(PathOrder()) && TotalOrder(ValidationOrder())
  {
    BasicOrders();
    UrnOrderIsTotal();
    ThenIsTotalOrder(Lex(UrnOrder()), BoolOrder());
    ThenIsTotalOrder(BoolOrder(), Lex(StringOrder()));
    ThenIsTotalOrder(UrnOrder(), Then(BoolOrder(), Lex(StringOrder())));
  }

  lemma SameView(d: Decision, e: Decision)
    ensures View(d) == View(e) <==> SameDecision(d, e)
  {
    BasicOrders();
    PlanOrders();
    SortCanonical(d.missingEvidence, e.missingEvidence, StringOrder());
    SortCanonical(PathKeys(d.paths), PathKeys(e.paths), PathOrder());
  }

  /** The hash identifies a plan up to exactly the differences it is meant to
      ignore: generation time, rationale, the single flags of a validation, and the order
      of unordered entries. */
  lemma HashIdentifiesPlan(p: ImpactPlan, q: ImpactPlan)
    ensures HashOf(p) == HashOf(q) <==> SamePlan(p, q)
  {
    PlanOrders();
    SortCanonical(ValidationKeys(p.validations), ValidationKeys(q.validations), ValidationOrder());
    var vp, vq := HashOf(p).decisions, HashOf(q).decisions;
    if |p.decisions| == |q.decisions| {
      forall i | 0 <= i < |p.decisions|
        ensures vp[i] == vq[i] <==> SameDecision(p.decisions[i], q.decisions[i])
      {
        SameView(p.decisions[i], q.decisions[i]);
      }
      assert (forall i | 0 <= i < |vp| :: vp[i] == vq[i]) <==> vp == vq;
    }
  }

  /** Of one path the key shows its hops, in order, and whether it is complete. */
  lemma PathsAreTold(p: LineagePath, q: LineagePath)
    ensures PathKey(p) == PathKey(q) <==> p.hops == q.hops && p.complete == q.complete
  {
  }

  /** Of one validation the key shows the URN, whether it is usable and which issues it
      has, not their order and no single flag. */
  lemma IssueOrderIsIgnored(v: Validation, w: Validation)
    ensures ValidationKey(v) == ValidationKey(w) <==>
              v.urn == w.urn && v.IsUsable() == w.IsUsable() && multiset(v.issues) == multiset(w.issues)
  {
    BasicOrders();
    SortCanonical(v.issues, w.issues, StringOrder());
  }

  // --- the steps ------------------------------------------------------------

  datatype Step = Step(seqNo: nat, urn: Urn, action: Action, artifactClass: ArtifactClass)

  datatype Candidate = Candidate(stage: nat, urn: Urn, action: Action, artifactClass: ArtifactClass)

  function ActionStage(a: Action): nat {
    match a
    case Freeze => 0
    case Quarantine => 10
    case Purge => 20
    case Rebuild => 30
    case Retrain => 40
    case Replace => 50
    case NoAction => 90
    case Escalate => 90
  }

  function ClassStage(c: ArtifactClass): nat {
    match c
    case DatasetClass => 0
    case TransformationClass => 1
    case FeatureClass => 2
    case VectorIndexClass => 3
    case ModelClass => 4
    case TrainingSnapshotClass => 5
    case DeploymentClass => 5
    case ApiClass => 5
    case CacheClass => 5
    case ExportClass => 5
    case UnknownClass => 5
  }

  function ExecutionStage(a: Action, c: ArtifactClass): nat { ActionStage(a) + ClassStage(c) }

  predicate IsExecutable(a: Action) { !(IsNonExecutable(a) || !IsDestructive(a)) }

  function ActionCandidates(d: Decision, actions: seq<Action>): seq<Candidate> {
    if actions == [] then []
    else
      (if IsExecutable(actions[0])
       then [Candidate(ExecutionStage(actions[0], d.artifactClass), d.urn, actions[0], d.artifactClass)]
       else [])
      + ActionCandidates(d, actions[1..])
  }

  function Candidates(decisions: seq<Decision>): seq<Candidate> {
    if decisions == [] then []
    else ActionCandidates(decisions[0], decisions[0].actions) + Candidates(decisions[1..])
  }

  function CandidateKey(c: Candidate): (nat, ((nat, string), string)) {
    (c.stage, (UrnKey(c.urn), ActionName(c.action)))
  }

  function CandidateOrder(): (Candidate, Candidate) -> bool {
    By((c: Candidate) => CandidateKey(c),
       Then(NatOrder(), Then(Then(NatOrder(), StringOrder()), StringOrder())))
  }

  function Numbered(cs: seq<Candidate>): (steps: seq<Step>)
    ensures |steps| == |cs|
  {
    seq(|cs|, i requires 0 <= i < |cs| => Step(i, cs[i].urn, cs[i].action, cs[i].artifactClass))
  }

  function PlanSteps(p: ImpactPlan): seq<Step> {
    Numbered(Sort(Candidates(p.decisions), CandidateOrder()))
  }

  lemma CandidateOrderIsPreorder()
    ensures TotalPreorder(CandidateOrder())
  {
    BasicOrders();
    ThenIsTotalOrder(NatOrder(), StringOrder());
    ThenIsTotalOrder(Then(NatOrder(), StringOrder()), StringOrder());
    ThenIsTotalOrder(NatOrder(), Then(Then(NatOrder(), StringOrder()), StringOrder()));
    ByIsPreorder((c: Candidate) => CandidateKey(c),
                 Then(NatOrder(), Then(Then(NatOrder(), StringOrder()), StringOrder())));
  }

  lemma {:induction false} InActionCandidates(d: Decision, actions: seq<Action>, c: Candidate)
    ensures c in ActionCandidates(d, actions) <==>
            && c.action in actions && IsDestructive(c.action)
            && c == Candidate(ExecutionStage(c.action, d.artifactClass), d.urn, c.action, d.artifactClass)
  {
    if actions != [] {
      assert actions == [actions[0]] + actions[1..];
      InActionCandidates(d, actions[1..], c);
    }
  }

  ghost predicate Proposes(d: Decision, c: Candidate) {
    && c.action in d.actions && IsDestructive(c.action)
    && c == Candidate(ExecutionStage(c.action, d.artifactClass), d.urn, c.action, d.artifactClass)
  }

  lemma {:induction false} InCandidates(decisions: seq<Decision>, c: Candidate)
    ensures c in Candidates(decisions) <==> exists d | d in decisions :: Proposes(d, c)
  {
    if decisions != [] {
      assert decisions == [decisions[0]] + decisions[1..];
      InActionCandidates(decisions[0], decisions[0].actions, c);
      InCandidates(decisions[1..], c);
      if c in ActionCandidates(decisions[0], decisions[0].actions) {
        assert Proposes(decisions[0], c);
      }
    }
  }

  ghost predicate StepOfDecision(s: Step, d: Decision) {
    && s.urn == d.urn && s.artifactClass == d.artifactClass
    && s.action in d.actions && IsDestructive(s.action)
  }

  lemma StepComesFromDecision(p: ImpactPlan, i: nat)
    requires i < |PlanSteps(p)|
    ensures exists d | d in p.decisions :: StepOfDecision(PlanSteps(p)[i], d)
  {
    var cs := Candidates(p.decisions);
    SortPermutes(cs, CandidateOrder());
    var c := Sort(cs, CandidateOrder())[i];
    InCandidates(p.decisions, c);
    var d :| d in p.decisions && Proposes(d, c);
    assert StepOfDecision(PlanSteps(p)[i], d);
  }

  lemma DecisionBecomesStep(p: ImpactPlan, d: Decision, a: Action)
    requires d in p.decisions && a in d.actions && IsDestructive(a)
    ensures exists s | s in PlanSteps(p) :: StepOfDecision(s, d) && s.action == a
  {
    var cs := Candidates(p.decisions);
    var sorted := Sort(cs, CandidateOrder());
    SortPermutes(cs, CandidateOrder());
    var c := Candidate(ExecutionStage(a, d.artifactClass), d.urn, a, d.artifactClass);
    assert Proposes(d, c);
    InCandidates(p.decisions, c);
    assert c in sorted;
    var i :| 0 <= i < |sorted| && sorted[i] == c;
    assert PlanSteps(p)[i] in PlanSteps(p) && StepOfDecision(PlanSteps(p)[i], d);
  }

  function StageOf(s: Step): nat { ExecutionStage(s.action, s.artifactClass) }

  lemma StepStage(p: ImpactPlan, i: nat)
    requires i < |PlanSteps(p)| == |Sort(Candidates(p.decisions), CandidateOrder())|
    ensures Sort(Candidates(p.decisions), CandidateOrder())[i].stage == StageOf(PlanSteps(p)[i])
  {
    var cs := Candidates(p.decisions);
    SortPermutes(cs, CandidateOrder());
    var c := Sort(cs, CandidateOrder())[i];
    InCandidates(p.decisions, c);
    var d :| d in p.decisions && Proposes(d, c);
  }

  lemma StepsAreStaged(p: ImpactPlan, i: nat, j: nat)
    requires i < j < |PlanSteps(p)|
    ensures StageOf(PlanSteps(p)[i]) <= StageOf(PlanSteps(p)[j])
  {
    var sorted := Sort(Candidates(p.decisions), CandidateOrder());
    CandidateOrderIsPreorder();
    SortSorts(Candidates(p.decisions), CandidateOrder());
    assert CandidateOrder()(sorted[i], sorted[j]);
    StepStage(p, i);
    StepStage(p, j);
  }

  // --- the order of the steps, as it is documented ------------------------------

  /** Freeze before quarantine before purge before rebuild before retrain before
      replace. */
  predicate GoesFirst(a: Action, b: Action) {
    match a
    case Freeze => b in {Quarantine, Purge, Rebuild, Retrain, Replace}
    case Quarantine => b in {Purge, Rebuild, Retrain, Replace}
    case Purge => b in {Rebuild, Retrain, Replace}
    case Rebuild => b in {Retrain, Replace}
    case Retrain => b == Replace
    case _ => false
  }

  /** Upstream classes first: datasets, transformations, features, vector indexes,
      models, and then all others alike. */
  predicate IsUpstream(c: ArtifactClass, d: ArtifactClass) {
    match c
    case DatasetClass => d != DatasetClass
    case TransformationClass => d !in {DatasetClass, TransformationClass}
    case FeatureClass => d !in {DatasetClass, TransformationClass, FeatureClass}
    case VectorIndexClass => d !in {DatasetClass, TransformationClass, FeatureClass, VectorIndexClass}
    case ModelClass => d !in {DatasetClass, TransformationClass, FeatureClass, VectorIndexClass, ModelClass}
    case _ => false
  }

  lemma StagesAreTheOrder(a: Action, c: ArtifactClass, b: Action, d: ArtifactClass)
    requires IsDestructive(a) && IsDestructive(b)
    ensures ExecutionStage(a, c) < ExecutionStage(b, d) <==> GoesFirst(a, b) || (a == b && IsUpstream(c, d))
    ensures ExecutionStage(a, c) == ExecutionStage(b, d) <==> a == b && !IsUpstream(c, d) && !IsUpstream(d, c)
  {
  }

  lemma OrderedCandidates(c: Candidate, d: Candidate)
    requires CandidateOrder()(c, d)
    ensures c.stage <= d.stage
    ensures c.stage == d.stage ==> UrnOrder()(c.urn, d.urn)
  {
    BasicOrders();
    UrnOrderIsTotal();
    if c.urn == d.urn {
      assert UrnOrder()(c.urn, c.urn) || UrnOrder()(c.urn, c.urn);
    }
  }

  /** The earlier of two steps has the action that goes first; of two with the same
      action, it is further upstream; of two equally far, it has the lesser URN. */
  ghost predicate InOrder(s: Step, t: Step) {
    || GoesFirst(s.action, t.action)
    || (s.action == t.action && IsUpstream(s.artifactClass, t.artifactClass))
    || (s.action == t.action && !IsUpstream(t.artifactClass, s.artifactClass) && UrnOrder()(s.urn, t.urn))
  }

  lemma StepsAreInOrder(p: ImpactPlan, i: nat, j: nat)
    requires i < j < |PlanSteps(p)|
    ensures InOrder(PlanSteps(p)[i], PlanSteps(p)[j])
  {
    var sorted := Sort(Candidates(p.decisions), CandidateOrder());
    CandidateOrderIsPreorder();
    SortSorts(Candidates(p.decisions), CandidateOrder());
    assert CandidateOrder()(sorted[i], sorted[j]);
    OrderedCandidates(sorted[i], sorted[j]);
    StepStage(p, i);
    StepStage(p, j);
    StepComesFromDecision(p, i);
    StepComesFromDecision(p, j);
    var s, t := PlanSteps(p)[i], PlanSteps(p)[j];
    StagesAreTheOrder(s.action, s.artifactClass, t.action, t.artifactClass);
  }

  function CountDestructive(actions: seq<Action>): nat {
    if actions == [] then 0 else (if IsDestructive(actions[0]) then 1 else 0) + CountDestructive(actions[1..])
  }

  function CountProposed(decisions: seq<Decision>): nat {
    if decisions == [] then 0 else CountDestructive(decisions[0].actions) + CountProposed(decisions[1..])
  }

  lemma {:induction false} CandidatesAreCounted(d: Decision, actions: seq<Action>)
    ensures |ActionCandidates(d, actions)| == CountDestructive(actions)
  {
    if actions != [] { CandidatesAreCounted(d, actions[1..]); }
  }

  /** As many steps as destructive actions, repetitions included. */
  lemma {:induction false} AllCandidatesAreCounted(decisions: seq<Decision>)
    ensures |Candidates(decisions)| == CountProposed(decisions)
  {
    if decisions != [] {
      CandidatesAreCounted(decisions[0], decisions[0].actions);
      AllCandidatesAreCounted(decisions[1..]);
    }
  }

  lemma StepsAreCounted(p: ImpactPlan)
    ensures |PlanSteps(p)| == CountProposed(p.decisions)
  {
    SortPermutes(Candidates(p.decisions), CandidateOrder());
    AllCandidatesAreCounted(p.decisions);
  }

  /** The steps are exactly the destructive actions of the decisions, as many of
      them, numbered by position and in the documented order. */
  lemma StepsAreTheDestructiveActions(p: ImpactPlan)
    ensures forall i | 0 <= i < |PlanSteps(p)| :: PlanSteps(p)[i].seqNo == i
    ensures |PlanSteps(p)| == CountProposed(p.decisions)
    ensures forall i, j | 0 <= i < j < |PlanSteps(p)| :: InOrder(PlanSteps(p)[i], PlanSteps(p)[j])
    ensures forall s | s in PlanSteps(p) :: exists d | d in p.decisions :: StepOfDecision(s, d)
    ensures forall d, a | d in p.decisions && a in d.actions && IsDestructive(a) ::
              exists s | s in PlanSteps(p) :: StepOfDecision(s, d) && s.action == a
  {
    StepsAreCounted(p);
    forall i, j | 0 <= i < j < |PlanSteps(p)| ensures InOrder(PlanSteps(p)[i], PlanSteps(p)[j]) {
      StepsAreInOrder(p, i, j);
    }
    forall s | s in PlanSteps(p) ensures exists d | d in p.decisions :: StepOfDecision(s, d) {
      var i :| 0 <= i < |PlanSteps(p)| && PlanSteps(p)[i] == s;
      StepComesFromDecision(p, i);
    }
    forall d, a | d in p.decisions && a in d.actions && IsDestructive(a)
      ensures exists s | s in PlanSteps(p) :: StepOfDecision(s, d) && s.action == a
    {
      DecisionBecomesStep(p, d, a);
    }
  }

  lemma CandidatesFrom(decisions: seq<Decision>, i: nat, before: seq<Candidate>, candidates: seq<Candidate>)
    requires i < |decisions| && candidates == before + ActionCandidates(decisions[i], decisions[i].actions)
    ensures candidates + Candidates(decisions[i + 1..]) == before + Candidates(decisions[i..])
  {
    assert decisions[i..][1..] == decisions[i + 1..];
  }

  /** plan_steps: collect the candidates decision by decision, sort, number. */
  method BuildSteps(p: ImpactPlan) returns (steps: seq<Step>)
    ensures steps == PlanSteps(p)
  {
    var candidates: seq<Candidate> := [];
    for i := 0 to |p.decisions|
      invariant candidates + Candidates(p.decisions[i..]) == Candidates(p.decisions)
    {
      var d := p.decisions[i];
      ghost var before := candidates;
      for k := 0 to |d.actions|
        invariant candidates + ActionCandidates(d, d.actions[k..]) == before + ActionCandidates(d, d.actions)
      {
        var action := d.actions[k];
        assert d.actions[k..][1..] == d.actions[k + 1..];
        if IsNonExecutable(action) || !IsDestructive(action) {
          continue;
        }
        candidates := candidates + [Candidate(ExecutionStage(action, d.artifactClass), d.urn, action, d.artifactClass)];
      }
      assert d.actions[|d.actions|..] == [];
      CandidatesFrom(p.decisions, i, before, candidates);
    }
    assert p.decisions[|p.decisions|..] == [] && candidates == Candidates(p.decisions);
    steps := Numbered(Sort(candidates, CandidateOrder()));
  }

  // --- the scope ------------------------------------------------------------

  type Scope = map<Urn, seq<Action>>

  function DestructiveOnly(actions: seq<Action>): seq<Action> {
    Filter((a: Action) => IsDestructive(a), actions)
  }

  function AddToScope(scope: Scope, d: Decision): Scope {
    if DestructiveOnly(d.actions) == [] then scope else scope[d.urn := DestructiveOnly(d.actions)]
  }

  function ScopeOf(decisions: seq<Decision>): Scope {
    if decisions == [] then map[]
    else AddToScope(ScopeOf(decisions[..|decisions| - 1]), decisions[|decisions| - 1])
  }

  function EnforcementScope(p: ImpactPlan): Scope { ScopeOf(p.decisions) }

  predicate Covers(scope: Scope, urn: Urn, action: Action) {
    urn in scope && action in scope[urn]
  }

  method BuildScope(p: ImpactPlan) returns (scope: Scope)
    ensures scope == EnforcementScope(p)
  {
    scope := map[];
    for i := 0 to |p.decisions|
      invariant scope == ScopeOf(p.decisions[..i])
    {
      var actions := DestructiveOnly(p.decisions[i].actions);
      assert p.decisions[..i + 1][..i] == p.decisions[..i];
      if actions != [] {
        scope := scope[p.decisions[i].urn := actions];
      }
    }
    assert p.decisions[..|p.decisions|] == p.decisions;
  }

  ghost predicate UniqueUrns(decisions: seq<Decision>) {
    forall i, j | 0 <= i < j < |decisions| :: decisions[i].urn != decisions[j].urn
  }

  lemma {:induction false} ScopeEntries(decisions: seq<Decision>)
    requires UniqueUrns(decisions)
    ensures forall urn, a :: Covers(ScopeOf(decisions), urn, a) <==>
              exists d | d in decisions :: d.urn == urn && a in d.actions && IsDestructive(a)
    ensures forall urn | urn in ScopeOf(decisions) :: exists d | d in decisions :: d.urn == urn
  {
    if decisions != [] {
      var n := |decisions| - 1;
      var last := decisions[n];
      ScopeEntries(decisions[..n]);
      assert decisions == decisions[..n] + [last];
      assert last.urn !in ScopeOf(decisions[..n]);
      forall urn, a
        ensures Covers(ScopeOf(decisions), urn, a) <==>
                exists d | d in decisions :: d.urn == urn && a in d.actions && IsDestructive(a)
      {
        if urn == last.urn {
          assert forall d | d in decisions && d.urn == urn :: d == last;
          assert last in decisions;
        } else {
          assert Covers(ScopeOf(decisions), urn, a) <==> Covers(ScopeOf(decisions[..n]), urn, a);
          assert forall d | d in decisions && d.urn == urn :: d in decisions[..n];
        }
      }
    }
  }

  ghost predicate ActsOn(d: Decision, urn: Urn) { d.urn == urn && exists a | a in d.actions :: IsDestructive(a) }

  ghost predicate ActsLast(decisions: seq<Decision>, urn: Urn, i: nat) {
    && i < |decisions| && ActsOn(decisions[i], urn)
    && forall j | i < j < |decisions| :: !ActsOn(decisions[j], urn)
  }

  ghost predicate NamesActionsOf(scope: Scope, urn: Urn, d: Decision) {
    urn in scope && forall a :: a in scope[urn] <==> a in d.actions && IsDestructive(a)
  }

  /** Whatever the decisions: a URN is in the scope if one of them acts on it, with the
      destructive actions of the last that does. */
  lemma {:induction false} ScopeIsOfTheLast(decisions: seq<Decision>, urn: Urn)
    ensures urn in ScopeOf(decisions) ==> exists i: nat :: ActsLast(decisions, urn, i) && NamesActionsOf(ScopeOf(decisions), urn, decisions[i])
    ensures urn !in ScopeOf(decisions) ==> forall i | 0 <= i < |decisions| :: !ActsOn(decisions[i], urn)
  {
    if decisions != [] {
      var n := |decisions| - 1;
      ScopeIsOfTheLast(decisions[..n], urn);
      ActingIsDestructive(decisions[n]);
      if ActsOn(decisions[n], urn) {
        assert ActsLast(decisions, urn, n) && NamesActionsOf(ScopeOf(decisions), urn, decisions[n]);
      } else if urn in ScopeOf(decisions) {
        var i: nat :| ActsLast(decisions[..n], urn, i) && NamesActionsOf(ScopeOf(decisions[..n]), urn, decisions[..n][i]);
        StillLast(decisions, urn, i);
        assert NamesActionsOf(ScopeOf(decisions), urn, decisions[i]);
      } else {
        forall i | 0 <= i < |decisions| ensures !ActsOn(decisions[i], urn) {
          if i < n { assert !ActsOn(decisions[..n][i], urn); }
        }
      }
    }
  }

  lemma StillLast(decisions: seq<Decision>, urn: Urn, i: nat)
    requires decisions != [] && ActsLast(decisions[..|decisions| - 1], urn, i) && !ActsOn(decisions[|decisions| - 1], urn)
    ensures ActsLast(decisions, urn, i)
  {
    forall j | i < j < |decisions| ensures !ActsOn(decisions[j], urn) {
      if j < |decisions| - 1 { assert !ActsOn(decisions[..|decisions| - 1][j], urn); }
    }
  }

  lemma ActingIsDestructive(d: Decision)
    ensures ActsOn(d, d.urn) <==> DestructiveOnly(d.actions) != []
  {
    if DestructiveOnly(d.actions) != [] { assert DestructiveOnly(d.actions)[0] in DestructiveOnly(d.actions); }
    if a :| a in d.actions && IsDestructive(a) { assert a in DestructiveOnly(d.actions); }
  }

  /** With one decision per URN the scope names exactly the pairs that become steps. */
  lemma ScopeIsTheSteps(p: ImpactPlan)
    requires UniqueUrns(p.decisions)
    ensures forall urn, a :: Covers(EnforcementScope(p), urn, a) <==>
              exists s | s in PlanSteps(p) :: s.urn == urn && s.action == a
  {
    ScopeEntries(p.decisions);
    StepsAreTheDestructiveActions(p);
    forall urn, a
      ensures Covers(EnforcementScope(p), urn, a) <==>
              exists s | s in PlanSteps(p) :: s.urn == urn && s.action == a
    {
      if Covers(EnforcementScope(p), urn, a) {
        var d :| d in p.decisions && d.urn == urn && a in d.actions && IsDestructive(a);
      }
      if s :| s in PlanSteps(p) && s.urn == urn && s.action == a {
        var d :| d in p.decisions && StepOfDecision(s, d);
      }
    }
  }

  // --- lookups the executor makes -------------------------------------------

  function DecisionFor(decisions: seq<Decision>, urn: Urn): Option<Decision> {
    if decisions == [] then None
    else if decisions[0].urn == urn then Some(decisions[0])
    else DecisionFor(decisions[1..], urn)
  }

  function Intermediates(hops: seq<Urn>): seq<Urn> {
    if |hops| < 2 then [] else hops[1..|hops| - 1]
  }

  /** The intermediate hops of every path of the decision for `urn`. */
  function Ancestors(p: ImpactPlan, urn: Urn): set<Urn> {
    match DecisionFor(p.decisions, urn)
    case None => {}
    case Some(d) => set i, h | 0 <= i < |d.paths| && h in Intermediates(d.paths[i].hops) :: h
  }

  function EscalatedUrns(decisions: seq<Decision>): seq<Urn> {
    if decisions == [] then []
    else (if decisions[0].IsEscalation() then [decisions[0].urn] else []) + EscalatedUrns(decisions[1..])
  }

  // --- the hash determines execution ----------------------------------------

  ghost predicate SameDecisions(ds: seq<Decision>, es: seq<Decision>) {
    |ds| == |es| && forall i | 0 <= i < |ds| :: SameDecision(ds[i], es[i])
  }

  lemma {:induction false} SameDecisionsSameCandidates(ds: seq<Decision>, es: seq<Decision>)
    requires SameDecisions(ds, es)
    ensures Candidates(ds) == Candidates(es)
    ensures EscalatedUrns(ds) == EscalatedUrns(es)
  {
    if ds != [] {
      assert SameDecision(ds[0], es[0]);
      assert SameDecisions(ds[1..], es[1..]) by {
        forall i | 0 <= i < |ds[1..]| ensures SameDecision(ds[1..][i], es[1..][i]) {
          assert SameDecision(ds[i + 1], es[i + 1]);
        }
      }
      SameActionCandidates(ds[0], es[0], ds[0].actions);
      SameDecisionsSameCandidates(ds[1..], es[1..]);
    }
  }

  lemma {:induction false} SameActionCandidates(d: Decision, e: Decision, actions: seq<Action>)
    requires d.urn == e.urn && d.artifactClass == e.artifactClass
    ensures ActionCandidates(d, actions) == ActionCandidates(e, actions)
  {
    if actions != [] {
      SameActionCandidates(d, e, actions[1..]);
    }
  }

  lemma {:induction false} SameDecisionsSameScope(ds: seq<Decision>, es: seq<Decision>)
    requires SameDecisions(ds, es)
    ensures ScopeOf(ds) == ScopeOf(es)
  {
    if ds != [] {
      var n := |ds| - 1;
      assert SameDecision(ds[n], es[n]);
      SameDecisionsSameScope(ds[..n], es[..n]);
    }
  }

  lemma {:induction false} SameDecisionsSameLookup(ds: seq<Decision>, es: seq<Decision>, urn: Urn)
    requires SameDecisions(ds, es)
    ensures DecisionFor(ds, urn).Some? <==> DecisionFor(es, urn).Some?
    ensures DecisionFor(ds, urn).Some? ==> SameDecision(DecisionFor(ds, urn).value, DecisionFor(es, urn).value)
  {
    if ds != [] {
      assert SameDecision(ds[0], es[0]);
      assert SameDecisions(ds[1..], es[1..]) by {
        forall i | 0 <= i < |ds[1..]| ensures SameDecision(ds[1..][i], es[1..][i]) {
          assert SameDecision(ds[i + 1], es[i + 1]);
        }
      }
      SameDecisionsSameLookup(ds[1..], es[1..], urn);
    }
  }

  lemma HopsOfPermutedPaths(ps: seq<LineagePath>, qs: seq<LineagePath>)
    requires multiset(PathKeys(ps)) == multiset(PathKeys(qs))
    ensures forall i, h | 0 <= i < |ps| && h in Intermediates(ps[i].hops) ::
              exists j :: 0 <= j < |qs| && h in Intermediates(qs[j].hops)
  {
    forall i, h | 0 <= i < |ps| && h in Intermediates(ps[i].hops)
      ensures exists j :: 0 <= j < |qs| && h in Intermediates(qs[j].hops)
    {
      var key := PathKeys(ps)[i];
      assert key in multiset(PathKeys(ps));
      assert key in PathKeys(qs);
      var j :| 0 <= j < |qs| && PathKeys(qs)[j] == key;
      assert qs[j].hops == ps[i].hops;
    }
  }

  lemma SamePathsSameAncestors(p: ImpactPlan, q: ImpactPlan, urn: Urn)
    requires SameDecisions(p.decisions, q.decisions)
    ensures Ancestors(p, urn) == Ancestors(q, urn)
  {
    SameDecisionsSameLookup(p.decisions, q.decisions, urn);
    var d, e := DecisionFor(p.decisions, urn), DecisionFor(q.decisions, urn);
    if d.Some? {
      HopsOfPermutedPaths(d.value.paths, e.value.paths);
      HopsOfPermutedPaths(e.value.paths, d.value.paths);
    }
  }

  /** Everything execution reads from a plan is fixed by the plan's hash: the
      ordered steps, the scope, each step's ancestors and the escalations. */
  lemma HashDeterminesExecution(p: ImpactPlan, q: ImpactPlan)
    requires HashOf(p) == HashOf(q)
    ensures PlanSteps(p) == PlanSteps(q)
    ensures EnforcementScope(p) == EnforcementScope(q)
    ensures forall urn :: Ancestors(p, urn) == Ancestors(q, urn)
    ensures EscalatedUrns(p.decisions) == EscalatedUrns(q.decisions)
  {
    HashIdentifiesPlan(p, q);
    SameDecisionsSameCandidates(p.decisions, q.decisions);
    SameDecisionsSameScope(p.decisions, q.decisions);
    forall urn ensures Ancestors(p, urn) == Ancestors(q, urn) {
      SamePathsSameAncestors(p, q, urn);
    }
  }
}
