/** Exact-plan approvals (app/approvals.py). */
module Approvals {
  import opened Rights
  import opened Plan

  datatype Verdict = Approved | Rejected | OtherVerdict(text: string)

  datatype Approval = Approval(
    id: nat,
    planHash: PlanHash,
    eventId: string,
    eventHash: string,
    verdict: Verdict,
    approver: string,
    note: string,
    scope: Scope,
    decidedAt: int)
  {
    predicate IsApproved() { verdict.Approved? }
  }

  datatype ApprovalError = UnknownVerdict | ScopeTooWide | EventChanged | PlanDrift | ApprovalRequired | ApprovalRefused

  datatype Result<+T> = Ok(value: T) | Err(error: ApprovalError)

  /** The three tables an approval touches. */
  datatype Tables = Tables(rows: seq<Approval>, plans: map<PlanHash, ImpactPlan>, events: map<(string, nat), string>)

  ghost predicate ScopeWithin(narrow: Scope, wide: Scope) {
    forall urn, a | Covers(narrow, urn, a) :: Covers(wide, urn, a)
  }

  predicate EntryWithin(actions: seq<Action>, urn: Urn, wide: Scope) {
    forall a | a in actions :: Covers(wide, urn, a)
  }

  /** Every recorded approval authorizes no more than the plan stored under its hash. */
  ghost predicate StoreOk(t: Tables) {
    && (forall h | h in t.plans :: HashOf(t.plans[h]) == h)
    && (forall a | a in t.rows :: RowOk(t.plans, a))
  }

  ghost predicate RowOk(plans: map<PlanHash, ImpactPlan>, a: Approval) {
    a.planHash in plans && ScopeWithin(a.scope, EnforcementScope(plans[a.planHash]))
  }

  ghost predicate ScopeFits(chosen: Scope, plan: ImpactPlan) {
    forall urn | urn in chosen :: EntryWithin(chosen[urn], urn, EnforcementScope(plan))
  }

  function Remember(t: Tables, plan: ImpactPlan): Tables {
    var e := plan.event;
    t.(events := if (e.id, e.version) in t.events then t.events else t.events[(e.id, e.version) := e.contentHash],
       plans := if HashOf(plan) in t.plans then t.plans else t.plans[HashOf(plan) := plan])
  }

  /** The newest decision for one plan hash: latest time, then latest row. */
  function Latest(rows: seq<Approval>, h: PlanHash): Option<Approval> {
    if rows == [] then None
    else
      var best := Latest(rows[..|rows| - 1], h);
      var row := rows[|rows| - 1];
      if row.planHash == h && (best.None? || best.value.decidedAt <= row.decidedAt) then Some(row) else best
  }

  function RequireApproval(t: Tables, plan: ImpactPlan): Result<Approval> {
    match Latest(t.rows, HashOf(plan))
    case Some(a) => if a.IsApproved() then Ok(a) else Err(ApprovalRefused)
    case None =>
      if exists i | 0 <= i < |t.rows| :: t.rows[i].eventId == plan.event.id then Err(PlanDrift)
      else Err(ApprovalRequired)
  }

  class ApprovalStore {
    var rows: seq<Approval>
    var plans: map<PlanHash, ImpactPlan>
    var events: map<(string, nat), string>

    function Contents(): Tables
      reads this
    {
      Tables(rows, plans, events)
    }

    constructor ()
      ensures Contents() == Tables([], map[], map[])
    {
      rows, plans, events := [], map[], map[];
    }

    method RememberPlan(plan: ImpactPlan) returns (ok: bool)
      modifies this
      ensures ok <==> ((plan.event.id, plan.event.version) in old(events) ==>
                         old(events)[(plan.event.id, plan.event.version)] == plan.event.contentHash)
      ensures Contents() == if ok then Remember(old(Contents()), plan) else old(Contents())
    {
      var key := (plan.event.id, plan.event.version);
      if key in events && events[key] != plan.event.contentHash {
        return false;
      }
      if key !in events {
        events := events[key := plan.event.contentHash];
      }
      if HashOf(plan) !in plans {
        plans := plans[HashOf(plan) := plan];
      }
      ok := true;
    }

    method Record(plan: ImpactPlan, approver: string, verdict: Verdict, note: string,
                  scope: Option<Scope>, id: nat, now: int)
      returns (r: Result<Approval>)
      modifies this
      ensures var chosen := if scope.Some? then scope.value else EnforcementScope(plan);
              r.Ok? <==>
                && verdict in {Approved, Rejected}
                && (forall urn, a | urn in chosen && a in chosen[urn] :: Covers(EnforcementScope(plan), urn, a))
                && ((plan.event.id, plan.event.version) in old(events) ==>
                      old(events)[(plan.event.id, plan.event.version)] == plan.event.contentHash)
      ensures r.Ok? ==>
                && r.value == Approval(id, HashOf(plan), plan.event.id, plan.event.contentHash, verdict, approver, note,
                                       if scope.Some? then scope.value else EnforcementScope(plan), now)
                && Contents() == Remember(old(Contents()), plan).(rows := old(rows) + [r.value])
      ensures r.Err? ==> Contents() == old(Contents())
      ensures r.Err? ==>
                r.error == if verdict !in {Approved, Rejected} then UnknownVerdict
                           else if scope.Some? && !ScopeWithin(scope.value, EnforcementScope(plan)) then ScopeTooWide
                           else EventChanged
      ensures old(StoreOk(Contents())) ==> StoreOk(Contents())
    {
      if verdict.OtherVerdict? {
        return Err(UnknownVerdict);
      }
      var planScope := BuildScope(plan);
      var chosen := if scope.Some? then scope.value else planScope;
      var pending := chosen.Keys;
      while pending != {}
        invariant pending <= chosen.Keys
        invariant forall urn | urn in chosen.Keys - pending :: EntryWithin(chosen[urn], urn, planScope)
        decreases |pending|
      {
        var urn :| urn in pending;
        if !EntryWithin(chosen[urn], urn, planScope) {
          return Err(ScopeTooWide);
        }
        pending := pending - {urn};
      }
      FittingScopeIsWithin(chosen, plan);
      var remembered := RememberPlan(plan);
      if !remembered {
        return Err(EventChanged);
      }
      var approval := Approval(id, HashOf(plan), plan.event.id, plan.event.contentHash,
                               verdict, approver, note, chosen, now);
      rows := rows + [approval];
      RecordKeepsStore(old(Contents()), plan, approval);
      r := Ok(approval);
    }
  }

  lemma RecordKeepsStore(t: Tables, plan: ImpactPlan, approval: Approval)
    requires ScopeFits(approval.scope, plan) && approval.planHash == HashOf(plan)
    ensures StoreOk(t) ==> StoreOk(Remember(t, plan).(rows := t.rows + [approval]))
  {
    if StoreOk(t) {
      var u := Remember(t, plan);
      assert HashOf(u.plans[HashOf(plan)]) == HashOf(plan);
      HashDeterminesExecution(u.plans[HashOf(plan)], plan);
      FittingScopeIsWithin(approval.scope, plan);
      forall a | a in t.rows + [approval] ensures RowOk(u.plans, a) {
        if a in t.rows { assert RowOk(t.plans, a); }
      }
    }
  }

  lemma FittingScopeIsWithin(scope: Scope, plan: ImpactPlan)
    requires ScopeFits(scope, plan)
    ensures ScopeWithin(scope, EnforcementScope(plan))
  {
    forall urn, a | Covers(scope, urn, a) ensures Covers(EnforcementScope(plan), urn, a) {
      assert EntryWithin(scope[urn], urn, EnforcementScope(plan));
    }
  }

  /** What "newest" means, whatever order the clock handed out. */
  lemma {:induction false} LatestIsNewest(rows: seq<Approval>, h: PlanHash)
    ensures Latest(rows, h).None? <==> forall i | 0 <= i < |rows| :: rows[i].planHash != h
    ensures Latest(rows, h).Some? ==>
              exists i | 0 <= i < |rows| ::
                && rows[i] == Latest(rows, h).value && rows[i].planHash == h
                && forall j | 0 <= j < |rows| && rows[j].planHash == h ::
                     rows[j].decidedAt < rows[i].decidedAt || (rows[j].decidedAt == rows[i].decidedAt && j <= i)
  {
    if rows != [] {
      var n := |rows| - 1;
      LatestIsNewest(rows[..n], h);
      var best := Latest(rows[..n], h);
      if rows[n].planHash == h && (best.None? || best.value.decidedAt <= rows[n].decidedAt) {
        assert Latest(rows, h) == Some(rows[n]);
      } else if best.Some? {
        var i :| 0 <= i < n
          && rows[..n][i] == best.value && rows[..n][i].planHash == h
          && forall j | 0 <= j < n && rows[..n][j].planHash == h ::
               rows[..n][j].decidedAt < rows[..n][i].decidedAt || (rows[..n][j].decidedAt == rows[..n][i].decidedAt && j <= i);
        assert Latest(rows, h) == Some(rows[i]);
        forall j | 0 <= j < |rows| && rows[j].planHash == h
          ensures rows[j].decidedAt < rows[i].decidedAt || (rows[j].decidedAt == rows[i].decidedAt && j <= i)
        {
          if j < n { assert rows[..n][j] == rows[j]; }
        }
      } else {
        forall i | 0 <= i < |rows| ensures rows[i].planHash != h {
          if i < n { assert rows[..n][i] == rows[i]; }
        }
      }
    }
  }

  lemma {:induction false} LatestIsRecorded(rows: seq<Approval>, h: PlanHash)
    ensures Latest(rows, h).Some? ==> Latest(rows, h).value in rows && Latest(rows, h).value.planHash == h
  {
    LatestIsNewest(rows, h);
  }

  /** The gate: an authorization is the newest decision for exactly this plan, it
      is an approval, and it covers nothing the plan does not propose. */
  lemma GateAuthorizesWithinPlan(t: Tables, plan: ImpactPlan)
    requires StoreOk(t)
    ensures RequireApproval(t, plan).Ok? <==>
              Latest(t.rows, HashOf(plan)).Some? && Latest(t.rows, HashOf(plan)).value.IsApproved()
    ensures RequireApproval(t, plan).Ok? ==>
              var a := RequireApproval(t, plan).value;
              && a in t.rows && a.planHash == HashOf(plan) && a.IsApproved()
              && ScopeWithin(a.scope, EnforcementScope(plan))
  {
    LatestIsRecorded(t.rows, HashOf(plan));
    if RequireApproval(t, plan).Ok? {
      var a := RequireApproval(t, plan).value;
      HashDeterminesExecution(t.plans[a.planHash], plan);
    }
  }

  /** Row `i` is the newest decision on this plan: none later, none of the same time
      recorded after it. */
  ghost predicate IsNewest(rows: seq<Approval>, h: PlanHash, i: nat) {
    && i < |rows| && rows[i].planHash == h
    && forall j | 0 <= j < |rows| && rows[j].planHash == h ::
         rows[j].decidedAt < rows[i].decidedAt || (rows[j].decidedAt == rows[i].decidedAt && j <= i)
  }

  /** The whole answer of the gate.  With a decision on exactly this plan, the newest one
      is returned if it approves and refused if it does not; with none, it is drift if
      any plan of this event was decided on, and otherwise an approval is missing. */
  lemma GateAnswers(t: Tables, plan: ImpactPlan)
    ensures (exists i | 0 <= i < |t.rows| :: t.rows[i].planHash == HashOf(plan)) ==>
              exists i: nat :: IsNewest(t.rows, HashOf(plan), i)
                && RequireApproval(t, plan) == if t.rows[i].verdict == Approved then Ok(t.rows[i]) else Err(ApprovalRefused)
    ensures (forall i | 0 <= i < |t.rows| :: t.rows[i].planHash != HashOf(plan)) ==>
              RequireApproval(t, plan) ==
                Err(if exists i | 0 <= i < |t.rows| :: t.rows[i].eventId == plan.event.id then PlanDrift else ApprovalRequired)
  {
    LatestIsNewest(t.rows, HashOf(plan));
    if exists i | 0 <= i < |t.rows| :: t.rows[i].planHash == HashOf(plan) {
      var i :| 0 <= i < |t.rows| && t.rows[i] == Latest(t.rows, HashOf(plan)).value && IsNewest(t.rows, HashOf(plan), i);
    }
  }

  /** Remembering a plan never changes what is remembered already, and adds at most this
      plan under its hash and this event's contents under its id and version. */
  lemma RememberOnlyAdds(t: Tables, plan: ImpactPlan)
    ensures var u, key := Remember(t, plan), (plan.event.id, plan.event.version);
            && u.rows == t.rows
            && (forall h | h in t.plans :: h in u.plans && u.plans[h] == t.plans[h])
            && (forall k | k in t.events :: k in u.events && u.events[k] == t.events[k])
            && HashOf(plan) in u.plans && key in u.events
            && u.plans.Keys == t.plans.Keys + {HashOf(plan)} && u.events.Keys == t.events.Keys + {key}
            && (HashOf(plan) !in t.plans ==> u.plans[HashOf(plan)] == plan)
            && (key !in t.events ==> u.events[key] == plan.event.contentHash)
  {
  }
}
