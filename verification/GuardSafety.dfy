/** What the guard keeps over whole runs. */
module GuardSafety {
  import opened Ordering
  import opened Rights
  import opened Guard

  datatype Call =
    | IssueCall(client: string, operation: string, token: string)
    | BeginCall(client: string, operation: string, token: string)
    | UnrestrictedCall
    | ReadCall
    | FinishCall

  /** A call and the time its clock read returned. */
  datatype Event = Event(call: Call, at: real)

  datatype Admission = Admission(client: string, operation: string, token: string, at: real)

  /** The guard together with an account of what it granted. */
  datatype Run = Run(
    guard: GuardState,
    issued: seq<Admission>,
    admitted: seq<Admission>,
    readAt: seq<real>,
    finishes: seq<real>,
    now: real)

  function Start(now: real): Run { Run(INITIAL, [], [], [], [], now) }

  function Step(r: Run, l: Limits, e: Event): Run {
    match e.call
    case IssueCall(client, operation, token) =>
      var (g, o) := Issue(r.guard, l, client, operation, token, e.at);
      r.(guard := g, now := e.at,
         issued := if o.Admitted? then r.issued + [Admission(client, operation, token, e.at)] else r.issued)
    case BeginCall(client, operation, token) =>
      var (g, o) := Begin(r.guard, l, client, operation, token, e.at);
      r.(guard := g, now := e.at,
         admitted := if o.Admitted? then r.admitted + [Admission(client, operation, token, e.at)] else r.admitted)
    case UnrestrictedCall => r.(guard := BeginUnrestricted(r.guard).0, now := e.at)
    case ReadCall =>
      var (g, o) := ConsumeRead(r.guard, l, e.at);
      r.(guard := g, now := e.at, readAt := if o.Admitted? then r.readAt + [e.at] else r.readAt)
    case FinishCall =>
      r.(guard := Finish(r.guard, e.at), now := e.at,
         finishes := if r.guard.active then r.finishes + [e.at] else r.finishes)
  }

  function RunAll(r: Run, l: Limits, events: seq<Event>): Run
    decreases |events|
  {
    if events == [] then r else RunAll(Step(r, l, events[0]), l, events[1..])
  }

  /** Clock reads never go back, in the order the calls are served. */
  ghost predicate InOrder(now: real, events: seq<Event>) {
    && (forall i | 0 <= i < |events| :: now <= events[i].at)
    && (forall i, j | 0 <= i < j < |events| :: events[i].at <= events[j].at)
  }

  // --- one sliding window ---------------------------------------------------------------

  /** A bucket against all times it ever held: what it dropped is out of the window,
      and no `limit + 1` times ever fit in one window. */
  ghost predicate BucketOk(times: seq<real>, bucket: seq<real>, now: real, limit: nat, window: nat) {
    && |bucket| <= |times| && bucket == times[|times| - |bucket|..] && |bucket| <= limit
    && (forall i | 0 <= i < |times| - |bucket| :: times[i] <= now - window as real)
    && (forall i | 0 <= i < |times| :: times[i] <= now)
    && (forall i, j | 0 <= i < j < |times| :: times[i] <= times[j])
    && (forall i, j | 0 <= i && i + limit <= j < |times| :: times[j] - times[i] >= window as real)
  }

  lemma {:induction false} PrunedSuffix(samples: seq<real>, now: real, window: nat) returns (k: nat)
    ensures k <= |samples| && Prune(samples, now, window) == samples[k..]
    ensures forall i | 0 <= i < k :: samples[i] <= now - window as real
    ensures k < |samples| ==> samples[k] > now - window as real
  {
    if samples != [] && samples[0] <= now - window as real {
      var m := PrunedSuffix(samples[1..], now, window);
      k := m + 1;
      forall i | 0 <= i < k ensures samples[i] <= now - window as real {
        if i > 0 { assert samples[i] == samples[1..][i - 1]; }
      }
    } else {
      k := 0;
    }
  }

  lemma PruneKeepsBucket(times: seq<real>, bucket: seq<real>, was: real, now: real, limit: nat, window: nat)
    requires BucketOk(times, bucket, was, limit, window) && was <= now
    ensures BucketOk(times, Prune(bucket, now, window), now, limit, window)
  {
    var k := PrunedSuffix(bucket, now, window);
    var start := |times| - |bucket|;
    assert bucket[k..] == times[start + k..];
    forall i | 0 <= i < start + k ensures times[i] <= now - window as real {
      if i >= start { assert times[i] == bucket[i - start]; }
    }
  }

  lemma AdmitKeepsBucket(times: seq<real>, bucket: seq<real>, now: real, limit: nat, window: nat)
    requires BucketOk(times, bucket, now, limit, window) && |bucket| < limit
    ensures BucketOk(times + [now], bucket + [now], now, limit, window)
  {
    var longer := times + [now];
    assert (bucket + [now]) == longer[|longer| - |bucket + [now]|..];
    forall i, j | 0 <= i && i + limit <= j < |longer| ensures longer[j] - longer[i] >= window as real {
      if j == |times| { assert i < |times| - |bucket|; }
    }
  }

  /** The admissions in the window that ends at `t`. */
  function InWindow(times: seq<real>, t: real, window: nat): set<int> {
    set i | 0 <= i < |times| && t - window as real < times[i] <= t
  }

  lemma FewInRange(s: set<int>, low: int, n: nat)
    requires forall i | i in s :: low <= i < low + n
    ensures |s| <= n
    decreases n
  {
    if n == 0 {
      assert forall i: int :: i !in s;
      assert s == {};
    } else {
      FewInRange(s - {low + n - 1}, low, n - 1);
    }
  }

  lemma WindowHoldsAtMost(times: seq<real>, bucket: seq<real>, now: real, limit: nat, window: nat, t: real)
    requires BucketOk(times, bucket, now, limit, window)
    ensures |InWindow(times, t, window)| <= limit
  {
    var s := InWindow(times, t, window);
    if forall i: int :: i !in s {
      assert s == {};
    } else {
      var low := LeastIndex(s);
      forall i | i in s ensures low <= i < low + limit {
        assert times[i] - times[low] < window as real;
      }
      FewInRange(s, low, limit);
    }
  }

  lemma {:induction false} LeastIndex(s: set<int>) returns (low: int)
    requires exists i: int :: i in s
    ensures low in s && forall i | i in s :: low <= i
  {
    var any: int :| any in s;
    low := any;
    if exists i: int :: i in s && i < any {
      var i: int :| i in s && i < any;
      var rest := s - {any};
      assert i in rest;
      low := LeastIndex(rest);
      forall k: int | k in s ensures low <= k {
        assert k in rest || k == any;
      }
    }
  }

  // --- the invariant ----------------------------------------------------------------------

  function TimesOf(admitted: seq<Admission>, client: string): seq<real> {
    if admitted == [] then []
    else
      var n := |admitted| - 1;
      TimesOf(admitted[..n], client) + if admitted[n].client == client then [admitted[n].at] else []
  }

  function AllTimes(admitted: seq<Admission>): seq<real> { Map((a: Admission) => a.at, admitted) }

  ghost predicate ClientsOk(admitted: seq<Admission>, byClient: map<string, seq<real>>, now: real, l: Limits) {
    forall c: string :: ClientOk(admitted, byClient, now, l, c)
  }

  ghost predicate ClientOk(admitted: seq<Admission>, byClient: map<string, seq<real>>, now: real, l: Limits, c: string) {
    BucketOk(TimesOf(admitted, c), BucketOf(byClient, c), now, l.client, l.window)
  }

  ghost predicate BucketsOk(admitted: seq<Admission>, byClient: map<string, seq<real>>, global: seq<real>, now: real, l: Limits) {
    BucketOk(AllTimes(admitted), global, now, l.global, l.window) && ClientsOk(admitted, byClient, now, l)
  }

  /** Between admissions `i` and `j` lies a finish, and the cooldown after it. */
  ghost predicate Separated(admitted: seq<Admission>, finishes: seq<real>, l: Limits, i: nat, j: nat)
    requires i < j < |admitted|
  {
    exists k | 0 <= k < |finishes| ::
      admitted[i].at <= finishes[k] && finishes[k] + l.cooldown as real <= admitted[j].at
  }

  /** One mutation at a time: an idle guard has recorded a finish no earlier than its
      last admission, and the last finish is remembered. */
  ghost predicate FlightOk(admitted: seq<Admission>, finishes: seq<real>, active: bool, lastFinished: Option<real>, now: real, l: Limits) {
    && (admitted != [] && !active ==> finishes != [] && admitted[|admitted| - 1].at <= finishes[|finishes| - 1])
    && lastFinished == (if finishes == [] then None else Some(finishes[|finishes| - 1]))
    && (forall i: nat | i < |admitted| :: admitted[i].at <= admitted[|admitted| - 1].at <= now)
    && (forall i: nat, j: nat | i < j < |admitted| :: Separated(admitted, finishes, l, i, j))
  }

  function Count(xs: seq<Admission>, token: string): nat {
    if xs == [] then 0
    else Count(xs[..|xs| - 1], token) + if xs[|xs| - 1].token == token then 1 else 0
  }

  ghost predicate Matches(i: Admission, token: string, client: string, operation: string) {
    i.token == token && i.client == client && i.operation == operation
  }

  /** A pending confirmation is one that was issued. */
  ghost predicate IsIssued(issued: seq<Admission>, l: Limits, token: string, c: Confirmation) {
    exists i | i in issued :: Matches(i, token, c.client, c.operation) && c.expiresAt == i.at + l.ttl as real
  }

  /** An admission rests on a confirmation issued earlier to the same client for the
      same operation, and not yet expired. */
  ghost predicate Confirmed(issued: seq<Admission>, l: Limits, a: Admission) {
    exists i | i in issued :: Matches(i, a.token, a.client, a.operation) && i.at <= a.at < i.at + l.ttl as real
  }

  ghost predicate IssuedOk(issued: seq<Admission>, cs: map<string, Confirmation>, l: Limits) {
    forall t | t in cs :: IsIssued(issued, l, t, cs[t])
  }

  /** Each issue pays for one admission, or for the confirmation still pending. */
  ghost predicate SpentOk(issued: seq<Admission>, admitted: seq<Admission>, cs: map<string, Confirmation>) {
    forall t: string :: Count(admitted, t) + (if t in cs then 1 else 0) <= Count(issued, t)
  }

  ghost predicate PendingOk(cs: map<string, Confirmation>, l: Limits) {
    |cs| <= l.globalPending && forall c: string :: |PendingOf(cs, c)| <= l.pending
  }

  ghost predicate AllConfirmed(issued: seq<Admission>, admitted: seq<Admission>, now: real, l: Limits) {
    && (forall i | i in issued :: i.at <= now)
    && (forall a | a in admitted :: Confirmed(issued, l, a))
  }

  ghost predicate TokensOk(issued: seq<Admission>, admitted: seq<Admission>, cs: map<string, Confirmation>, now: real, l: Limits) {
    IssuedOk(issued, cs, l) && SpentOk(issued, admitted, cs) && PendingOk(cs, l) && AllConfirmed(issued, admitted, now, l)
  }

  ghost predicate RunOk(r: Run, l: Limits) {
    && BucketsOk(r.admitted, r.guard.byClient, r.guard.global, r.now, l)
    && BucketOk(r.readAt, r.guard.readTimes, r.now, l.read, l.readWindow)
    && FlightOk(r.admitted, r.finishes, r.guard.active, r.guard.lastFinished, r.now, l)
    && TokensOk(r.issued, r.admitted, r.guard.confirmations, r.now, l)
  }

  // --- time passing ---------------------------------------------------------

  lemma LaterBucket(times: seq<real>, bucket: seq<real>, was: real, now: real, limit: nat, window: nat)
    requires BucketOk(times, bucket, was, limit, window) && was <= now
    ensures BucketOk(times, bucket, now, limit, window)
  {
  }

  lemma LaterBuckets(admitted: seq<Admission>, byClient: map<string, seq<real>>, global: seq<real>, was: real, now: real, l: Limits)
    requires BucketsOk(admitted, byClient, global, was, l) && was <= now
    ensures BucketsOk(admitted, byClient, global, now, l)
  {
    LaterBucket(AllTimes(admitted), global, was, now, l.global, l.window);
    forall c: string ensures ClientOk(admitted, byClient, now, l, c) {
      assert ClientOk(admitted, byClient, was, l, c);
      LaterBucket(TimesOf(admitted, c), BucketOf(byClient, c), was, now, l.client, l.window);
    }
  }

  // --- buckets ----------------------------------------------------------------------------

  lemma TimesAppend(admitted: seq<Admission>, a: Admission, client: string)
    ensures TimesOf(admitted + [a], client) == TimesOf(admitted, client) + if a.client == client then [a.at] else []
    ensures AllTimes(admitted + [a]) == AllTimes(admitted) + [a.at]
  {
    assert (admitted + [a])[..|admitted|] == admitted;
  }

  /** The buckets as an admission check leaves them. */
  function Rebucket(byClient: map<string, seq<real>>, now: real, l: Limits, client: string): map<string, seq<real>> {
    var buckets := PruneClients(byClient, now, l.window);
    buckets[client := BucketOf(buckets, client)]
  }

  lemma PruneKeepsBuckets(admitted: seq<Admission>, byClient: map<string, seq<real>>, global: seq<real>, now: real, l: Limits, client: string)
    requires BucketsOk(admitted, byClient, global, now, l)
    ensures BucketsOk(admitted, Rebucket(byClient, now, l, client), Prune(global, now, l.window), now, l)
  {
    var buckets, more := PruneClients(byClient, now, l.window), Rebucket(byClient, now, l, client);
    PruneKeepsBucket(AllTimes(admitted), global, now, now, l.global, l.window);
    forall c: string ensures ClientOk(admitted, more, now, l, c) {
      assert ClientOk(admitted, byClient, now, l, c);
      PruneKeepsBucket(TimesOf(admitted, c), BucketOf(byClient, c), now, now, l.client, l.window);
      assert BucketOf(buckets, c) == Prune(BucketOf(byClient, c), now, l.window);
      assert BucketOf(more, c) == BucketOf(buckets, c);
    }
  }

  lemma AdmitKeepsBuckets(admitted: seq<Admission>, buckets: map<string, seq<real>>, global: seq<real>, now: real, l: Limits, a: Admission)
    requires BucketsOk(admitted, buckets, global, now, l) && a.at == now
    requires |BucketOf(buckets, a.client)| < l.client && |global| < l.global
    ensures BucketsOk(admitted + [a], buckets[a.client := BucketOf(buckets, a.client) + [now]], global + [now], now, l)
  {
    var longer, more := admitted + [a], buckets[a.client := BucketOf(buckets, a.client) + [now]];
    AdmitKeepsBucket(AllTimes(admitted), global, now, l.global, l.window);
    TimesAppend(admitted, a, a.client);
    forall c: string ensures ClientOk(longer, more, now, l, c) {
      assert ClientOk(admitted, buckets, now, l, c);
      TimesAppend(admitted, a, c);
      if c == a.client {
        AdmitKeepsBucket(TimesOf(admitted, c), BucketOf(buckets, c), now, l.client, l.window);
      } else {
        assert BucketOf(more, c) == BucketOf(buckets, c) && TimesOf(longer, c) == TimesOf(admitted, c);
      }
    }
  }

  // --- confirmations -------------------------------------------------------------------------

  lemma CountAppend(xs: seq<Admission>, a: Admission, token: string)
    ensures Count(xs + [a], token) == Count(xs, token) + if a.token == token then 1 else 0
  {
    assert (xs + [a])[..|xs|] == xs;
  }

  ghost predicate IsPart(small: map<string, Confirmation>, large: map<string, Confirmation>) {
    forall t | t in small :: t in large && small[t] == large[t]
  }

  lemma PartKeepsPending(small: map<string, Confirmation>, large: map<string, Confirmation>, l: Limits)
    requires IsPart(small, large) && PendingOk(large, l)
    ensures PendingOk(small, l)
  {
    SubsetCount(small.Keys, large.Keys);
    forall c: string ensures |PendingOf(small, c)| <= l.pending {
      SubsetCount(PendingOf(small, c), PendingOf(large, c));
    }
  }

  /** Dropping confirmations disturbs nothing. */
  lemma DropKeepsTokens(issued: seq<Admission>, admitted: seq<Admission>, cs: map<string, Confirmation>, now: real, l: Limits, fewer: map<string, Confirmation>)
    requires TokensOk(issued, admitted, cs, now, l) && IsPart(fewer, cs)
    ensures TokensOk(issued, admitted, fewer, now, l)
  {
    PartKeepsPending(fewer, cs, l);
    assert forall t | t in fewer :: IsIssued(issued, l, t, cs[t]);
    assert forall t: string :: Count(admitted, t) + (if t in cs then 1 else 0) <= Count(issued, t);
  }

  lemma OneMorePending(cs: map<string, Confirmation>, l: Limits, token: string, c: Confirmation)
    requires PendingOk(cs, l) && |PendingOf(cs, c.client)| < l.pending && |cs| < l.globalPending
    ensures PendingOk(cs[token := c], l)
  {
    var more := cs[token := c];
    assert more.Keys == cs.Keys + {token};
    assert |more| == |more.Keys| && |cs| == |cs.Keys|;
    forall client: string ensures |PendingOf(more, client)| <= l.pending {
      SubsetCount(PendingOf(more, client), PendingOf(cs, client) + if client == c.client then {token} else {});
    }
  }

  lemma IssueKeepsTokens(issued: seq<Admission>, admitted: seq<Admission>, cs: map<string, Confirmation>, now: real, l: Limits, a: Admission)
    requires TokensOk(issued, admitted, cs, now, l) && a.at == now
    requires |PendingOf(cs, a.client)| < l.pending && |cs| < l.globalPending
    ensures TokensOk(issued + [a], admitted, cs[a.token := Confirmation(a.client, a.operation, now + l.ttl as real)], now, l)
  {
    var c := Confirmation(a.client, a.operation, now + l.ttl as real);
    var more, issued' := cs[a.token := c], issued + [a];
    OneMorePending(cs, l, a.token, c);
    forall t | t in more ensures IsIssued(issued', l, t, more[t]) {
      if t == a.token {
        assert a in issued' && Matches(a, t, c.client, c.operation);
      } else {
        assert IsIssued(issued, l, t, cs[t]);
        var i :| i in issued && Matches(i, t, cs[t].client, cs[t].operation) && cs[t].expiresAt == i.at + l.ttl as real;
        assert i in issued';
      }
    }
    forall t: string ensures Count(admitted, t) + (if t in more then 1 else 0) <= Count(issued', t) {
      CountAppend(issued, a, t);
    }
    forall x | x in admitted ensures Confirmed(issued', l, x) {
      assert Confirmed(issued, l, x);
      var i :| i in issued && Matches(i, x.token, x.client, x.operation) && i.at <= x.at < i.at + l.ttl as real;
      assert i in issued';
    }
  }

  lemma SpendKeepsTokens(issued: seq<Admission>, admitted: seq<Admission>, cs: map<string, Confirmation>, now: real, l: Limits, a: Admission)
    requires TokensOk(issued, admitted, cs, now, l) && a.token in cs && a.at == now
    requires cs[a.token].client == a.client && cs[a.token].operation == a.operation && cs[a.token].expiresAt > now
    ensures TokensOk(issued, admitted + [a], cs - {a.token}, now, l)
  {
    var fewer, admitted' := cs - {a.token}, admitted + [a];
    PartKeepsPending(fewer, cs, l);
    forall t: string ensures Count(admitted', t) + (if t in fewer then 1 else 0) <= Count(issued, t) {
      CountAppend(admitted, a, t);
    }
    assert IsIssued(issued, l, a.token, cs[a.token]);
    forall x | x in admitted' ensures Confirmed(issued, l, x) {
      if x !in admitted { assert x == a; }
    }
  }

  // --- single flight ---------------------------------------------------------------------------

  lemma AdmitKeepsFlight(admitted: seq<Admission>, finishes: seq<real>, lastFinished: Option<real>, now: real, l: Limits, a: Admission)
    requires FlightOk(admitted, finishes, false, lastFinished, now, l) && a.at == now
    requires lastFinished.Some? ==> l.cooldown as real - (now - lastFinished.value) <= 0.0
    ensures FlightOk(admitted + [a], finishes, true, lastFinished, now, l)
  {
    var admitted' := admitted + [a];
    forall i: nat, j: nat | i < j < |admitted'| ensures Separated(admitted', finishes, l, i, j) {
      if j < |admitted| {
        assert Separated(admitted, finishes, l, i, j);
      } else {
        assert admitted'[i] == admitted[i] && admitted'[j] == a;
        assert admitted'[i].at <= finishes[|finishes| - 1];
      }
    }
  }

  lemma FinishKeepsFlight(admitted: seq<Admission>, finishes: seq<real>, lastFinished: Option<real>, now: real, l: Limits)
    requires FlightOk(admitted, finishes, true, lastFinished, now, l)
    ensures FlightOk(admitted, finishes + [now], false, Some(now), now, l)
  {
    var finishes' := finishes + [now];
    forall i: nat, j: nat | i < j < |admitted| ensures Separated(admitted, finishes', l, i, j) {
      assert Separated(admitted, finishes, l, i, j);
      var k :| 0 <= k < |finishes| && admitted[i].at <= finishes[k] && finishes[k] + l.cooldown as real <= admitted[j].at;
      assert finishes'[k] == finishes[k];
    }
  }

  // --- what one call does ---------------------------------------------------------------------------

  /** A refused mutation only drops confirmations and prunes buckets. */
  lemma BeginRefused(g: GuardState, l: Limits, client: string, operation: string, token: string, now: real)
    requires !Begin(g, l, client, operation, token, now).1.Admitted?
    ensures var v := Begin(g, l, client, operation, token, now).0;
            && IsPart(v.confirmations, g.confirmations)
            && v == g.(confirmations := v.confirmations, byClient := v.byClient, global := v.global)
            && ((v.byClient == g.byClient && v.global == g.global)
                || (v.byClient == Rebucket(g.byClient, now, l, client) && v.global == Prune(g.global, now, l.window)))
  {
  }

  /** An admitted one met every condition, spent its confirmation and took a place in
      each bucket. */
  lemma BeginAdmitted(g: GuardState, l: Limits, client: string, operation: string, token: string, now: real)
    requires Begin(g, l, client, operation, token, now).1.Admitted?
    ensures var v, cs := Begin(g, l, client, operation, token, now).0, PruneConfirmations(g.confirmations, now);
            var buckets, global := Rebucket(g.byClient, now, l, client), Prune(g.global, now, l.window);
            && !g.active && v.active && token in cs && v.confirmations == cs - {token}
            && cs[token].client == client && cs[token].operation == operation && cs[token].expiresAt > now
            && (g.lastFinished.Some? ==> l.cooldown as real - (now - g.lastFinished.value) <= 0.0)
            && |BucketOf(buckets, client)| < l.client && |global| < l.global
            && v.byClient == buckets[client := BucketOf(buckets, client) + [now]] && v.global == global + [now]
            && v.lastFinished == g.lastFinished && v.readTimes == g.readTimes
  {
    var buckets := PruneClients(g.byClient, now, l.window);
    var samples := BucketOf(buckets, client);
    assert buckets[client := samples][client := samples + [now]] == buckets[client := samples + [now]];
  }

  predicate Admits(r: Run, l: Limits, e: Event) {
    e.call.BeginCall? && Begin(r.guard, l, e.call.client, e.call.operation, e.call.token, e.at).1.Admitted?
  }

  function AdmissionOf(e: Event): Admission
    requires e.call.BeginCall? || e.call.IssueCall?
  {
    Admission(e.call.client, e.call.operation, e.call.token, e.at)
  }

  /** How `v` follows from `r` by `e`, as far as the mutation buckets go. */
  ghost predicate BucketEffect(r: Run, l: Limits, e: Event, v: Run) {
    if e.call.BeginCall? then
      var buckets, global := Rebucket(r.guard.byClient, e.at, l, e.call.client), Prune(r.guard.global, e.at, l.window);
      if Admits(r, l, e) then
        && |BucketOf(buckets, e.call.client)| < l.client && |global| < l.global
        && v.admitted == r.admitted + [AdmissionOf(e)] && v.guard.global == global + [e.at]
        && v.guard.byClient == buckets[e.call.client := BucketOf(buckets, e.call.client) + [e.at]]
      else
        && v.admitted == r.admitted
        && ((v.guard.byClient == r.guard.byClient && v.guard.global == r.guard.global)
            || (v.guard.byClient == buckets && v.guard.global == global))
    else v.admitted == r.admitted && v.guard.byClient == r.guard.byClient && v.guard.global == r.guard.global
  }

  ghost predicate ReadEffect(r: Run, l: Limits, e: Event, v: Run) {
    var kept := Prune(r.guard.readTimes, e.at, l.readWindow);
    if !e.call.ReadCall? then v.readAt == r.readAt && v.guard.readTimes == r.guard.readTimes
    else if |kept| < l.read then v.readAt == r.readAt + [e.at] && v.guard.readTimes == kept + [e.at]
    else v.readAt == r.readAt && v.guard.readTimes == kept
  }

  ghost predicate FlightEffect(r: Run, l: Limits, e: Event, v: Run) {
    var g, w := r.guard, v.guard;
    if Admits(r, l, e) then
      && !g.active && w.active && w.lastFinished == g.lastFinished && v.finishes == r.finishes
      && v.admitted == r.admitted + [AdmissionOf(e)]
      && (g.lastFinished.Some? ==> l.cooldown as real - (e.at - g.lastFinished.value) <= 0.0)
    else
      && v.admitted == r.admitted
      && if e.call.FinishCall? && g.active then
           !w.active && w.lastFinished == Some(e.at) && v.finishes == r.finishes + [e.at]
         else (g.active ==> w.active) && w.lastFinished == g.lastFinished && v.finishes == r.finishes
  }

  ghost predicate TokenEffect(r: Run, l: Limits, e: Event, v: Run) {
    var cs := PruneConfirmations(r.guard.confirmations, e.at);
    if Issues(r, l, e) then
      && v.issued == r.issued + [AdmissionOf(e)] && v.admitted == r.admitted
      && v.guard.confirmations == cs[e.call.token := Confirmation(e.call.client, e.call.operation, e.at + l.ttl as real)]
    else if Admits(r, l, e) then
      && v.issued == r.issued && v.admitted == r.admitted + [AdmissionOf(e)]
      && e.call.token in cs && v.guard.confirmations == cs - {e.call.token}
      && cs[e.call.token].client == e.call.client && cs[e.call.token].operation == e.call.operation
    else
      v.issued == r.issued && v.admitted == r.admitted && IsPart(v.guard.confirmations, r.guard.confirmations)
  }

  ghost predicate Effects(r: Run, l: Limits, e: Event, v: Run) {
    v.now == e.at && BucketEffect(r, l, e, v) && ReadEffect(r, l, e, v) && FlightEffect(r, l, e, v) && TokenEffect(r, l, e, v)
  }

  lemma StepEffects(r: Run, l: Limits, e: Event)
    ensures Effects(r, l, e, Step(r, l, e))
  {
    if e.call.BeginCall? {
      if Admits(r, l, e) {
        BeginAdmitted(r.guard, l, e.call.client, e.call.operation, e.call.token, e.at);
      } else {
        BeginRefused(r.guard, l, e.call.client, e.call.operation, e.call.token, e.at);
      }
    }
  }

  lemma StepKeepsBuckets(r: Run, l: Limits, e: Event, v: Run)
    requires BucketsOk(r.admitted, r.guard.byClient, r.guard.global, r.now, l) && r.now <= e.at
    requires BucketEffect(r, l, e, v)
    ensures BucketsOk(v.admitted, v.guard.byClient, v.guard.global, e.at, l)
  {
    var g := r.guard;
    LaterBuckets(r.admitted, g.byClient, g.global, r.now, e.at, l);
    if e.call.BeginCall? {
      PruneKeepsBuckets(r.admitted, g.byClient, g.global, e.at, l, e.call.client);
      if Admits(r, l, e) {
        AdmitKeepsBuckets(r.admitted, Rebucket(g.byClient, e.at, l, e.call.client), Prune(g.global, e.at, l.window), e.at, l, AdmissionOf(e));
      }
    }
  }

  lemma StepKeepsReads(r: Run, l: Limits, e: Event, v: Run)
    requires BucketOk(r.readAt, r.guard.readTimes, r.now, l.read, l.readWindow) && r.now <= e.at
    requires ReadEffect(r, l, e, v)
    ensures BucketOk(v.readAt, v.guard.readTimes, e.at, l.read, l.readWindow)
  {
    LaterBucket(r.readAt, r.guard.readTimes, r.now, e.at, l.read, l.readWindow);
    var kept := Prune(r.guard.readTimes, e.at, l.readWindow);
    PruneKeepsBucket(r.readAt, r.guard.readTimes, e.at, e.at, l.read, l.readWindow);
    if e.call.ReadCall? && |kept| < l.read {
      AdmitKeepsBucket(r.readAt, kept, e.at, l.read, l.readWindow);
    }
  }

  lemma StepKeepsFlight(r: Run, l: Limits, e: Event, v: Run)
    requires FlightOk(r.admitted, r.finishes, r.guard.active, r.guard.lastFinished, r.now, l) && r.now <= e.at
    requires FlightEffect(r, l, e, v)
    ensures FlightOk(v.admitted, v.finishes, v.guard.active, v.guard.lastFinished, e.at, l)
  {
    var g := r.guard;
    assert FlightOk(r.admitted, r.finishes, g.active, g.lastFinished, e.at, l);
    if Admits(r, l, e) {
      AdmitKeepsFlight(r.admitted, r.finishes, g.lastFinished, e.at, l, AdmissionOf(e));
    } else if e.call.FinishCall? && g.active {
      FinishKeepsFlight(r.admitted, r.finishes, g.lastFinished, e.at, l);
    }
  }

  predicate Issues(r: Run, l: Limits, e: Event) {
    var cs := PruneConfirmations(r.guard.confirmations, e.at);
    e.call.IssueCall? && |PendingOf(cs, e.call.client)| < l.pending && |cs| < l.globalPending
  }

  lemma StepKeepsTokens(r: Run, l: Limits, e: Event, v: Run)
    requires TokensOk(r.issued, r.admitted, r.guard.confirmations, r.now, l) && r.now <= e.at
    requires TokenEffect(r, l, e, v)
    ensures TokensOk(v.issued, v.admitted, v.guard.confirmations, e.at, l)
  {
    var cs := PruneConfirmations(r.guard.confirmations, e.at);
    if Issues(r, l, e) {
      LaterTokens(r.issued, r.admitted, r.guard.confirmations, r.now, e.at, l, cs);
      IssueKeepsTokens(r.issued, r.admitted, cs, e.at, l, AdmissionOf(e));
    } else if Admits(r, l, e) {
      SpentTokens(r, l, e, cs);
    } else {
      LaterTokens(r.issued, r.admitted, r.guard.confirmations, r.now, e.at, l, v.guard.confirmations);
    }
  }

  lemma SpentTokens(r: Run, l: Limits, e: Event, cs: map<string, Confirmation>)
    requires TokensOk(r.issued, r.admitted, r.guard.confirmations, r.now, l) && r.now <= e.at
    requires e.call.BeginCall? && cs == PruneConfirmations(r.guard.confirmations, e.at) && e.call.token in cs
    requires cs[e.call.token].client == e.call.client && cs[e.call.token].operation == e.call.operation
    ensures TokensOk(r.issued, r.admitted + [AdmissionOf(e)], cs - {e.call.token}, e.at, l)
  {
    LaterTokens(r.issued, r.admitted, r.guard.confirmations, r.now, e.at, l, cs);
    SpendKeepsTokens(r.issued, r.admitted, cs, e.at, l, AdmissionOf(e));
  }

  lemma LaterTokens(issued: seq<Admission>, admitted: seq<Admission>, cs: map<string, Confirmation>, was: real, now: real, l: Limits, fewer: map<string, Confirmation>)
    requires TokensOk(issued, admitted, cs, was, l) && was <= now && IsPart(fewer, cs)
    ensures TokensOk(issued, admitted, fewer, now, l)
  {
    assert TokensOk(issued, admitted, cs, now, l);
    DropKeepsTokens(issued, admitted, cs, now, l, fewer);
  }

  lemma EffectsKeep(r: Run, l: Limits, e: Event, v: Run)
    requires RunOk(r, l) && r.now <= e.at && Effects(r, l, e, v)
    ensures RunOk(v, l)
  {
    StepKeepsBuckets(r, l, e, v);
    StepKeepsReads(r, l, e, v);
    StepKeepsFlight(r, l, e, v);
    StepKeepsTokens(r, l, e, v);
  }

  /** What every call keeps, every run keeps. */
  lemma {:induction false} RunInduction(inv: Run -> bool, r: Run, l: Limits, events: seq<Event>)
    requires forall x: Run, e: Event | inv(x) && x.now <= e.at :: inv(Step(x, l, e)) && Step(x, l, e).now == e.at
    requires inv(r) && InOrder(r.now, events)
    ensures inv(RunAll(r, l, events))
    decreases |events|
  {
    if events != [] {
      RunInduction(inv, Step(r, l, events[0]), l, events[1..]);
    }
  }

  ghost function Invariant(l: Limits): Run -> bool { (r: Run) => RunOk(r, l) }

  lemma StartIsOk(now: real, l: Limits)
    ensures RunOk(Start(now), l)
  {
    var r := Start(now);
    assert forall c: string :: ClientOk(r.admitted, r.guard.byClient, r.now, l, c);
    assert forall c: string :: PendingOf(r.guard.confirmations, c) == {};
  }

  lemma RunIsOk(start: real, l: Limits, events: seq<Event>)
    requires InOrder(start, events)
    ensures RunOk(RunAll(Start(start), l, events), l)
  {
    StartIsOk(start, l);
    forall x: Run, e: Event | Invariant(l)(x) && x.now <= e.at ensures Invariant(l)(Step(x, l, e)) && Step(x, l, e).now == e.at {
      StepEffects(x, l, e);
      EffectsKeep(x, l, e, Step(x, l, e));
    }
    RunInduction(Invariant(l), Start(start), l, events);
  }

  // --- what that means ------------------------------------------------------------------------------

  /** Over every run and for every moment: the window that ends then holds at most
      the limit of admissions for each client, over all clients, and of plan reads. */
  lemma WindowsNeverOverflow(start: real, l: Limits, events: seq<Event>, t: real, client: string)
    requires InOrder(start, events)
    ensures var r := RunAll(Start(start), l, events);
            && |InWindow(TimesOf(r.admitted, client), t, l.window)| <= l.client
            && |InWindow(AllTimes(r.admitted), t, l.window)| <= l.global
            && |InWindow(r.readAt, t, l.readWindow)| <= l.read
  {
    var r := RunAll(Start(start), l, events);
    RunIsOk(start, l, events);
    assert ClientOk(r.admitted, r.guard.byClient, r.now, l, client);
    WindowHoldsAtMost(TimesOf(r.admitted, client), BucketOf(r.guard.byClient, client), r.now, l.client, l.window, t);
    WindowHoldsAtMost(AllTimes(r.admitted), r.guard.global, r.now, l.global, l.window, t);
    WindowHoldsAtMost(r.readAt, r.guard.readTimes, r.now, l.read, l.readWindow, t);
  }

  /** With the program's own limits: in any ten minutes 20 mutations for a client and
      80 in all, in any minute 120 plan reads. */
  lemma DefaultWindows(start: real, events: seq<Event>, t: real, client: string)
    requires InOrder(start, events)
    ensures var r := RunAll(Start(start), DEFAULTS, events);
            && |InWindow(TimesOf(r.admitted, client), t, 600)| <= 20
            && |InWindow(AllTimes(r.admitted), t, 600)| <= 80
            && |InWindow(r.readAt, t, 60)| <= 120
  {
    WindowsNeverOverflow(start, DEFAULTS, events, t, client);
  }

  /** Over every run: a finish lies between any two public mutations, with the
      cooldown after it; and while one is under way nothing else is admitted. */
  lemma OneMutationAtATime(start: real, l: Limits, events: seq<Event>, i: nat, j: nat, e: Event)
    requires InOrder(start, events)
    ensures var r := RunAll(Start(start), l, events);
            && (i < j < |r.admitted| ==> Separated(r.admitted, r.finishes, l, i, j))
            && (r.guard.active && (e.call.BeginCall? || e.call.UnrestrictedCall?) ==>
                  Step(r, l, e).admitted == r.admitted && Step(r, l, e).guard.active)
  {
    RunIsOk(start, l, events);
  }

  /** Over every run: a token admits at most as many mutations as it was issued for,
      each by the client and for the operation it was issued to, before it expired. */
  lemma TokensAreSpentOnce(start: real, l: Limits, events: seq<Event>, token: string)
    requires InOrder(start, events)
    ensures var r := RunAll(Start(start), l, events);
            && Count(r.admitted, token) <= Count(r.issued, token)
            && (forall a | a in r.admitted :: Confirmed(r.issued, l, a))
            && PendingOk(r.guard.confirmations, l)
  {
    RunIsOk(start, l, events);
  }

  // --- retry after ------------------------------------------------------------------------------------

  /** A full bucket has room once the announced seconds have passed, and not before
      the last of them has begun. */
  lemma BucketRetryExact(times: seq<real>, bucket: seq<real>, now: real, limit: nat, window: nat, later: real)
    requires BucketOk(times, bucket, now, limit, window) && |Prune(bucket, now, window)| >= limit > 0 && later >= now
    ensures var wait := RetryAfter(Prune(bucket, now, window), now, window);
            && (later >= now + wait as real ==> |Prune(Prune(bucket, now, window), later, window)| < limit)
            && (later <= now + (wait - 1) as real ==> |Prune(Prune(bucket, now, window), later, window)| >= limit)
  {
    PruneKeepsBucket(times, bucket, now, now, limit, window);
    var full := Prune(bucket, now, window);
    var left := window as real - (now - full[0]);
    var k0 := PrunedSuffix(bucket, now, window);
    assert full[0] == bucket[k0];
    CeilIsLeast(left, RetryAfter(full, now, window));
    CeilIsLeast(left, RetryAfter(full, now, window) - 1);
    var k := PrunedSuffix(full, later, window);
  }

  predicate CooldownPasses(g: GuardState, l: Limits, now: real) {
    g.lastFinished.Some? ==> l.cooldown as real - (now - g.lastFinished.value) <= 0.0
  }

  predicate ClientPasses(g: GuardState, l: Limits, client: string, now: real) {
    |Prune(BucketOf(g.byClient, client), now, l.window)| < l.client
  }

  predicate GlobalPasses(g: GuardState, l: Limits, now: real) {
    |Prune(g.global, now, l.window)| < l.global
  }

  predicate IsConfirmed(g: GuardState, client: string, operation: string, token: string, now: real) {
    && token in g.confirmations && g.confirmations[token].expiresAt > now
    && g.confirmations[token].client == client && g.confirmations[token].operation == operation
  }

  /** A mutation is admitted exactly when it is confirmed, nothing is under way and
      all three rate checks pass. */
  lemma AdmittedExactly(g: GuardState, l: Limits, client: string, operation: string, token: string, now: real)
    ensures Begin(g, l, client, operation, token, now).1.Admitted? <==>
              && IsConfirmed(g, client, operation, token, now) && !g.active
              && CooldownPasses(g, l, now) && ClientPasses(g, l, client, now) && GlobalPasses(g, l, now)
  {
    assert BucketOf(PruneClients(g.byClient, now, l.window), client) == Prune(BucketOf(g.byClient, client), now, l.window);
  }

  lemma CooldownRetryExact(g: GuardState, l: Limits, now: real, later: real)
    requires !CooldownPasses(g, l, now) && later >= now
    ensures var wait := Ceil(l.cooldown as real - (now - g.lastFinished.value));
            && wait >= 1
            && (later >= now + wait as real ==> CooldownPasses(g, l, later))
            && (later <= now + (wait - 1) as real ==> !CooldownPasses(g, l, later))
  {
    var left := l.cooldown as real - (now - g.lastFinished.value);
    CeilIsLeast(left, Ceil(left));
    CeilIsLeast(left, Ceil(left) - 1);
    CeilIsLeast(left, 0);
  }

  lemma RetryFromNow(r: Run, l: Limits, client: string, operation: string, token: string, later: real)
    requires RunOk(r, l) && l.client > 0 && l.global > 0 && !r.guard.active
    requires Begin(r.guard, l, client, operation, token, r.now).1.CapacityError?
    requires later >= r.now + Begin(r.guard, l, client, operation, token, r.now).1.retryAfter as real
    ensures var v := Begin(r.guard, l, client, operation, token, r.now).0;
            if !CooldownPasses(r.guard, l, r.now) then CooldownPasses(v, l, later)
            else if !ClientPasses(r.guard, l, client, r.now) then ClientPasses(v, l, client, later)
            else GlobalPasses(v, l, later)
  {
    var g, now := r.guard, r.now;
    RefusedByRate(g, l, client, operation, token, now);
    if !CooldownPasses(g, l, now) {
      CooldownRetryExact(g, l, now, later);
    } else if !ClientPasses(g, l, client, now) {
      assert ClientOk(r.admitted, g.byClient, now, l, client);
      BucketRetryExact(TimesOf(r.admitted, client), BucketOf(g.byClient, client), now, l.client, l.window, later);
    } else {
      BucketRetryExact(AllTimes(r.admitted), g.global, now, l.global, l.window, later);
    }
  }

  /** What a rate check announces, and the buckets it leaves. */
  lemma RefusedByRate(g: GuardState, l: Limits, client: string, operation: string, token: string, now: real)
    requires !g.active && Begin(g, l, client, operation, token, now).1.CapacityError?
    ensures var (v, o) := Begin(g, l, client, operation, token, now);
            if !CooldownPasses(g, l, now) then
              o.retryAfter >= Ceil(l.cooldown as real - (now - g.lastFinished.value)) && v.lastFinished == g.lastFinished
            else
              && BucketOf(v.byClient, client) == Prune(BucketOf(g.byClient, client), now, l.window)
              && v.global == Prune(g.global, now, l.window)
              && if !ClientPasses(g, l, client, now) then o.retryAfter >= RetryAfter(BucketOf(v.byClient, client), now, l.window)
                 else !GlobalPasses(g, l, now) && o.retryAfter >= RetryAfter(v.global, now, l.window)
  {
    assert BucketOf(PruneClients(g.byClient, now, l.window), client) == Prune(BucketOf(g.byClient, client), now, l.window);
  }

  /** Whatever is pending will have expired once its whole life is over. */
  lemma PendingExpires(issued: seq<Admission>, cs: map<string, Confirmation>, now: real, l: Limits, later: real)
    requires IssuedOk(issued, cs, l) && (forall i | i in issued :: i.at <= now) && later >= now + l.ttl as real
    ensures PruneConfirmations(cs, later) == map[]
  {
    forall t | t in cs ensures cs[t].expiresAt <= later {
      assert IsIssued(issued, l, t, cs[t]);
    }
  }

  lemma IssueIntoEmpty(g: GuardState, l: Limits, client: string, operation: string, token: string, now: real)
    requires PruneConfirmations(g.confirmations, now) == map[] && l.pending > 0 && l.globalPending > 0
    ensures Issue(g, l, client, operation, token, now).1.Admitted?
  {
    assert PendingOf(map[], client) == {};
  }

  lemma IssueRetryFromNow(r: Run, l: Limits, client: string, operation: string, token: string, later: real)
    requires RunOk(r, l) && l.pending > 0 && l.globalPending > 0
    requires Issue(r.guard, l, client, operation, token, r.now).1.CapacityError?
    requires later >= r.now + Issue(r.guard, l, client, operation, token, r.now).1.retryAfter as real
    ensures Issue(Issue(r.guard, l, client, operation, token, r.now).0, l, client, operation, token, later).1.Admitted?
  {
    var g := Issue(r.guard, l, client, operation, token, r.now).0;
    DropKeepsTokens(r.issued, r.admitted, r.guard.confirmations, r.now, l, g.confirmations);
    PendingExpires(r.issued, g.confirmations, r.now, l, later);
    IssueIntoEmpty(g, l, client, operation, token, later);
  }

  /** Time passing disturbs nothing. */
  lemma LaterIsOk(r: Run, l: Limits, now: real)
    requires RunOk(r, l) && r.now <= now
    ensures RunOk(r.(now := now), l)
  {
    LaterBuckets(r.admitted, r.guard.byClient, r.guard.global, r.now, now, l);
    LaterBucket(r.readAt, r.guard.readTimes, r.now, now, l.read, l.readWindow);
    LaterTokens(r.issued, r.admitted, r.guard.confirmations, r.now, now, l, r.guard.confirmations);
  }

  lemma RunIsOkLater(start: real, l: Limits, events: seq<Event>, now: real)
    requires InOrder(start, events) && RunAll(Start(start), l, events).now <= now
    ensures RunOk(RunAll(Start(start), l, events).(now := now), l)
  {
    RunIsOk(start, l, events);
    LaterIsOk(RunAll(Start(start), l, events), l, now);
  }

  /** Retry-After suffices, after every run and for a call at any later clock read:
      whichever of the three checks refused a confirmed mutation passes once the
      announced seconds are over, if nothing else happens meanwhile. */
  lemma RetryAfterSuffices(start: real, l: Limits, events: seq<Event>, client: string, operation: string, token: string, now: real, later: real)
    requires InOrder(start, events) && RunAll(Start(start), l, events).now <= now
    requires l.client > 0 && l.global > 0 && !RunAll(Start(start), l, events).guard.active
    requires var o := Begin(RunAll(Start(start), l, events).guard, l, client, operation, token, now).1;
             o.CapacityError? && later >= now + o.retryAfter as real
    ensures var g := RunAll(Start(start), l, events).guard;
            var v := Begin(g, l, client, operation, token, now).0;
            if !CooldownPasses(g, l, now) then CooldownPasses(v, l, later)
            else if !ClientPasses(g, l, client, now) then ClientPasses(v, l, client, later)
            else GlobalPasses(v, l, later)
  {
    RunIsOkLater(start, l, events, now);
    RetryFromNow(RunAll(Start(start), l, events).(now := now), l, client, operation, token, later);
  }

  ghost predicate OneCheckFails(g: GuardState, l: Limits, client: string, now: real) {
    && (CooldownPasses(g, l, now) || (ClientPasses(g, l, client, now) && GlobalPasses(g, l, now)))
    && (ClientPasses(g, l, client, now) || GlobalPasses(g, l, now))
  }

  lemma {:induction false} PruneAgain(samples: seq<real>, now: real, later: real, window: nat)
    requires now <= later
    ensures Prune(Prune(samples, now, window), later, window) == Prune(samples, later, window)
    ensures |Prune(samples, later, window)| <= |Prune(samples, now, window)| <= |samples|
    decreases |samples|
  {
    if samples != [] {
      PruneAgain(samples[1..], now, later, window);
    }
  }

  /** A refused mutation spends nothing: its confirmation stays, and every check sees
      at any later time what it would have seen without the attempt. */
  lemma RefusalSpendsNothing(g: GuardState, l: Limits, client: string, operation: string, token: string, now: real, later: real)
    requires !g.active && Begin(g, l, client, operation, token, now).1.CapacityError? && now <= later
    ensures var v := Begin(g, l, client, operation, token, now).0;
            && !v.active
            && (IsConfirmed(v, client, operation, token, later) <==> IsConfirmed(g, client, operation, token, later))
            && (CooldownPasses(v, l, later) <==> CooldownPasses(g, l, later))
            && (ClientPasses(v, l, client, later) <==> ClientPasses(g, l, client, later))
            && (GlobalPasses(v, l, later) <==> GlobalPasses(g, l, later))
  {
    RefusedByRate(g, l, client, operation, token, now);
    PruneAgain(BucketOf(g.byClient, client), now, later, l.window);
    PruneAgain(g.global, now, later, l.window);
  }

  /** So a mutation refused by the only check that failed is admitted when it is asked
      for again after the announced seconds, exactly if its confirmation lives until
      then and nothing else happens meanwhile. */
  lemma RetryIsAdmitted(start: real, l: Limits, events: seq<Event>, client: string, operation: string, token: string, now: real, later: real)
    requires InOrder(start, events) && RunAll(Start(start), l, events).now <= now
    requires l.client > 0 && l.global > 0 && !RunAll(Start(start), l, events).guard.active
    requires OneCheckFails(RunAll(Start(start), l, events).guard, l, client, now)
    requires var o := Begin(RunAll(Start(start), l, events).guard, l, client, operation, token, now).1;
             o.CapacityError? && later >= now + o.retryAfter as real
    ensures var g := RunAll(Start(start), l, events).guard;
            var v := Begin(g, l, client, operation, token, now).0;
            Begin(v, l, client, operation, token, later).1.Admitted? <==> IsConfirmed(g, client, operation, token, later)
  {
    var g := RunAll(Start(start), l, events).guard;
    var v := Begin(g, l, client, operation, token, now).0;
    RetryAfterSuffices(start, l, events, client, operation, token, now, later);
    RefusalSpendsNothing(g, l, client, operation, token, now, later);
    PruneAgain(BucketOf(g.byClient, client), now, later, l.window);
    PruneAgain(g.global, now, later, l.window);
    AdmittedExactly(v, l, client, operation, token, later);
  }

  /** The same for a plan read: it is admitted once the announced seconds are over. */
  lemma ReadRetrySuffices(start: real, l: Limits, events: seq<Event>, now: real, later: real)
    requires InOrder(start, events) && RunAll(Start(start), l, events).now <= now && l.read > 0
    requires var o := ConsumeRead(RunAll(Start(start), l, events).guard, l, now).1;
             o.CapacityError? && later >= now + o.retryAfter as real
    ensures ConsumeRead(ConsumeRead(RunAll(Start(start), l, events).guard, l, now).0, l, later).1.Admitted?
  {
    var r := RunAll(Start(start), l, events);
    RunIsOkLater(start, l, events, now);
    BucketRetryExact(r.readAt, r.guard.readTimes, now, l.read, l.readWindow, later);
  }

  /** The same for a confirmation request: everything pending will have expired. */
  lemma IssueRetrySuffices(start: real, l: Limits, events: seq<Event>, client: string, operation: string, token: string, now: real, later: real)
    requires InOrder(start, events) && RunAll(Start(start), l, events).now <= now && l.pending > 0 && l.globalPending > 0
    requires var o := Issue(RunAll(Start(start), l, events).guard, l, client, operation, token, now).1;
             o.CapacityError? && later >= now + o.retryAfter as real
    ensures var g := Issue(RunAll(Start(start), l, events).guard, l, client, operation, token, now).0;
            Issue(g, l, client, operation, token, later).1.Admitted?
  {
    RunIsOkLater(start, l, events, now);
    IssueRetryFromNow(RunAll(Start(start), l, events).(now := now), l, client, operation, token, later);
  }

  // --- what an attempt at a mutation leaves -------------------------------------------------

  ghost predicate Pending(g: GuardState, token: string, now: real) {
    token in g.confirmations && g.confirmations[token].expiresAt > now
  }

  /** Other confirmations stay as they are, except that expired ones go. */
  ghost predicate OthersStay(g: GuardState, v: GuardState, token: string, now: real) {
    forall t: string | t != token ::
      (t in v.confirmations <==> Pending(g, t, now)) && (t in v.confirmations ==> v.confirmations[t] == g.confirmations[t])
  }

  /** Every end of an attempt: not confirmed for this client and operation, it is told so
      and the token is gone; confirmed but refused, the token stays; admitted, the token
      is spent, the slot taken and the time counted, for the client and for all. */
  lemma BeginLeaves(g: GuardState, l: Limits, client: string, operation: string, token: string, now: real)
    ensures var (v, o) := Begin(g, l, client, operation, token, now);
            && OthersStay(g, v, token, now) && v.lastFinished == g.lastFinished && v.readTimes == g.readTimes
            && (o.ConfirmationError? <==> !IsConfirmed(g, client, operation, token, now))
            && (o.ConfirmationError? ==> token !in v.confirmations && v.active == g.active && v.byClient == g.byClient && v.global == g.global)
            && (o.CapacityError? ==>
                  token in v.confirmations && v.confirmations[token] == g.confirmations[token] && v.active == g.active)
            && (o.CapacityError? && g.active ==> o.retryAfter == 1 && v.byClient == g.byClient && v.global == g.global)
            && (o.Admitted? ==>
                  && token !in v.confirmations && v.active && !g.active
                  && v.global == Prune(g.global, now, l.window) + [now]
                  && BucketOf(v.byClient, client) == Prune(BucketOf(g.byClient, client), now, l.window) + [now]
                  && forall other | other != client ::
                       BucketOf(v.byClient, other) == Prune(BucketOf(g.byClient, other), now, l.window))
  {
    assert forall c :: BucketOf(PruneClients(g.byClient, now, l.window), c) == Prune(BucketOf(g.byClient, c), now, l.window);
  }

  /** Pruning keeps exactly what is inside the window, for samples in order of time. */
  lemma {:induction false} PruneMeans(samples: seq<real>, now: real, window: nat)
    requires forall i, j | 0 <= i < j < |samples| :: samples[i] <= samples[j]
    ensures var kept := Prune(samples, now, window);
            && |kept| <= |samples| && kept == samples[|samples| - |kept|..]
            && (forall i | 0 <= i < |samples| - |kept| :: samples[i] <= now - window as real)
            && (forall i | 0 <= i < |kept| :: kept[i] > now - window as real)
  {
    var k := PrunedSuffix(samples, now, window);
    forall i | k <= i < |samples| ensures samples[i] > now - window as real {
      assert samples[k] <= samples[i];
    }
  }

  // --- with the program's own limits -----------------------------------------------------------

  /** How many samples of the bucket lie in the window that ends now. */
  function Recent(bucket: seq<real>, now: real, window: nat): nat { |Prune(bucket, now, window)| }

  /** Confirmations: two minutes each, twenty for a client and two hundred in all. */
  lemma DefaultConfirmations(g: GuardState, client: string, operation: string, token: string, now: real)
    ensures var (v, o) := Issue(g, DEFAULTS, client, operation, token, now);
            var pending := set t | t in g.confirmations && g.confirmations[t].expiresAt > now;
            var own := set t | t in pending && g.confirmations[t].client == client;
            && v == g.(confirmations := v.confirmations)
            && (if |own| >= 20 || |pending| >= 200 then o == CapacityError(120) && v.confirmations.Keys == pending
                else o == Admitted && v.confirmations.Keys == pending + {token}
                     && v.confirmations[token] == Confirmation(client, operation, now + 120.0))
            && (forall t | t in v.confirmations && (t != token || o.CapacityError?) :: t in pending && v.confirmations[t] == g.confirmations[t])
  {
    var cs := PruneConfirmations(g.confirmations, now);
    var pending := set t | t in g.confirmations && g.confirmations[t].expiresAt > now;
    assert cs.Keys == pending && |cs| == |pending|;
    assert PendingOf(cs, client) == set t | t in pending && g.confirmations[t].client == client;
  }

  /** Mutations: one at a time, a second apart, twenty for a client and eighty in all in
      ten minutes; plan reads, a hundred and twenty in a minute. */
  lemma DefaultAnswers(g: GuardState, client: string, operation: string, token: string, now: real)
    ensures Begin(g, DEFAULTS, client, operation, token, now).1.Admitted? <==>
              && IsConfirmed(g, client, operation, token, now) && !g.active
              && (g.lastFinished.Some? ==> now - g.lastFinished.value >= 1.0)
              && Recent(BucketOf(g.byClient, client), now, 600) < 20 && Recent(g.global, now, 600) < 80
    ensures ConsumeRead(g, DEFAULTS, now).1.Admitted? <==> Recent(g.readTimes, now, 60) < 120
    ensures ConsumeRead(g, DEFAULTS, now).1.Admitted? ==>
              ConsumeRead(g, DEFAULTS, now).0 == g.(readTimes := Prune(g.readTimes, now, 60) + [now])
  {
    AdmittedExactly(g, DEFAULTS, client, operation, token, now);
  }

  /** A trusted mutation takes the slot if it is free; finishing frees it, remembering
      when, and does nothing if nothing was under way. */
  lemma SlotIsTakenAndFreed(g: GuardState, now: real)
    ensures BeginUnrestricted(g) == if g.active then (g, CapacityError(1)) else (g.(active := true), Admitted)
    ensures !Finish(g, now).active && (g.active ==> Finish(g, now).lastFinished == Some(now))
    ensures Finish(g, now) == g.(active := false, lastFinished := Finish(g, now).lastFinished)
    ensures !g.active ==> Finish(g, now) == g
  {
  }

  /** Whoever is refused for lack of room is told to wait for a second at least. */
  lemma WaitsAreASecondOrMore(g: GuardState, l: Limits, client: string, operation: string, token: string, now: real)
    ensures var o := Issue(g, l, client, operation, token, now).1; o.CapacityError? ==> o.retryAfter >= 1
    ensures var o := Begin(g, l, client, operation, token, now).1; o.CapacityError? ==> o.retryAfter >= 1
    ensures var o := ConsumeRead(g, l, now).1; o.CapacityError? ==> o.retryAfter >= 1
  {
  }

  /** The account of a run grows by exactly what the guard grants, call by call. */
  lemma GrantsAreRecorded(r: Run, l: Limits, e: Event)
    ensures var v := Step(r, l, e);
            && v.now == e.at
            && v.issued == r.issued + (if e.call.IssueCall? && Issue(r.guard, l, e.call.client, e.call.operation, e.call.token, e.at).1.Admitted?
                                       then [Admission(e.call.client, e.call.operation, e.call.token, e.at)] else [])
            && v.admitted == r.admitted + (if e.call.BeginCall? && Begin(r.guard, l, e.call.client, e.call.operation, e.call.token, e.at).1.Admitted?
                                           then [Admission(e.call.client, e.call.operation, e.call.token, e.at)] else [])
            && v.readAt == r.readAt + (if e.call.ReadCall? && ConsumeRead(r.guard, l, e.at).1.Admitted? then [e.at] else [])
            && v.finishes == r.finishes + (if e.call.FinishCall? && r.guard.active then [e.at] else [])
            && v.guard == (match e.call
                           case IssueCall(client, operation, token) => Issue(r.guard, l, client, operation, token, e.at).0
                           case BeginCall(client, operation, token) => Begin(r.guard, l, client, operation, token, e.at).0
                           case UnrestrictedCall => BeginUnrestricted(r.guard).0
                           case ReadCall => ConsumeRead(r.guard, l, e.at).0
                           case FinishCall => Finish(r.guard, e.at))
  {
  }
}
