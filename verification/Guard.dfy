/** Bounded mutation controls of the anonymous demo (app/demo_guard.py).

    Times are real numbers in seconds.  Each operation is given the time its clock
    read returned; calls are serialised by the guard's lock. */
module Guard {
  import opened Rights

  datatype Confirmation = Confirmation(client: string, operation: string, expiresAt: real)

  datatype GuardState = GuardState(
    confirmations: map<string, Confirmation>,
    byClient: map<string, seq<real>>,
    global: seq<real>,
    readTimes: seq<real>,
    active: bool,
    lastFinished: Option<real>)

  const INITIAL := GuardState(map[], map[], [], [], false, None)

  /** The arguments the program gives defaults for. */
  datatype Limits = Limits(
    ttl: nat, pending: nat, globalPending: nat,
    client: nat, global: nat, cooldown: nat, window: nat,
    read: nat, readWindow: nat)

  const DEFAULTS := Limits(120, 20, 200, 20, 80, 1, 600, 120, 60)

  datatype Outcome = Admitted | ConfirmationError | CapacityError(retryAfter: int)

  /** DemoCapacityError never asks for less than a second. */
  function Busy(seconds: int): Outcome { CapacityError(if seconds < 1 then 1 else seconds) }

  function Ceil(x: real): int { -((-x).Floor) }

  lemma CeilIsLeast(x: real, n: int)
    ensures x <= n as real <==> Ceil(x) <= n
  {
  }

  // --- the operations on values --------------------------------------------------------

  function Prune(samples: seq<real>, now: real, window: nat): seq<real> {
    if samples != [] && samples[0] <= now - window as real then Prune(samples[1..], now, window) else samples
  }

  function RetryAfter(samples: seq<real>, now: real, window: nat): int {
    if samples == [] then 1
    else
      var wait := Ceil(window as real - (now - samples[0]));
      if wait < 1 then 1 else wait
  }

  function PruneConfirmations(cs: map<string, Confirmation>, now: real): map<string, Confirmation> {
    map token | token in cs && cs[token].expiresAt > now :: cs[token]
  }

  function PruneClients(byClient: map<string, seq<real>>, now: real, window: nat): map<string, seq<real>> {
    map c | c in byClient && Prune(byClient[c], now, window) != [] :: Prune(byClient[c], now, window)
  }

  function BucketOf(byClient: map<string, seq<real>>, client: string): seq<real> {
    if client in byClient then byClient[client] else []
  }

  function PendingOf(cs: map<string, Confirmation>, client: string): set<string> {
    set token | token in cs && cs[token].client == client
  }

  function Issue(g: GuardState, l: Limits, client: string, operation: string, token: string, now: real): (GuardState, Outcome) {
    var cs := PruneConfirmations(g.confirmations, now);
    if |PendingOf(cs, client)| >= l.pending || |cs| >= l.globalPending then (g.(confirmations := cs), Busy(l.ttl))
    else (g.(confirmations := cs[token := Confirmation(client, operation, now + l.ttl as real)]), Admitted)
  }

  function Begin(g: GuardState, l: Limits, client: string, operation: string, token: string, now: real): (GuardState, Outcome) {
    var cs := PruneConfirmations(g.confirmations, now);
    if token !in cs || cs[token].client != client || cs[token].operation != operation then
      (g.(confirmations := cs - {token}), ConfirmationError)
    else if g.active then (g.(confirmations := cs), Busy(1))
    else if g.lastFinished.Some? && l.cooldown as real - (now - g.lastFinished.value) > 0.0 then
      (g.(confirmations := cs), Busy(Ceil(l.cooldown as real - (now - g.lastFinished.value))))
    else
      var buckets := PruneClients(g.byClient, now, l.window);
      var samples := BucketOf(buckets, client);
      var global := Prune(g.global, now, l.window);
      var pruned := g.(confirmations := cs, byClient := buckets[client := samples], global := global);
      if |samples| >= l.client then (pruned, Busy(RetryAfter(samples, now, l.window)))
      else if |global| >= l.global then (pruned, Busy(RetryAfter(global, now, l.window)))
      else
        (pruned.(confirmations := cs - {token}, byClient := buckets[client := samples + [now]],
                 global := global + [now], active := true), Admitted)
  }

  function BeginUnrestricted(g: GuardState): (GuardState, Outcome) {
    if g.active then (g, Busy(1)) else (g.(active := true), Admitted)
  }

  function ConsumeRead(g: GuardState, l: Limits, now: real): (GuardState, Outcome) {
    var kept := Prune(g.readTimes, now, l.readWindow);
    if |kept| >= l.read then (g.(readTimes := kept), Busy(RetryAfter(kept, now, l.readWindow)))
    else (g.(readTimes := kept + [now]), Admitted)
  }

  function Finish(g: GuardState, now: real): GuardState {
    if g.active then g.(lastFinished := Some(now), active := false) else g
  }

  // --- the guard itself -------------------------------------------------------------------

  class DemoMutationGuard {
    var confirmations: map<string, Confirmation>
    var byClient: map<string, seq<real>>
    var global: seq<real>
    var readTimes: seq<real>
    var active: bool
    var lastFinished: Option<real>

    constructor ()
      ensures State() == INITIAL
    {
      confirmations, byClient, global, readTimes, active, lastFinished := map[], map[], [], [], false, None;
    }

    function State(): GuardState
      reads this
    {
      GuardState(confirmations, byClient, global, readTimes, active, lastFinished)
    }

    method PruneSamples(samples: seq<real>, now: real, window: nat) returns (kept: seq<real>)
      ensures kept == Prune(samples, now, window)
    {
      kept := samples;
      var cutoff := now - window as real;
      while kept != [] && kept[0] <= cutoff
        invariant Prune(kept, now, window) == Prune(samples, now, window)
      {
        kept := kept[1..];
      }
    }

    method PruneExpired(now: real)
      modifies this`confirmations
      ensures confirmations == PruneConfirmations(old(confirmations), now)
    {
      ghost var before := confirmations;
      var expired := set token | token in confirmations && confirmations[token].expiresAt <= now;
      while expired != {}
        invariant expired <= set token | token in before && before[token].expiresAt <= now
        invariant confirmations.Keys <= before.Keys && forall t | t in confirmations :: confirmations[t] == before[t]
        invariant forall t | t in before && t !in confirmations :: before[t].expiresAt <= now
        invariant forall t | t in confirmations && before[t].expiresAt <= now :: t in expired
        decreases |expired|
      {
        var token :| token in expired;
        confirmations := confirmations - {token};
        expired := expired - {token};
      }
    }

    method PruneClientBuckets(now: real, window: nat)
      modifies this`byClient
      ensures byClient == PruneClients(old(byClient), now, window)
    {
      ghost var before := byClient;
      var todo := byClient.Keys;
      var kept: map<string, seq<real>> := map[];
      while todo != {}
        invariant todo <= before.Keys && byClient == before
        invariant kept == PruneClients(map c | c in before && c !in todo :: before[c], now, window)
        decreases |todo|
      {
        var client :| client in todo;
        var samples := PruneSamples(byClient[client], now, window);
        if samples != [] {
          kept := kept[client := samples];
        }
        todo := todo - {client};
      }
      assert before == map c | c in before && c !in todo :: before[c];
      byClient := kept;
    }

    method IssueConfirmation(l: Limits, client: string, operation: string, token: string, now: real) returns (outcome: Outcome)
      modifies this
      ensures (State(), outcome) == Issue(old(State()), l, client, operation, token, now)
    {
      PruneExpired(now);
      var pending := set t | t in confirmations && confirmations[t].client == client;
      if |pending| >= l.pending || |confirmations| >= l.globalPending {
        return Busy(l.ttl);
      }
      confirmations := confirmations[token := Confirmation(client, operation, now + l.ttl as real)];
      return Admitted;
    }

    method BeginPublic(l: Limits, client: string, operation: string, token: string, now: real) returns (outcome: Outcome)
      modifies this
      ensures (State(), outcome) == Begin(old(State()), l, client, operation, token, now)
    {
      PruneExpired(now);
      if token !in confirmations || confirmations[token].client != client || confirmations[token].operation != operation {
        confirmations := confirmations - {token};
        return ConfirmationError;
      }
      if active {
        return Busy(1);
      }
      if lastFinished.Some? {
        var remaining := l.cooldown as real - (now - lastFinished.value);
        if remaining > 0.0 {
          return Busy(Ceil(remaining));
        }
      }
      PruneClientBuckets(now, l.window);
      global := PruneSamples(global, now, l.window);
      var samples := if client in byClient then byClient[client] else [];
      ghost var buckets := byClient;
      byClient := byClient[client := samples];
      if |samples| >= l.client {
        return Busy(RetryAfter(samples, now, l.window));
      }
      if |global| >= l.global {
        return Busy(RetryAfter(global, now, l.window));
      }
      confirmations := confirmations - {token};
      assert byClient[client := samples + [now]] == buckets[client := samples + [now]];
      byClient := byClient[client := samples + [now]];
      global := global + [now];
      active := true;
      return Admitted;
    }

    method BeginTrusted() returns (outcome: Outcome)
      modifies this`active
      ensures (State(), outcome) == BeginUnrestricted(old(State()))
    {
      if active {
        return Busy(1);
      }
      active := true;
      return Admitted;
    }

    method ReadPlan(l: Limits, now: real) returns (outcome: Outcome)
      modifies this`readTimes
      ensures (State(), outcome) == ConsumeRead(old(State()), l, now)
    {
      readTimes := PruneSamples(readTimes, now, l.readWindow);
      if |readTimes| >= l.read {
        return Busy(RetryAfter(readTimes, now, l.readWindow));
      }
      readTimes := readTimes + [now];
      return Admitted;
    }

    method Release(now: real)
      modifies this`active, this`lastFinished
      ensures State() == Finish(old(State()), now)
    {
      if active {
        lastFinished := Some(now);
        active := false;
      }
    }
  }
}
