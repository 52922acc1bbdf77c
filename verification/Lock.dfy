/** The lock around a path (app/locking.py), as steps that threads of several
    processes take in any order, and the ledger appends made under it.

    One path is modelled.  Each process has a re-entrant lock for it and each thread
    remembers whether it holds the path; the operating system grants one exclusive
    lock over all processes and takes it back when its holder's process dies. */
module Lock {
  import opened Ordering
  import opened Rights
  import opened Ledger

  datatype Thread = Thread(process: nat, id: nat)

  /** Where a thread is in `with file_lock(path)`: outside the code of the lock (in
      the section if its depth is positive), past the process lock, waiting for the
      system lock, past it, and, on the way out, before and after giving it back. */
  datatype Phase = Running | Acquired | Opening | Locked | Leaving | Unlocked | Dead

  /** `asked` is the body an append under way was given, `prepared` the entry it has
      made of it, `landed` the entry once it is in the file and not yet returned. */
  datatype ThreadState = ThreadState(phase: Phase, depth: nat, held: bool, asked: string, prepared: Option<LedgerEntry>, landed: Option<LedgerEntry>)

  datatype RLock = RLock(owner: Thread, count: nat)

  datatype State = State(
    locals: map<Thread, ThreadState>,
    rlocks: map<nat, RLock>,
    os: Option<Thread>,
    ledger: seq<LedgerEntry>,
    returned: seq<Returned>)

  /** An append that came back to its caller. */
  datatype Returned = Returned(thread: Thread, asked: string, entry: LedgerEntry)

  datatype Action =
    | Request | CheckHeld | TakeSystemLock | Enter
    | Leave | ReleaseSystemLock | ReleaseProcessLock
    | Prepare(body: string) | Commit | Return | Crash

  const IDLE := ThreadState(Running, 0, false, "", None, None)
  const DEAD := ThreadState(Dead, 0, false, "", None, None)

  predicate IsInside(s: State, t: Thread) { t in s.locals && s.locals[t].depth > 0 }

  function Update(s: State, t: Thread, x: ThreadState): State { s.(locals := s.locals[t := x]) }

  /** Give the process lock back once. */
  function Release(rlocks: map<nat, RLock>, p: nat): map<nat, RLock> {
    if p !in rlocks then rlocks
    else if rlocks[p].count <= 1 then rlocks - {p}
    else rlocks[p := RLock(rlocks[p].owner, rlocks[p].count - 1)]
  }

  /** One step of thread `t`, or nothing if it cannot take it now. */
  function Apply(hash: Hash, s: State, t: Thread, a: Action): Option<State>
    requires t in s.locals
  {
    var x, p := s.locals[t], t.process;
    match a
    case Request =>
      if !x.phase.Running? || (p in s.rlocks && s.rlocks[p].owner != t) then None
      else
        var count := if p in s.rlocks then s.rlocks[p].count + 1 else 1;
        Some(Update(s, t, x.(phase := Acquired)).(rlocks := s.rlocks[p := RLock(t, count)]))
    case CheckHeld =>
      if !x.phase.Acquired? then None
      else if x.held then Some(Update(s, t, x.(phase := Running, depth := x.depth + 1)))
      else Some(Update(s, t, x.(phase := Opening)))
    case TakeSystemLock =>
      if !x.phase.Opening? || s.os.Some? then None
      else Some(Update(s, t, x.(phase := Locked)).(os := Some(t)))
    case Enter =>
      if !x.phase.Locked? then None
      else Some(Update(s, t, x.(phase := Running, depth := 1, held := true)))
    case Leave =>
      if !x.phase.Running? || x.depth == 0 then None
      else if x.depth > 1 then
        Some(Update(s, t, x.(depth := x.depth - 1, prepared := None)).(rlocks := Release(s.rlocks, p)))
      else Some(Update(s, t, x.(phase := Leaving, depth := 0, held := false, prepared := None)))
    case ReleaseSystemLock =>
      if !x.phase.Leaving? then None
      else Some(Update(s, t, x.(phase := Unlocked)).(os := None))
    case ReleaseProcessLock =>
      if !x.phase.Unlocked? then None
      else Some(Update(s, t, x.(phase := Running)).(rlocks := Release(s.rlocks, p)))
    case Prepare(body) =>
      if !x.phase.Running? || x.depth == 0 || x.landed.Some? then None
      else Some(Update(s, t, x.(asked := body, prepared := Some(NextEntry(hash, s.ledger, body)))))
    case Commit =>
      if !x.phase.Running? || x.prepared.None? then None
      else
        Some(Update(s, t, x.(prepared := None, landed := x.prepared)).(ledger := s.ledger + [x.prepared.value]))
    case Return =>
      if !x.phase.Running? || x.landed.None? then None
      else
        Some(Update(s, t, x.(landed := None)).(returned := s.returned + [Returned(t, x.asked, x.landed.value)]))
    case Crash =>
      Some(s.(locals := map u | u in s.locals :: if u.process == p then DEAD else s.locals[u],
              rlocks := s.rlocks - {p},
              os := if s.os.Some? && s.os.value.process == p then None else s.os))
  }

  /** A schedule: who tries to take which step, in turn; a step that cannot be taken
      leaves everything as it is. */
  function Run(hash: Hash, s: State, schedule: seq<(Thread, Action)>): State
    decreases |schedule|
  {
    if schedule == [] then s
    else
      var (t, a) := schedule[0];
      var next := if t in s.locals then Apply(hash, s, t, a) else None;
      Run(hash, if next.Some? then next.value else s, schedule[1..])
  }

  ghost predicate IsInitial(s: State) {
    && (forall t | t in s.locals :: s.locals[t] == IDLE)
    && s.rlocks == map[] && s.os.None? && s.ledger == [] && s.returned == []
  }

  // --- the invariant ----------------------------------------------------------------------

  predicate HoldsSystemLock(x: ThreadState) { x.depth > 0 || x.phase.Locked? || x.phase.Leaving? }

  predicate HoldsProcessLock(x: ThreadState) { x.depth > 0 || !(x.phase.Running? || x.phase.Dead?) }

  predicate IsConsistent(x: ThreadState) {
    && (x.held <==> x.depth > 0)
    && (x.phase.Running? || x.phase.Acquired? || x.depth == 0)
    && (x.prepared.Some? ==> x.depth > 0 && x.landed.None?)
  }

  predicate OwnsProcessLock(rlocks: map<nat, RLock>, t: Thread, x: ThreadState) {
    if HoldsProcessLock(x) then
      t.process in rlocks && rlocks[t.process] == RLock(t, x.depth + if x.phase.Running? then 0 else 1)
    else t.process in rlocks ==> rlocks[t.process].owner != t
  }

  ghost predicate PreparedOk(hash: Hash, ledger: seq<LedgerEntry>, x: ThreadState) {
    x.prepared.Some? ==> x.prepared.value == NextEntry(hash, ledger, x.asked)
  }

  /** `e` stands in the ledger, where its number says. */
  ghost predicate IsFiled(ledger: seq<LedgerEntry>, e: LedgerEntry) {
    && e.contents.seqNo.Some? && 1 <= e.contents.seqNo.value <= |ledger|
    && ledger[e.contents.seqNo.value - 1] == e
  }

  ghost predicate LandedOk(s: State, x: ThreadState) {
    x.landed.Some? ==>
      && IsFiled(s.ledger, x.landed.value) && x.landed.value.contents.body == x.asked
      && forall i | 0 <= i < |s.returned| :: s.returned[i].entry != x.landed.value
  }

  ghost predicate ThreadOk(hash: Hash, s: State, t: Thread)
    requires t in s.locals
  {
    var x := s.locals[t];
    && IsConsistent(x) && OwnsProcessLock(s.rlocks, t, x)
    && (s.os == Some(t) <==> HoldsSystemLock(x))
    && PreparedOk(hash, s.ledger, x) && LandedOk(s, x)
  }

  ghost predicate LocksOk(s: State) {
    && (s.os.Some? ==> s.os.value in s.locals)
    && forall p | p in s.rlocks :: s.rlocks[p].owner in s.locals && s.rlocks[p].owner.process == p
  }

  /** What came back is filed, is what was asked for, and never came back twice. */
  ghost predicate ReturnedOk(s: State) {
    && (forall i | 0 <= i < |s.returned| ::
          IsFiled(s.ledger, s.returned[i].entry) && s.returned[i].entry.contents.body == s.returned[i].asked)
    && (forall i, j | 0 <= i < j < |s.returned| :: s.returned[i].entry != s.returned[j].entry)
  }

  /** No two threads wait to return the same entry. */
  ghost predicate LandedApart(s: State) {
    forall t, u | t in s.locals && u in s.locals && t != u && s.locals[t].landed.Some? :: s.locals[t].landed != s.locals[u].landed
  }

  ghost predicate StateOk(hash: Hash, s: State) {
    && (forall t | t in s.locals :: ThreadOk(hash, s, t)) && LocksOk(s)
    && IsChain(hash, s.ledger) && ReturnedOk(s) && LandedApart(s)
  }

  /** Threads other than `t` notice a step of `t` only through the locks. */
  ghost predicate OthersUntouched(s: State, v: State, t: Thread) {
    && v.locals.Keys == s.locals.Keys && t in s.locals
    && (forall u | u in s.locals && u != t :: v.locals[u] == s.locals[u])
    && (forall u: Thread | u != t :: v.os == Some(u) <==> s.os == Some(u))
    && (forall p | p in s.rlocks && s.rlocks[p].owner != t :: p in v.rlocks && v.rlocks[p] == s.rlocks[p])
    && (forall p | p in v.rlocks && v.rlocks[p].owner != t :: p in s.rlocks && v.rlocks[p] == s.rlocks[p])
  }

  lemma StepLeavesOthers(hash: Hash, s: State, t: Thread, a: Action)
    requires t in s.locals && OwnsProcessLock(s.rlocks, t, s.locals[t]) && (s.os == Some(t) <==> HoldsSystemLock(s.locals[t]))
    requires IsConsistent(s.locals[t]) && !a.Crash? && Apply(hash, s, t, a).Some?
    ensures OthersUntouched(s, Apply(hash, s, t, a).value, t)
  {
  }

  lemma StepKeepsOwn(hash: Hash, s: State, t: Thread, a: Action)
    requires t in s.locals && ThreadOk(hash, s, t) && !a.Crash? && Apply(hash, s, t, a).Some?
    requires ReturnedOk(s)
    ensures var v := Apply(hash, s, t, a).value; t in v.locals && ThreadOk(hash, v, t)
  {
    if a.Commit? { CommitFiles(hash, s, s.locals[t].prepared.value, s.locals[t].asked); }
  }

  lemma StepKeepsLocks(hash: Hash, s: State, t: Thread, a: Action)
    requires t in s.locals && LocksOk(s) && !a.Crash? && Apply(hash, s, t, a).Some?
    ensures LocksOk(Apply(hash, s, t, a).value)
  {
  }

  lemma StepKeepsLedger(hash: Hash, s: State, t: Thread, a: Action)
    requires t in s.locals && !a.Crash? && Apply(hash, s, t, a).Some?
    ensures !a.Commit? ==> Apply(hash, s, t, a).value.ledger == s.ledger
    ensures !a.Return? ==> Apply(hash, s, t, a).value.returned == s.returned
    ensures !a.Commit? && !a.Return? ==> Apply(hash, s, t, a).value.locals[t].landed == s.locals[t].landed
  {
  }

  lemma FiledStays(ledger: seq<LedgerEntry>, e: LedgerEntry, more: LedgerEntry)
    requires IsFiled(ledger, e)
    ensures IsFiled(ledger + [more], e)
  {
  }

  /** The next entry has a number nothing filed has. */
  lemma CommitFiles(hash: Hash, s: State, e: LedgerEntry, body: string)
    requires e == NextEntry(hash, s.ledger, body) && ReturnedOk(s)
    ensures IsFiled(s.ledger + [e], e) && e.contents.body == body
    ensures forall x | IsFiled(s.ledger, x) :: x != e
    ensures forall i | 0 <= i < |s.returned| :: s.returned[i].entry != e
  {
  }

  lemma StepKeepsReturned(hash: Hash, s: State, t: Thread, a: Action)
    requires t in s.locals && ThreadOk(hash, s, t) && ReturnedOk(s) && !a.Crash? && Apply(hash, s, t, a).Some?
    ensures ReturnedOk(Apply(hash, s, t, a).value)
  {
    StepKeepsLedger(hash, s, t, a);
    var v := Apply(hash, s, t, a).value;
    if a.Commit? {
      forall i | 0 <= i < |v.returned| ensures IsFiled(v.ledger, v.returned[i].entry) {
        FiledStays(s.ledger, s.returned[i].entry, s.locals[t].prepared.value);
      }
    }
  }

  lemma ApartKept(s: State, v: State, t: Thread)
    requires LandedApart(s) && OthersUntouched(s, v, t)
    requires v.locals[t].landed.Some? ==> forall u | u in s.locals && u != t :: s.locals[u].landed != v.locals[t].landed
    ensures LandedApart(v)
  {
  }

  lemma StepKeepsLandedApart(hash: Hash, s: State, v: State, t: Thread, a: Action)
    requires forall u | u in s.locals :: ThreadOk(hash, s, u)
    requires ReturnedOk(s) && LandedApart(s) && OthersUntouched(s, v, t) && !a.Crash? && Apply(hash, s, t, a) == Some(v)
    ensures LandedApart(v)
  {
    assert ThreadOk(hash, s, t);
    StepKeepsLedger(hash, s, t, a);
    if a.Commit? {
      CommitFiles(hash, s, s.locals[t].prepared.value, s.locals[t].asked);
      forall u | u in s.locals && u != t ensures s.locals[u].landed != v.locals[t].landed {
        assert ThreadOk(hash, s, u);
      }
    }
    ApartKept(s, v, t);
  }

  lemma StepKeepsThreads(hash: Hash, s: State, v: State, t: Thread, a: Action)
    requires forall u | u in s.locals :: ThreadOk(hash, s, u)
    requires ReturnedOk(s) && LandedApart(s) && OthersUntouched(s, v, t) && !a.Crash? && Apply(hash, s, t, a) == Some(v)
    ensures forall u | u in v.locals :: ThreadOk(hash, v, u)
  {
    assert ThreadOk(hash, s, t);
    StepKeepsOwn(hash, s, t, a);
    forall u | u in v.locals ensures ThreadOk(hash, v, u) {
      if u != t {
        assert ThreadOk(hash, s, u);
        OtherStaysOk(hash, s, v, t, a, u);
      }
    }
  }

  lemma StepKeeps(hash: Hash, s: State, t: Thread, a: Action)
    requires StateOk(hash, s) && t in s.locals && !a.Crash? && Apply(hash, s, t, a).Some?
    ensures StateOk(hash, Apply(hash, s, t, a).value)
  {
    var v := Apply(hash, s, t, a).value;
    assert ThreadOk(hash, s, t);
    StepKeepsLocks(hash, s, t, a);
    StepLeavesOthers(hash, s, t, a);
    StepKeepsThreads(hash, s, v, t, a);
    StepKeepsReturned(hash, s, t, a);
    StepKeepsLandedApart(hash, s, v, t, a);
    StepKeepsChain(hash, s, t, a);
  }

  lemma StepKeepsChain(hash: Hash, s: State, t: Thread, a: Action)
    requires t in s.locals && ThreadOk(hash, s, t) && IsChain(hash, s.ledger) && !a.Crash? && Apply(hash, s, t, a).Some?
    ensures IsChain(hash, Apply(hash, s, t, a).value.ledger)
  {
    StepKeepsLedger(hash, s, t, a);
    if a.Commit? {
      ChainGrows(hash, s.ledger, s.locals[t].prepared.value);
    }
  }

  /** Another thread is as it was, has prepared nothing if the ledger grew, and waits
      for something else if anything was returned. */
  lemma OtherStaysOk(hash: Hash, s: State, v: State, t: Thread, a: Action, u: Thread)
    requires t in s.locals && !a.Crash? && Apply(hash, s, t, a) == Some(v)
    requires OthersUntouched(s, v, t) && u in s.locals && u != t
    requires ThreadOk(hash, s, t) && ThreadOk(hash, s, u) && LandedApart(s)
    ensures ThreadOk(hash, v, u)
  {
    StepKeepsLedger(hash, s, t, a);
    if a.Commit? && s.locals[u].landed.Some? {
      FiledStays(s.ledger, s.locals[u].landed.value, s.locals[t].prepared.value);
    }
  }

  lemma CrashKeeps(hash: Hash, s: State, t: Thread)
    requires StateOk(hash, s) && t in s.locals
    ensures StateOk(hash, Apply(hash, s, t, Crash).value)
  {
    var v := Apply(hash, s, t, Crash).value;
    forall u | u in v.locals ensures ThreadOk(hash, v, u) {
      assert ThreadOk(hash, s, u);
    }
  }

  lemma {:induction false} RunKeeps(hash: Hash, s: State, schedule: seq<(Thread, Action)>)
    requires StateOk(hash, s)
    ensures StateOk(hash, Run(hash, s, schedule))
    decreases |schedule|
  {
    if schedule != [] {
      var (t, a) := schedule[0];
      var next := if t in s.locals then Apply(hash, s, t, a) else None;
      if next.Some? {
        if a.Crash? { CrashKeeps(hash, s, t); } else { StepKeeps(hash, s, t, a); }
      }
      RunKeeps(hash, if next.Some? then next.value else s, schedule[1..]);
    }
  }

  lemma ReachedIsOk(hash: Hash, s: State, schedule: seq<(Thread, Action)>)
    requires IsInitial(s)
    ensures StateOk(hash, Run(hash, s, schedule))
  {
    RunKeeps(hash, s, schedule);
  }

  // --- what that means ------------------------------------------------------------------------

  /** In every interleaving, crashes included, at most one thread of all processes is
      inside the section. */
  lemma AtMostOneInside(hash: Hash, s: State, schedule: seq<(Thread, Action)>, t: Thread, u: Thread)
    requires IsInitial(s)
    requires IsInside(Run(hash, s, schedule), t) && IsInside(Run(hash, s, schedule), u)
    ensures t == u
  {
    var v := Run(hash, s, schedule);
    ReachedIsOk(hash, s, schedule);
    assert ThreadOk(hash, v, t) && ThreadOk(hash, v, u);
  }

  /** How often `e` stands in the ledger. */
  function Occurrences(ledger: seq<LedgerEntry>, e: LedgerEntry): nat { multiset(ledger)[e] }

  lemma FiledOnce(hash: Hash, ledger: seq<LedgerEntry>, e: LedgerEntry)
    requires IsChain(hash, ledger) && IsFiled(ledger, e)
    ensures Occurrences(ledger, e) == 1
  {
    assert Distinct(ledger) by {
      forall i, j | 0 <= i < j < |ledger| ensures ledger[i] != ledger[j] {
        assert IsLinked(hash, ledger, i) && IsLinked(hash, ledger, j);
      }
    }
    DistinctByCount(ledger);
    assert e in multiset(ledger);
  }

  /** In every interleaving, crashes included: the ledger verifies, and every append
      that returned to its thread is in it exactly once, as it was asked for, under an
      entry of its own. */
  lemma AppendsFormOneChain(hash: Hash, s: State, schedule: seq<(Thread, Action)>)
    requires IsInitial(s)
    ensures var v := Run(hash, s, schedule);
            && IsChain(hash, v.ledger)
            && (forall i | 0 <= i < |v.returned| ::
                  Occurrences(v.ledger, v.returned[i].entry) == 1 && v.returned[i].entry.contents.body == v.returned[i].asked)
            && (forall i, j | 0 <= i < j < |v.returned| :: v.returned[i].entry != v.returned[j].entry)
  {
    ReachedIsOk(hash, s, schedule);
    var v := Run(hash, s, schedule);
    forall i | 0 <= i < |v.returned| ensures Occurrences(v.ledger, v.returned[i].entry) == 1 {
      FiledOnce(hash, v.ledger, v.returned[i].entry);
    }
  }

  /** The holder enters again without waiting for anybody and without touching the
      system lock, and leaving again leaves it inside, still holding the lock. */
  lemma ReentryIsFree(hash: Hash, s: State, schedule: seq<(Thread, Action)>, t: Thread)
    requires IsInitial(s)
    requires var v := Run(hash, s, schedule); IsInside(v, t) && v.locals[t].phase.Running?
    ensures ReentersFreely(hash, Run(hash, s, schedule), t)
  {
    ReachedIsOk(hash, s, schedule);
    assert ThreadOk(hash, Run(hash, s, schedule), t);
    HolderReenters(hash, Run(hash, s, schedule), t);
  }

  ghost predicate ReentersFreely(hash: Hash, v: State, t: Thread)
    requires t in v.locals
  {
    var w := Run(hash, v, [(t, Request), (t, CheckHeld)]);
    var z := Run(hash, w, [(t, Leave)]);
    && t in w.locals && w.locals[t] == v.locals[t].(depth := v.locals[t].depth + 1) && w.os == Some(t)
    && t in z.locals && z.locals[t] == v.locals[t].(prepared := None) && z.os == Some(t) && z.rlocks == v.rlocks
  }

  lemma HolderReenters(hash: Hash, v: State, t: Thread)
    requires t in v.locals && ThreadOk(hash, v, t) && v.locals[t].depth > 0 && v.locals[t].phase.Running?
    ensures ReentersFreely(hash, v, t)
  {
    var asked := Apply(hash, v, t, Request).value;
    var w := Apply(hash, asked, t, CheckHeld).value;
    var z := Apply(hash, w, t, Leave).value;
    RunOne(hash, v, t, Request, [(t, CheckHeld)]);
    RunOne(hash, asked, t, CheckHeld, []);
    RunOne(hash, w, t, Leave, []);
    assert z.rlocks == v.rlocks;
  }

  lemma RunOne(hash: Hash, s: State, t: Thread, a: Action, rest: seq<(Thread, Action)>)
    requires t in s.locals && Apply(hash, s, t, a).Some?
    ensures Run(hash, s, [(t, a)] + rest) == Run(hash, Apply(hash, s, t, a).value, rest)
    ensures Run(hash, s, []) == s
  {
    assert ([(t, a)] + rest)[1..] == rest;
  }

  /** Whoever holds the system lock can always take its next step, so a waiting thread
      waits only for a thread that can move. */
  lemma HolderCanMove(hash: Hash, s: State, schedule: seq<(Thread, Action)>)
    requires IsInitial(s) && Run(hash, s, schedule).os.Some?
    ensures var v := Run(hash, s, schedule);
            && v.os.value in v.locals
            && exists a: Action :: !a.Crash? && Apply(hash, v, v.os.value, a).Some?
  {
    var v := Run(hash, s, schedule);
    ReachedIsOk(hash, s, schedule);
    var t := v.os.value;
    assert ThreadOk(hash, v, t);
    var a := match v.locals[t].phase case Running => Leave case Acquired => CheckHeld case Locked => Enter case _ => ReleaseSystemLock;
    assert Apply(hash, v, t, a).Some?;
  }

  // --- that the steps do what they are for ---------------------------------------------------

  lemma RunTwo(hash: Hash, s: State, t: Thread, a: Action, b: Action, rest: seq<(Thread, Action)>)
    requires t in s.locals && Apply(hash, s, t, a).Some?
    requires t in Apply(hash, s, t, a).value.locals && Apply(hash, Apply(hash, s, t, a).value, t, b).Some?
    ensures Run(hash, s, [(t, a), (t, b)] + rest) == Run(hash, Apply(hash, Apply(hash, s, t, a).value, t, b).value, rest)
  {
    assert [(t, a), (t, b)] + rest == [(t, a)] + ([(t, b)] + rest);
    RunOne(hash, s, t, a, [(t, b)] + rest);
    RunOne(hash, Apply(hash, s, t, a).value, t, b, rest);
  }

  /** A thread that finds nobody in the way gets in, and has both locks. */
  lemma FreeThreadGetsIn(hash: Hash, s: State, t: Thread)
    requires t in s.locals && s.locals[t] == IDLE && t.process !in s.rlocks && s.os.None?
    ensures var v := Run(hash, s, [(t, Request), (t, CheckHeld), (t, TakeSystemLock), (t, Enter)]);
            && IsInside(v, t) && v.os == Some(t) && t.process in v.rlocks && v.rlocks[t.process].owner == t
            && v.ledger == s.ledger && v.returned == s.returned && v.locals == s.locals[t := IDLE.(depth := 1, held := true)]
  {
    var asked := Apply(hash, s, t, Request).value;
    var opening := Apply(hash, asked, t, CheckHeld).value;
    var got := Apply(hash, opening, t, TakeSystemLock).value;
    var v := Apply(hash, got, t, Enter).value;
    assert [(t, Request), (t, CheckHeld), (t, TakeSystemLock), (t, Enter)] == [(t, Request), (t, CheckHeld)] + [(t, TakeSystemLock), (t, Enter)];
    RunTwo(hash, s, t, Request, CheckHeld, [(t, TakeSystemLock), (t, Enter)]);
    assert [(t, TakeSystemLock), (t, Enter)] == [(t, TakeSystemLock), (t, Enter)] + [];
    RunTwo(hash, opening, t, TakeSystemLock, Enter, []);
    RunOne(hash, got, t, Enter, []);
    assert v.locals == s.locals[t := IDLE.(depth := 1, held := true)];
  }

  /** On its way out it gives both locks back. */
  lemma LastLeaverFreesAll(hash: Hash, s: State, t: Thread)
    requires t in s.locals && s.locals[t].phase.Running? && s.locals[t].depth == 1 && s.os == Some(t)
    requires t.process in s.rlocks && s.rlocks[t.process] == RLock(t, 1)
    ensures var v := Run(hash, s, [(t, Leave), (t, ReleaseSystemLock), (t, ReleaseProcessLock)]);
            && !IsInside(v, t) && v.os.None? && v.rlocks == s.rlocks - {t.process} && v.ledger == s.ledger && v.returned == s.returned
  {
    var leaving := Apply(hash, s, t, Leave).value;
    var unlocked := Apply(hash, leaving, t, ReleaseSystemLock).value;
    assert [(t, Leave), (t, ReleaseSystemLock), (t, ReleaseProcessLock)]
        == [(t, Leave), (t, ReleaseSystemLock)] + [(t, ReleaseProcessLock)];
    RunTwo(hash, s, t, Leave, ReleaseSystemLock, [(t, ReleaseProcessLock)]);
    assert [(t, ReleaseProcessLock)] == [(t, ReleaseProcessLock)] + [];
    RunOne(hash, unlocked, t, ReleaseProcessLock, []);
  }

  /** An append by a thread inside adds one entry, the next of the chain with the body
      asked for, and comes back with it. */
  lemma HolderAppends(hash: Hash, s: State, t: Thread, body: string)
    requires t in s.locals && s.locals[t].phase.Running? && s.locals[t].depth > 0 && s.locals[t].landed.None?
    ensures var v := Run(hash, s, [(t, Prepare(body)), (t, Commit), (t, Return)]);
            var e := NextEntry(hash, s.ledger, body);
            && e.contents.body == body && e.contents.seqNo == Some(|s.ledger| + 1)
            && v.ledger == s.ledger + [e] && v.returned == s.returned + [Returned(t, body, e)]
            && v.os == s.os && v.rlocks == s.rlocks && t in v.locals && v.locals[t].depth == s.locals[t].depth
  {
    var prepared := Apply(hash, s, t, Prepare(body)).value;
    var committed := Apply(hash, prepared, t, Commit).value;
    assert [(t, Prepare(body)), (t, Commit), (t, Return)] == [(t, Prepare(body)), (t, Commit)] + [(t, Return)];
    RunTwo(hash, s, t, Prepare(body), Commit, [(t, Return)]);
    assert [(t, Return)] == [(t, Return)] + [];
    RunOne(hash, committed, t, Return, []);
  }
}
