/**
  Concurrent wake requests (internal/ondemand/ondemand.go): any number of callers
  run WakeContainer step by step while containers are started and stopped from
  outside.  The per-container wake lock makes check-then-start safe.
  */
module WakeProtocol {
  import opened LockTable

  /** Where a caller is in WakeContainer; the last four hold the lock. */
  datatype Phase =
    | Fetching
    | Waiting(wanted: LockId)
    | Locked(lock: LockId)
    | Looking(lock: LockId)
    | SeenStopped(lock: LockId)
    | Leaving(lock: LockId)
    | Returned

  datatype Caller = Caller(container: string, phase: Phase)

  /** `starts` and `stops` count, per container, successful wake starts and running-to-stopped transitions. */
  datatype State = State(
    callers: map<Actor, Caller>,
    locks: Locks,
    running: set<string>,
    starts: multiset<string>,
    stops: multiset<string>)

  datatype Step =
    | Call(a: Actor, container: string)
    | FetchLock(a: Actor)
    | Acquire(a: Actor)
    | LookUp(a: Actor, watched: bool)
    | CheckRunning(a: Actor, failed: bool)
    | StartContainer(a: Actor, failed: bool)
    | Unlock(a: Actor)
    | OutsideStart(container: string)
    | OutsideStop(container: string)

  predicate Holding(p: Phase) { p.Locked? || p.Looking? || p.SeenStopped? || p.Leaving? }

  predicate HasLock(p: Phase) { p.Waiting? || Holding(p) }

  function LockOf(p: Phase): LockId
    requires HasLock(p)
  {
    if p.Waiting? then p.wanted else p.lock
  }

  /** A caller's container has been fetched from the lock table or not yet; `Moved` changes its phase. */
  function Moved(s: State, a: Actor, p: Phase): State
    requires a in s.callers
  {
    s.(callers := s.callers[a := s.callers[a].(phase := p)])
  }

  predicate Enabled(s: State, step: Step) {
    match step
    case Call(a, _) => a !in s.callers
    case FetchLock(a) => a in s.callers && s.callers[a].phase.Fetching?
    case Acquire(a) => a in s.callers && s.callers[a].phase.Waiting? && s.callers[a].phase.wanted !in s.locks.owner
    case LookUp(a, _) => a in s.callers && s.callers[a].phase.Locked?
    case CheckRunning(a, _) => a in s.callers && s.callers[a].phase.Looking?
    case StartContainer(a, _) => a in s.callers && s.callers[a].phase.SeenStopped?
    case Unlock(a) => a in s.callers && s.callers[a].phase.Leaving?
    case OutsideStart(_) => true
    case OutsideStop(_) => true
  }

  function Next(s: State, step: Step): State
    requires Enabled(s, step)
  {
    match step
    case Call(a, c) => s.(callers := s.callers[a := Caller(c, Fetching)])
    case FetchLock(a) =>
      var (locks, k) := GetOrCreate(s.locks, s.callers[a].container);
      Moved(s, a, Waiting(k)).(locks := locks)
    case Acquire(a) =>
      var k := s.callers[a].phase.wanted;
      Moved(s, a, Locked(k)).(locks := Acquired(s.locks, k, a))
    case LookUp(a, watched) =>
      var k := s.callers[a].phase.lock;
      Moved(s, a, if watched then Looking(k) else Leaving(k))
    case CheckRunning(a, failed) =>
      var k := s.callers[a].phase.lock;
      Moved(s, a, if failed || s.callers[a].container in s.running then Leaving(k) else SeenStopped(k))
    case StartContainer(a, failed) =>
      var k, c := s.callers[a].phase.lock, s.callers[a].container;
      if failed then Moved(s, a, Leaving(k))
      else Moved(s, a, Leaving(k)).(running := s.running + {c}, starts := s.starts + multiset{c})
    case Unlock(a) => Moved(s, a, Returned).(locks := Released(s.locks, s.callers[a].phase.lock))
    case OutsideStart(c) => s.(running := s.running + {c})
    case OutsideStop(c) =>
      if c in s.running then s.(running := s.running - {c}, stops := s.stops + multiset{c}) else s
  }

  ghost predicate Initial(s: State) {
    s.callers == map[] && s.locks == Locks(map[], map[], 0) && s.starts == multiset{} && s.stops == multiset{}
  }

  /** A caller that has a lock has its container's. */
  ghost predicate RightLocks(s: State) {
    forall a :: a in s.callers && HasLock(s.callers[a].phase) ==>
      s.callers[a].container in s.locks.names && s.locks.names[s.callers[a].container] == LockOf(s.callers[a].phase)
  }

  /** A caller between lock and unlock owns its lock... */
  ghost predicate HoldersOwn(s: State) {
    forall a :: a in s.callers && Holding(s.callers[a].phase) ==>
      s.callers[a].phase.lock in s.locks.owner && s.locks.owner[s.callers[a].phase.lock] == a
  }

  /** ...and no one else owns any. */
  ghost predicate OwnersHold(s: State) {
    forall k :: k in s.locks.owner ==>
      s.locks.owner[k] in s.callers && Holding(s.callers[s.locks.owner[k]].phase) && s.callers[s.locks.owner[k]].phase.lock == k
  }

  /** Phases and lock table agree. */
  ghost predicate LocksAgree(s: State) {
    WellFormed(s.locks) && RightLocks(s) && HoldersOwn(s) && OwnersHold(s)
  }

  /**
    Wake starts are paid for by stops, with one in credit while the container runs; a
    caller that saw it stopped has the credit back.
    */
  ghost predicate StartsPaid(s: State) {
    && (forall c :: s.starts[c] <= s.stops[c] + if c in s.running then 1 else 0)
    && (forall a :: a in s.callers && s.callers[a].phase.SeenStopped? ==>
          s.starts[s.callers[a].container] <= s.stops[s.callers[a].container])
  }

  ghost predicate Inv(s: State) { LocksAgree(s) && StartsPaid(s) }

  lemma FetchKeeps(s: State, a: Actor)
    requires LocksAgree(s) && Enabled(s, FetchLock(a))
    ensures LocksAgree(Next(s, FetchLock(a)))
  {
    hide WellFormed, GetOrCreate;
    GetOrCreateStable(s.locks, s.callers[a].container);
    var s' := Next(s, FetchLock(a));
    forall b | b in s'.callers && Holding(s'.callers[b].phase) ensures s'.callers[b] == s.callers[b] && b != a {
    }
  }

  lemma AcquireKeeps(s: State, a: Actor)
    requires LocksAgree(s) && Enabled(s, Acquire(a))
    ensures LocksAgree(Next(s, Acquire(a)))
  {
    var k := s.callers[a].phase.wanted;
    var callers, locks := s.callers[a := s.callers[a].(phase := Locked(k))], Acquired(s.locks, k, a);
    assert s.locks.names[s.callers[a].container] == k;
    AcquiredWellFormed(s.locks, s.callers[a].container, a);
    RightAfterMove(s, a, Locked(k), callers, locks);
    AcquireLeavesOwners(s, a, k, callers, locks);
    hide WellFormed, RightLocks, HoldersOwn, OwnersHold;
  }

  lemma AcquireLeavesOwners(s: State, a: Actor, k: LockId, callers: map<Actor, Caller>, locks: Locks)
    requires HoldersOwn(s) && OwnersHold(s) && a in s.callers && s.callers[a].phase == Waiting(k) && k !in s.locks.owner
    requires callers == s.callers[a := s.callers[a].(phase := Locked(k))] && locks.owner == s.locks.owner[k := a]
    ensures HoldersOwn(s.(callers := callers, locks := locks)) && OwnersHold(s.(callers := callers, locks := locks))
  {
    forall b | b in callers && Holding(callers[b].phase)
      ensures callers[b].phase.lock in locks.owner && locks.owner[callers[b].phase.lock] == b
    {
      if b != a { assert callers[b] == s.callers[b]; }
    }
  }

  /** A caller that keeps its lock, or lets go of it, leaves all locks right. */
  lemma RightAfterMove(s: State, a: Actor, p: Phase, callers: map<Actor, Caller>, locks: Locks)
    requires RightLocks(s) && a in s.callers && callers == s.callers[a := s.callers[a].(phase := p)]
    requires HasLock(p) ==> HasLock(s.callers[a].phase) && LockOf(p) == LockOf(s.callers[a].phase)
    requires locks.names == s.locks.names
    ensures RightLocks(s.(callers := callers, locks := locks))
  {
  }

  lemma UnlockKeeps(s: State, a: Actor)
    requires LocksAgree(s) && Enabled(s, Unlock(a))
    ensures LocksAgree(Next(s, Unlock(a)))
  {
    var k := s.callers[a].phase.lock;
    var callers, locks := s.callers[a := s.callers[a].(phase := Returned)], Released(s.locks, k);
    ReleasedWellFormed(s.locks, k);
    RightAfterMove(s, a, Returned, callers, locks);
    UnlockLeavesOwners(s, a, k, callers, locks);
    hide WellFormed, RightLocks, HoldersOwn, OwnersHold;
  }

  lemma UnlockLeavesOwners(s: State, a: Actor, k: LockId, callers: map<Actor, Caller>, locks: Locks)
    requires HoldersOwn(s) && OwnersHold(s) && a in s.callers && Holding(s.callers[a].phase) && s.callers[a].phase.lock == k
    requires callers == s.callers[a := s.callers[a].(phase := Returned)] && locks.owner == s.locks.owner - {k}
    ensures HoldersOwn(s.(callers := callers, locks := locks)) && OwnersHold(s.(callers := callers, locks := locks))
  {
    forall b | b in callers && Holding(callers[b].phase)
      ensures callers[b].phase.lock in locks.owner && locks.owner[callers[b].phase.lock] == b
    {
      assert b != a && callers[b] == s.callers[b];
    }
  }

  /** Moving on while holding the same lock. */
  lemma MovingKeeps(s: State, a: Actor, p: Phase, running: set<string>, starts: multiset<string>)
    requires LocksAgree(s) && a in s.callers && Holding(s.callers[a].phase) && Holding(p) && p.lock == s.callers[a].phase.lock
    ensures LocksAgree(Moved(s, a, p).(running := running, starts := starts))
  {
  }

  lemma LocksStep(s: State, step: Step)
    requires LocksAgree(s) && Enabled(s, step)
    ensures LocksAgree(Next(s, step))
  {
    hide LocksAgree;
    match step
    case Call(a, c) => CallKeeps(s, a, c);
    case FetchLock(a) => FetchKeeps(s, a);
    case Acquire(a) => AcquireKeeps(s, a);
    case LookUp(a, _) => MovingKeeps(s, a, Next(s, step).callers[a].phase, s.running, s.starts);
    case CheckRunning(a, _) => MovingKeeps(s, a, Next(s, step).callers[a].phase, s.running, s.starts);
    case StartContainer(a, _) =>
      MovingKeeps(s, a, Next(s, step).callers[a].phase, Next(s, step).running, Next(s, step).starts);
    case Unlock(a) => UnlockKeeps(s, a);
    case OutsideStart(c) => OutsideKeeps(s, s.running + {c}, s.stops);
    case OutsideStop(c) => OutsideKeeps(s, Next(s, step).running, Next(s, step).stops);
  }

  lemma CallKeeps(s: State, a: Actor, c: string)
    requires LocksAgree(s) && a !in s.callers
    ensures LocksAgree(s.(callers := s.callers[a := Caller(c, Fetching)]))
  {
  }

  lemma OutsideKeeps(s: State, running: set<string>, stops: multiset<string>)
    requires LocksAgree(s)
    ensures LocksAgree(s.(running := running, stops := stops))
  {
  }

  lemma StartsStep(s: State, step: Step)
    requires Inv(s) && Enabled(s, step)
    ensures StartsPaid(Next(s, step))
  {
    if step.StartContainer? && !step.failed {
      var a := step.a;
      var c := s.callers[a].container;
      forall b | b in s.callers && b != a && s.callers[b].phase.SeenStopped? ensures s.callers[b].container != c {
        AtMostOneHolder(s, a, b);
      }
    }
  }

  /** At most one caller per container is between lock and unlock. */
  lemma AtMostOneHolder(s: State, a: Actor, b: Actor)
    requires LocksAgree(s) && a in s.callers && b in s.callers && a != b
    requires Holding(s.callers[a].phase) && Holding(s.callers[b].phase)
    ensures s.callers[a].container != s.callers[b].container
  {
  }

  ghost predicate OneHolderEach(s: State) {
    forall a, b | a in s.callers && b in s.callers && a != b && Holding(s.callers[a].phase) && Holding(s.callers[b].phase) ::
      s.callers[a].container != s.callers[b].container
  }

  /** A run: every state follows from the previous one by an enabled step. */
  ghost predicate IsRun(run: seq<State>, steps: seq<Step>) {
    && |run| == |steps| + 1 && Initial(run[0])
    && (forall k :: 0 <= k < |steps| ==> Enabled(run[k], steps[k]) && run[k + 1] == Next(run[k], steps[k]))
  }

  lemma {:induction false} InvHolds(run: seq<State>, steps: seq<Step>, k: nat)
    requires IsRun(run, steps) && k < |run|
    ensures Inv(run[k])
  {
    if k > 0 {
      InvHolds(run, steps, k - 1);
      LocksStep(run[k - 1], steps[k - 1]);
      StartsStep(run[k - 1], steps[k - 1]);
    }
  }

  /**
    Wake serialisation: in every state of every run, for each container, no two
    callers are between lock and unlock, and the successful wake starts are at most
    one more than the running-to-stopped transitions (no more at all while it is
    stopped).
    */
  lemma WakesAreSerialised(run: seq<State>, steps: seq<Step>, k: nat)
    requires IsRun(run, steps) && k < |run|
    ensures OneHolderEach(run[k])
    ensures forall c :: run[k].starts[c] <= 1 + run[k].stops[c]
    ensures forall c :: c !in run[k].running ==> run[k].starts[c] <= run[k].stops[c]
  {
    InvHolds(run, steps, k);
    forall a, b | a in run[k].callers && b in run[k].callers && a != b
                  && Holding(run[k].callers[a].phase) && Holding(run[k].callers[b].phase)
      ensures run[k].callers[a].container != run[k].callers[b].container
    {
      AtMostOneHolder(run[k], a, b);
    }
  }

  /** At this moment the caller holds its lock, and its container runs or does not. */
  ghost predicate UnderLock(s: State, a: Actor, runs: bool) {
    a in s.callers && Holding(s.callers[a].phase) && (s.callers[a].container in s.running <==> runs)
  }

  /** The container is watched, and no call of the wake fails, in the first `k` steps. */
  ghost predicate Unfailing(steps: seq<Step>, a: Actor, k: nat)
    requires k <= |steps|
  {
    forall i :: 0 <= i < k ==>
      steps[i] != LookUp(a, false) && steps[i] != CheckRunning(a, true) && steps[i] != StartContainer(a, true)
  }

  /**
    What a wake does: one that meets no failure has, when it leaves, seen its container
    running under its lock, if need be because it started it; and it only starts a
    container that it found stopped under the same lock.
    */
  lemma {:induction false} WakeLeavesItRunning(run: seq<State>, steps: seq<Step>, a: Actor, k: nat)
    requires IsRun(run, steps) && k < |run| && a in run[k].callers && Unfailing(steps, a, k)
    ensures run[k].callers[a].phase.Leaving? || run[k].callers[a].phase.Returned? ==>
      exists i :: 0 <= i <= k && UnderLock(run[i], a, true)
    ensures run[k].callers[a].phase.SeenStopped? ==> exists i :: 0 <= i < k && UnderLock(run[i], a, false)
    ensures k > 0 && steps[k - 1] == StartContainer(a, false) ==> run[k].callers[a].container in run[k].running
  {
    hide GetOrCreate, Acquired, Released;
    if k > 0 {
      assert run[k] == Next(run[k - 1], steps[k - 1]) && Enabled(run[k - 1], steps[k - 1]);
      if a in run[k - 1].callers {
        WakeLeavesItRunning(run, steps, a, k - 1);
        if steps[k - 1].CheckRunning? && steps[k - 1].a == a {
          assert UnderLock(run[k - 1], a, true) || UnderLock(run[k - 1], a, false);
        }
        if steps[k - 1] == StartContainer(a, false) { assert UnderLock(run[k], a, true); }
      }
    }
  }

  /** No reachable state is stuck: while a caller has not returned, some caller can take a step. */
  lemma WakesNeverDeadlock(run: seq<State>, steps: seq<Step>, k: nat, a: Actor)
    requires IsRun(run, steps) && k < |run| && a in run[k].callers && !run[k].callers[a].phase.Returned?
    ensures exists step: Step :: Enabled(run[k], step) && !step.Call? && !step.OutsideStart? && !step.OutsideStop?
  {
    InvHolds(run, steps, k);
    var s := run[k];
    var b := if s.callers[a].phase.Waiting? && s.callers[a].phase.wanted in s.locks.owner
      then s.locks.owner[s.callers[a].phase.wanted] else a;
    match s.callers[b].phase
    case Fetching => assert Enabled(s, FetchLock(b));
    case Waiting(_) => assert Enabled(s, Acquire(b));
    case Locked(_) => assert Enabled(s, LookUp(b, true));
    case Looking(_) => assert Enabled(s, CheckRunning(b, false));
    case SeenStopped(_) => assert Enabled(s, StartContainer(b, false));
    case Leaving(_) => assert Enabled(s, Unlock(b));
  }
}
