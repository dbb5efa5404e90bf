/**
  The scheduler's locking (internal/scheduler/scheduler.go): cron callbacks, stack
  fires and registrations running concurrently over the registry mutex `s.mu` and
  the per-container locks.  Fetching a container lock is taken as one atomic step,
  also in fireStack, which does it without holding `s.mu`.
  */
module FireProtocol {
  import opened Wrappers
  import opened LockTable

  /** A cron entry's closure: the container it acts on and the lock it captured when it was registered. */
  datatype Entry = Entry(container: string, lock: LockId)

  datatype Operation = Register(container: string) | Unregister(entries: set<Entry>)

  /**
    Where an actor is.  A registration wants `s.mu`, has it, fetches its container's
    lock without taking it, and adds entries one by one (or takes them back) until it
    lets go of `s.mu`.  A callback waits for its container's lock and acts; a stack
    fire does so for one container after another, `rest` being those still to come.
    */
  datatype Phase =
    | WantsMu(op: Operation)
    | HasMu(op: Operation)
    | Registering(container: string, lock: LockId)
    | Visiting(rest: seq<string>)
    | Waiting(container: string, lock: LockId, rest: seq<string>)
    | Acting(container: string, lock: LockId, rest: seq<string>)

  predicate Done(p: Phase) { p == Visiting([]) }

  predicate UnderMu(p: Phase) { p.HasMu? || p.Registering? }

  /** The phases that know a container's lock. */
  predicate KnowsLock(p: Phase) { p.Registering? || p.Waiting? || p.Acting? }

  datatype State = State(actors: map<Actor, Phase>, locks: Locks, mu: Option<Actor>, entries: set<Entry>)

  datatype Step =
    | Request(a: Actor, op: Operation)
    | TakeMu(a: Actor)
    | FetchLock(a: Actor)
    | AddEntry(a: Actor)
    | DropEntries(a: Actor, entries: set<Entry>)
    | LetGo(a: Actor)
    | CronFires(a: Actor, entry: Entry)
    | StackFires(a: Actor, containers: seq<string>)
    | Visit(a: Actor)
    | Acquire(a: Actor)
    | Release(a: Actor)

  /** Steps that bring a new actor; the others are progress of one that is there. */
  predicate Arrival(step: Step) { step.Request? || step.CronFires? || step.StackFires? }

  predicate Enabled(s: State, step: Step) {
    match step
    case Request(a, _) => a !in s.actors
    case TakeMu(a) => a in s.actors && s.actors[a].WantsMu? && s.mu.None?
    case FetchLock(a) => a in s.actors && s.actors[a].HasMu? && s.actors[a].op.Register?
    case AddEntry(a) => a in s.actors && s.actors[a].Registering?
    case DropEntries(a, entries) =>
      a in s.actors && (s.actors[a].Registering? || s.actors[a] == HasMu(Unregister(entries)))
    case LetGo(a) => a in s.actors && (s.actors[a].Registering? || (s.actors[a].HasMu? && s.actors[a].op.Unregister?))
    case CronFires(a, entry) => a !in s.actors && entry in s.entries
    case StackFires(a, _) => a !in s.actors
    case Visit(a) => a in s.actors && s.actors[a].Visiting? && s.actors[a].rest != []
    case Acquire(a) => a in s.actors && s.actors[a].Waiting? && s.actors[a].lock !in s.locks.owner
    case Release(a) => a in s.actors && s.actors[a].Acting?
  }

  function Moved(s: State, a: Actor, p: Phase): State { s.(actors := s.actors[a := p]) }

  function Next(s: State, step: Step): State
    requires Enabled(s, step)
  {
    match step
    case Request(a, op) => Moved(s, a, WantsMu(op))
    case TakeMu(a) => Moved(s, a, HasMu(s.actors[a].op)).(mu := Some(a))
    case FetchLock(a) =>
      var c := s.actors[a].op.container;
      var (locks, k) := GetOrCreate(s.locks, c);
      Moved(s, a, Registering(c, k)).(locks := locks)
    case AddEntry(a) => s.(entries := s.entries + {Entry(s.actors[a].container, s.actors[a].lock)})
    case DropEntries(a, entries) => s.(entries := s.entries - entries)
    case LetGo(a) => Moved(s, a, Visiting([])).(mu := None)
    case CronFires(a, entry) => Moved(s, a, Waiting(entry.container, entry.lock, []))
    case StackFires(a, containers) => Moved(s, a, Visiting(containers))
    case Visit(a) =>
      var c, rest := s.actors[a].rest[0], s.actors[a].rest[1..];
      var (locks, k) := GetOrCreate(s.locks, c);
      Moved(s, a, Waiting(c, k, rest)).(locks := locks)
    case Acquire(a) =>
      var p := s.actors[a];
      Moved(s, a, Acting(p.container, p.lock, p.rest)).(locks := Acquired(s.locks, p.lock, a))
    case Release(a) =>
      var p := s.actors[a];
      Moved(s, a, Visiting(p.rest)).(locks := Released(s.locks, p.lock))
  }

  ghost predicate Initial(s: State) {
    s == State(map[], Locks(map[], map[], 0), None, {})
  }

  ghost predicate RightLock(locks: Locks, container: string, lock: LockId) {
    container in locks.names && locks.names[container] == lock
  }

  /** Every captured or wanted lock is its container's lock. */
  ghost predicate RightLocks(s: State) {
    && (forall e :: e in s.entries ==> RightLock(s.locks, e.container, e.lock))
    && (forall a :: a in s.actors && KnowsLock(s.actors[a]) ==> RightLock(s.locks, s.actors[a].container, s.actors[a].lock))
  }

  /** An actor owns a lock exactly while it acts on the lock's container. */
  ghost predicate OwnersAct(actors: map<Actor, Phase>, owner: map<LockId, Actor>) {
    && (forall a :: a in actors && actors[a].Acting? ==> actors[a].lock in owner && owner[actors[a].lock] == a)
    && (forall k :: k in owner ==> owner[k] in actors && actors[owner[k]].Acting? && actors[owner[k]].lock == k)
  }

  /** `s.mu` is held exactly by the actor that is between taking it and letting go. */
  ghost predicate MuHeld(actors: map<Actor, Phase>, mu: Option<Actor>) {
    && (mu.Some? ==> mu.value in actors && UnderMu(actors[mu.value]))
    && (forall a :: a in actors && UnderMu(actors[a]) ==> mu == Some(a))
  }

  ghost predicate Inv(s: State) {
    WellFormed(s.locks) && RightLocks(s) && OwnersAct(s.actors, s.locks.owner) && MuHeld(s.actors, s.mu)
  }

  // ---------- One step ----------

  lemma RightAfterMove(s: State, a: Actor, p: Phase, s': State)
    requires RightLocks(s) && s'.actors == s.actors[a := p]
    requires forall n :: n in s.locks.names ==> n in s'.locks.names && s'.locks.names[n] == s.locks.names[n]
    requires KnowsLock(p) ==> RightLock(s'.locks, p.container, p.lock)
    requires forall e :: e in s'.entries ==> e in s.entries || RightLock(s'.locks, e.container, e.lock)
    ensures RightLocks(s')
  {
  }

  lemma OwnersAfterMove(actors: map<Actor, Phase>, owner: map<LockId, Actor>, a: Actor, p: Phase)
    requires OwnersAct(actors, owner) && !p.Acting? && (a in actors ==> !actors[a].Acting?)
    ensures OwnersAct(actors[a := p], owner)
  {
  }

  lemma OwnersAfterAcquire(actors: map<Actor, Phase>, owner: map<LockId, Actor>, a: Actor, p: Phase)
    requires OwnersAct(actors, owner) && p.Acting? && a in actors && !actors[a].Acting? && p.lock !in owner
    ensures OwnersAct(actors[a := p], owner[p.lock := a])
  {
  }

  lemma OwnersAfterRelease(actors: map<Actor, Phase>, owner: map<LockId, Actor>, a: Actor, p: Phase)
    requires OwnersAct(actors, owner) && a in actors && actors[a].Acting? && !p.Acting?
    ensures OwnersAct(actors[a := p], owner - {actors[a].lock})
  {
    var k, now := actors[a].lock, actors[a := p];
    forall b | b in now && now[b].Acting? ensures now[b].lock in owner - {k} && owner[now[b].lock] == b {
      assert b != a && now[b] == actors[b];
    }
  }

  lemma MuAfterMove(actors: map<Actor, Phase>, mu: Option<Actor>, a: Actor, p: Phase)
    requires MuHeld(actors, mu) && (UnderMu(p) <==> mu == Some(a))
    ensures MuHeld(actors[a := p], mu)
  {
  }

  lemma MuAfterLetGo(actors: map<Actor, Phase>, mu: Option<Actor>, a: Actor, p: Phase)
    requires MuHeld(actors, mu) && mu == Some(a) && !UnderMu(p)
    ensures MuHeld(actors[a := p], None)
  {
  }

  lemma MuAfterTake(actors: map<Actor, Phase>, a: Actor, p: Phase)
    requires MuHeld(actors, None) && UnderMu(p)
    ensures MuHeld(actors[a := p], Some(a))
  {
  }

  lemma FetchKeeps(s: State, step: Step)
    requires Inv(s) && Enabled(s, step) && (step.FetchLock? || step.Visit?)
    ensures Inv(Next(s, step))
  {
    var a := step.a;
    var s' := Next(s, step);
    var c := if step.Visit? then s.actors[a].rest[0] else s.actors[a].op.container;
    GetOrCreateStable(s.locks, c);
    var p := s'.actors[a];
    assert step.Visit? ==> s.mu != Some(a);
    assert s'.locks == GetOrCreate(s.locks, c).0 && s'.actors == s.actors[a := p] && p.lock == GetOrCreate(s.locks, c).1;
    hide WellFormed, GetOrCreate, RightLocks, OwnersAct, MuHeld, Next;
    RightAfterMove(s, a, p, s');
    OwnersAfterMove(s.actors, s.locks.owner, a, p);
    MuAfterMove(s.actors, s.mu, a, p);
  }

  lemma MuKeeps(s: State, step: Step)
    requires Inv(s) && Enabled(s, step) && (step.TakeMu? || step.LetGo?)
    ensures Inv(Next(s, step))
  {
    var a := step.a;
    var s' := Next(s, step);
    var p := s'.actors[a];
    assert step.LetGo? ==> s.mu == Some(a);
    hide WellFormed, RightLocks, OwnersAct, MuHeld;
    RightAfterMove(s, a, p, s');
    OwnersAfterMove(s.actors, s.locks.owner, a, p);
    if step.LetGo? { MuAfterLetGo(s.actors, s.mu, a, p); } else { MuAfterTake(s.actors, a, p); }
  }

  lemma EntriesKeep(s: State, step: Step)
    requires Inv(s) && Enabled(s, step) && (step.AddEntry? || step.DropEntries?)
    ensures Inv(Next(s, step))
  {
    hide WellFormed, OwnersAct, MuHeld;
  }

  lemma ArrivalKeeps(s: State, step: Step)
    requires Inv(s) && Enabled(s, step) && Arrival(step)
    ensures Inv(Next(s, step))
  {
    var a := step.a;
    var s' := Next(s, step);
    assert step.CronFires? ==> RightLock(s.locks, step.entry.container, step.entry.lock);
    assert s.mu != Some(a);
    hide WellFormed, RightLocks, RightLock, OwnersAct, MuHeld;
    RightAfterMove(s, a, s'.actors[a], s');
    OwnersAfterMove(s.actors, s.locks.owner, a, s'.actors[a]);
    MuAfterMove(s.actors, s.mu, a, s'.actors[a]);
  }

  lemma AcquireKeeps(s: State, a: Actor)
    requires Inv(s) && Enabled(s, Acquire(a))
    ensures Inv(Next(s, Acquire(a)))
  {
    var s' := Next(s, Acquire(a));
    var p := s'.actors[a];
    assert RightLock(s.locks, p.container, p.lock) && s.mu != Some(a);
    AcquiredWellFormed(s.locks, p.container, a);
    hide WellFormed, RightLocks, OwnersAct, MuHeld;
    RightAfterMove(s, a, p, s');
    OwnersAfterAcquire(s.actors, s.locks.owner, a, p);
    MuAfterMove(s.actors, s.mu, a, p);
  }

  lemma ReleaseKeeps(s: State, a: Actor)
    requires Inv(s) && Enabled(s, Release(a))
    ensures Inv(Next(s, Release(a)))
  {
    var s' := Next(s, Release(a));
    var p := s'.actors[a];
    assert s.mu != Some(a);
    ReleasedWellFormed(s.locks, s.actors[a].lock);
    hide WellFormed, RightLocks, OwnersAct, MuHeld;
    RightAfterMove(s, a, p, s');
    OwnersAfterRelease(s.actors, s.locks.owner, a, p);
    MuAfterMove(s.actors, s.mu, a, p);
  }

  // ---------- Runs ----------

  ghost predicate IsRun(run: seq<State>, steps: seq<Step>) {
    && |run| == |steps| + 1 && Initial(run[0])
    && (forall k :: 0 <= k < |steps| ==> Enabled(run[k], steps[k]) && run[k + 1] == Next(run[k], steps[k]))
  }

  lemma {:induction false} InvHolds(run: seq<State>, steps: seq<Step>, k: nat)
    requires IsRun(run, steps) && k < |run|
    ensures Inv(run[k])
  {
    if k > 0 {
      InvHolds(run, steps, k - 1);
      hide Inv;
      match steps[k - 1]
      case TakeMu(_) => MuKeeps(run[k - 1], steps[k - 1]);
      case LetGo(_) => MuKeeps(run[k - 1], steps[k - 1]);
      case AddEntry(_) => EntriesKeep(run[k - 1], steps[k - 1]);
      case DropEntries(_, _) => EntriesKeep(run[k - 1], steps[k - 1]);
      case FetchLock(_) => FetchKeeps(run[k - 1], steps[k - 1]);
      case Visit(_) => FetchKeeps(run[k - 1], steps[k - 1]);
      case Acquire(a) => AcquireKeeps(run[k - 1], a);
      case Release(a) => ReleaseKeeps(run[k - 1], a);
      case _ => ArrivalKeeps(run[k - 1], steps[k - 1]);
    }
  }

  ghost predicate OneActorEach(s: State) {
    forall a, b | a in s.actors && b in s.actors && a != b && s.actors[a].Acting? && s.actors[b].Acting? ::
      s.actors[a].container != s.actors[b].container
  }

  /** The holder of `s.mu` owns no container lock, waits for none, and can go on whoever owns them. */
  ghost predicate MuHolderIsFree(s: State) {
    s.mu.Some? ==>
      && s.mu.value in s.actors && !Enabled(s, Acquire(s.mu.value))
      && (forall k :: k in s.locks.owner ==> s.locks.owner[k] != s.mu.value)
      && forall owner: map<LockId, Actor> ::
           var other := s.(locks := s.locks.(owner := owner));
           Enabled(other, FetchLock(s.mu.value)) || Enabled(other, LetGo(s.mu.value))
  }

  /**
    Per-container serialisation: in every state of every run no two cron callbacks or
    stack fires act on the same container, an actor holds at most one container lock,
    and whoever holds `s.mu` depends on no container lock.
    */
  lemma FiresAreSerialised(run: seq<State>, steps: seq<Step>, k: nat)
    requires IsRun(run, steps) && k < |run|
    ensures OneActorEach(run[k]) && MuHolderIsFree(run[k])
    ensures var owner := run[k].locks.owner; forall i, j :: i in owner && j in owner && owner[i] == owner[j] ==> i == j
  {
    InvHolds(run, steps, k);
    var s := run[k];
    forall a, b | a in s.actors && b in s.actors && a != b && s.actors[a].Acting? && s.actors[b].Acting?
      ensures s.actors[a].container != s.actors[b].container
    {
      assert s.locks.owner[s.actors[a].lock] == a && s.locks.owner[s.actors[b].lock] == b;
      assert RightLock(s.locks, s.actors[a].container, s.actors[a].lock);
    }
  }

  // ---------- What a fire reaches ----------

  /** The containers an actor has still to take; the one it acts on is taken. */
  function Left(p: Phase): seq<string> {
    match p
    case Visiting(rest) => rest
    case Waiting(c, _, rest) => [c] + rest
    case Acting(_, _, rest) => rest
    case _ => []
  }

  /** The containers an actor has taken in the first `k` steps, in order. */
  function Taken(run: seq<State>, steps: seq<Step>, a: Actor, k: nat): seq<string>
    requires IsRun(run, steps) && k < |run|
  {
    if k == 0 then []
    else Taken(run, steps, a, k - 1) + if steps[k - 1] == Acquire(a) then [run[k - 1].actors[a].container] else []
  }

  /** An actor once there stays there. */
  lemma {:induction false} ActorsStay(run: seq<State>, steps: seq<Step>, i: nat, k: nat)
    requires IsRun(run, steps) && i <= k < |run|
    ensures run[i].actors.Keys <= run[k].actors.Keys
  {
    if i < k {
      ActorsStay(run, steps, i, k - 1);
      assert run[k] == Next(run[k - 1], steps[k - 1]);
    }
  }

  lemma {:induction false} NothingTakenBefore(run: seq<State>, steps: seq<Step>, a: Actor, k: nat)
    requires IsRun(run, steps) && k < |run| && a !in run[k].actors
    ensures Taken(run, steps, a, k) == []
  {
    if k > 0 {
      ActorsStay(run, steps, k - 1, k);
      NothingTakenBefore(run, steps, a, k - 1);
    }
  }

  /** A step brings an actor that is to take these containers: a stack fire all of the stack's, a callback its own. */
  predicate Brings(step: Step, a: Actor, containers: seq<string>) {
    || step == StackFires(a, containers)
    || (step.CronFires? && step.a == a && containers == [step.entry.container])
  }

  /**
    At every moment a stack fire has taken its containers up to some point, in order,
    and has the others still to take; a cron callback takes the one container it was
    registered for.
    */
  lemma {:induction false} FireTakesItsContainers(run: seq<State>, steps: seq<Step>, a: Actor, containers: seq<string>,
                                                  arrival: nat, k: nat)
    requires IsRun(run, steps) && arrival < k < |run| && Brings(steps[arrival], a, containers)
    ensures a in run[k].actors && (run[k].actors[a].Visiting? || run[k].actors[a].Waiting? || run[k].actors[a].Acting?)
    ensures Taken(run, steps, a, k) + Left(run[k].actors[a]) == containers
  {
    hide Next, Enabled, Left, Brings;
    assert run[k] == Next(run[k - 1], steps[k - 1]) && Enabled(run[k - 1], steps[k - 1]);
    if arrival == k - 1 {
      FireBegins(run[k - 1], steps[k - 1], a, containers);
      NothingTakenBefore(run, steps, a, k - 1);
    } else {
      FireTakesItsContainers(run, steps, a, containers, arrival, k - 1);
      FireGoesOn(run[k - 1], steps[k - 1], a);
    }
  }

  /** All have been taken when it is done. */
  lemma FireReachesAll(run: seq<State>, steps: seq<Step>, a: Actor, containers: seq<string>, arrival: nat, k: nat)
    requires IsRun(run, steps) && arrival < k < |run| && Brings(steps[arrival], a, containers)
    ensures a in run[k].actors && (Done(run[k].actors[a]) ==> Taken(run, steps, a, k) == containers)
  {
    FireTakesItsContainers(run, steps, a, containers, arrival, k);
  }

  lemma FireBegins(s: State, step: Step, a: Actor, containers: seq<string>)
    requires Enabled(s, step) && Brings(step, a, containers)
    ensures a !in s.actors && step != Acquire(a)
    ensures a in Next(s, step).actors
    ensures var p := Next(s, step).actors[a]; (p.Visiting? || p.Waiting?) && Left(p) == containers
  {
  }

  /** A step takes the next container for the actor, or leaves what it has still to take as it was. */
  lemma FireGoesOn(s: State, step: Step, a: Actor)
    requires Enabled(s, step) && a in s.actors
    requires s.actors[a].Visiting? || s.actors[a].Waiting? || s.actors[a].Acting?
    ensures a in Next(s, step).actors
    ensures var p := Next(s, step).actors[a];
      && (p.Visiting? || p.Waiting? || p.Acting?)
      && (if step == Acquire(a) then [s.actors[a].container] + Left(p) == Left(s.actors[a]) else Left(p) == Left(s.actors[a]))
  {
    hide GetOrCreate, Acquired, Released;
  }

  /** No reachable state is deadlocked: while some actor is not done, some actor there can take a step. */
  lemma FiresNeverDeadlock(run: seq<State>, steps: seq<Step>, k: nat, a: Actor)
    requires IsRun(run, steps) && k < |run| && a in run[k].actors && !Done(run[k].actors[a])
    ensures exists step :: Enabled(run[k], step) && !Arrival(step)
  {
    InvHolds(run, steps, k);
    var s := run[k];
    var b := if s.actors[a].WantsMu? && s.mu.Some? then s.mu.value
             else if s.actors[a].Waiting? && s.actors[a].lock in s.locks.owner then s.locks.owner[s.actors[a].lock]
             else a;
    match s.actors[b]
    case WantsMu(_) => assert Enabled(s, TakeMu(b));
    case HasMu(op) => assert Enabled(s, if op.Register? then FetchLock(b) else LetGo(b));
    case Registering(_, _) => assert Enabled(s, LetGo(b));
    case Visiting(_) => assert Enabled(s, Visit(b));
    case Waiting(_, _, _) => assert Enabled(s, Acquire(b));
    case Acting(_, _, _) => assert Enabled(s, Release(b));
  }
}
