/**
  A table of mutexes by container name, as the scheduler's `locks` and the
  on-demand manager's `wakeMu`: a lock is created on first use and never replaced.
  Fetching a lock is one atomic step.
  */
module LockTable {
  type LockId = nat
  type Actor = nat

  /** `names` maps container names to their locks; `owner` maps the held locks to their holders. */
  datatype Locks = Locks(names: map<string, LockId>, owner: map<LockId, Actor>, next: LockId)

  ghost predicate WellFormed(l: Locks) {
    && (forall n :: n in l.names ==> l.names[n] < l.next)
    && (forall m, n :: m in l.names && n in l.names && m != n ==> l.names[m] != l.names[n])
    && (forall k :: k in l.owner ==> k in l.names.Values)
  }

  function GetOrCreate(l: Locks, name: string): (Locks, LockId) {
    if name in l.names then (l, l.names[name])
    else (l.(names := l.names[name := l.next], next := l.next + 1), l.next)
  }

  function Acquired(l: Locks, k: LockId, a: Actor): Locks { l.(owner := l.owner[k := a]) }

  function Released(l: Locks, k: LockId): Locks { l.(owner := l.owner - {k}) }

  /** Fetching keeps every lock already handed out and its holder, and gives distinct names distinct locks. */
  lemma GetOrCreateStable(l: Locks, name: string)
    requires WellFormed(l)
    ensures var (l', k) := GetOrCreate(l, name);
      && WellFormed(l') && name in l'.names && l'.names[name] == k && l'.owner == l.owner
      && (forall n :: n in l.names ==> n in l'.names && l'.names[n] == l.names[n])
  {
    var (l', k) := GetOrCreate(l, name);
    forall j | j in l'.owner ensures j in l'.names.Values {
      var n :| n in l.names && l.names[n] == j;
      assert l'.names[n] == j;
    }
  }

  lemma AcquiredWellFormed(l: Locks, name: string, a: Actor)
    requires WellFormed(l) && name in l.names
    ensures WellFormed(Acquired(l, l.names[name], a))
  {
  }

  lemma ReleasedWellFormed(l: Locks, k: LockId)
    requires WellFormed(l)
    ensures WellFormed(Released(l, k))
  {
  }
}
