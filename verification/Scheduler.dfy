/**
  The scheduler's registry (internal/scheduler/scheduler.go): a table of live
  cron entries beside `jobs`, which says which entries a row owns.  The cron
  library is modelled by its entry table, its ever-increasing entry ids and two
  uninterpreted predicates on expressions: `parses` (ValidateCronExpression)
  and `accepts` (the runner's own parser inside AddFunc).
  */
module Scheduling {
  import opened Models

  type EntryId = nat

  /** What an entry's closure does, with the values it captured. */
  datatype Action =
    | StartContainer(scheduleId: Id, container: string)
    | StopContainer(scheduleId: Id, container: string)
    | FireStack(stackId: Id, name: string, start: bool)

  datatype CronEntry = CronEntry(spec: string, action: Action)

  datatype CronSyntax = CronSyntax(parses: string -> bool, accepts: string -> bool)

  function Owner(e: CronEntry): Id {
    match e.action
    case StartContainer(id, _) => id
    case StopContainer(id, _) => id
    case FireStack(id, _, _) => id
  }

  /** An expression that both parsers take; the empty one registers nothing. */
  predicate Usable(syntax: CronSyntax, spec: string) {
    spec == "" || (syntax.parses(spec) && syntax.accepts(spec))
  }

  /** The entries a row is entitled to: all of its expressions or none. */
  function Entitled(syntax: CronSyntax, enabled: bool, start: CronEntry, stop: CronEntry): seq<CronEntry> {
    if enabled && Usable(syntax, start.spec) && Usable(syntax, stop.spec) then
      (if start.spec != "" then [start] else []) + (if stop.spec != "" then [stop] else [])
    else []
  }

  function ScheduleStart(s: Schedule): CronEntry { CronEntry(s.startCron, StartContainer(s.id, s.container)) }
  function ScheduleStop(s: Schedule): CronEntry { CronEntry(s.stopCron, StopContainer(s.id, s.container)) }
  function StackStart(st: Stack): CronEntry { CronEntry(st.startCron, FireStack(st.id, st.name, true)) }
  function StackStop(st: Stack): CronEntry { CronEntry(st.stopCron, FireStack(st.id, st.name, false)) }

  function ScheduleEntries(syntax: CronSyntax, s: Schedule): seq<CronEntry> {
    Entitled(syntax, s.enabled, ScheduleStart(s), ScheduleStop(s))
  }

  function StackEntries(syntax: CronSyntax, st: Stack): seq<CronEntry> {
    Entitled(syntax, st.enabled, StackStart(st), StackStop(st))
  }

  /** A table of registrations: row id to the entries registered for it, never empty ones. */
  type Registrations = map<Id, seq<CronEntry>>

  function Put(table: Registrations, id: Id, wanted: seq<CronEntry>): Registrations {
    if wanted == [] then table else table[id := wanted]
  }

  /**
    The registry has no leak and no theft: every job's entries are live, distinct
    and carry that job's row id, and every live entry is in the job of its row.
    */
  ghost predicate Consistent(jobs: map<Id, seq<EntryId>>, entries: map<EntryId, CronEntry>, next: nat) {
    && (forall e :: e in entries ==> e < next)
    && (forall id, k :: id in jobs && 0 <= k < |jobs[id]| ==>
          jobs[id][k] in entries && Owner(entries[jobs[id][k]]) == id)
    && (forall id, j, k :: id in jobs && 0 <= j < k < |jobs[id]| ==> jobs[id][j] != jobs[id][k])
    && (forall e :: e in entries ==> Owner(entries[e]) in jobs && e in jobs[Owner(entries[e])])
    && (forall id :: id in jobs ==> jobs[id] != [])
  }

  function Lookup(entries: map<EntryId, CronEntry>, ids: seq<EntryId>): (found: seq<CronEntry>)
    requires forall k :: 0 <= k < |ids| ==> ids[k] in entries
  {
    seq(|ids|, k requires 0 <= k < |ids| => entries[ids[k]])
  }

  /** What is registered for whom, forgetting the entry ids. */
  function TableOf(jobs: map<Id, seq<EntryId>>, entries: map<EntryId, CronEntry>): Registrations
    requires forall id, k :: id in jobs && 0 <= k < |jobs[id]| ==> jobs[id][k] in entries
  {
    map id | id in jobs :: Lookup(entries, jobs[id])
  }

  /** `now` is `was` with `wanted` appended under the next ids. */
  ghost predicate Appended(was: map<EntryId, CronEntry>, first: nat, now: map<EntryId, CronEntry>,
                           ids: seq<EntryId>, wanted: seq<CronEntry>)
  {
    && |ids| == |wanted|
    && (forall k :: 0 <= k < |ids| ==> ids[k] == first + k)
    && (forall e :: e in now <==> e in was || first <= e < first + |wanted|)
    && (forall e :: e in was && e < first ==> now[e] == was[e])
    && (forall k :: 0 <= k < |wanted| ==> now[first + k] == wanted[k])
  }

  /** Ids that were drawn for entries taken back again do no harm. */
  lemma IdsUsedUp(jobs: map<Id, seq<EntryId>>, entries: map<EntryId, CronEntry>, next: nat, later: nat)
    requires Consistent(jobs, entries, next) && next <= later
    ensures Consistent(jobs, entries, later)
  {
  }

  /** The entry is live now under an id that was not there before. */
  ghost predicate Gained(was: map<EntryId, CronEntry>, now: map<EntryId, CronEntry>, entry: CronEntry) {
    exists e :: e in now && e !in was && now[e] == entry
  }

  /** The old entries are as they were, and the new ones are among these two, each at most once. */
  ghost predicate GainedOnly(was: map<EntryId, CronEntry>, now: map<EntryId, CronEntry>, start: CronEntry, stop: CronEntry) {
    && (forall e :: e in was ==> e in now && now[e] == was[e])
    && (forall e :: e in now && e !in was ==> now[e] == start || now[e] == stop)
    && (forall e, f :: e in now && f in now && e !in was && f !in was && now[e] == now[f] ==> e == f)
  }

  /** What registering a pair of entries adds: each of the two that has an expression, once. */
  lemma GainedEntries(syntax: CronSyntax, was: map<EntryId, CronEntry>, first: nat, now: map<EntryId, CronEntry>,
                      ids: seq<EntryId>, start: CronEntry, stop: CronEntry)
    requires Appended(was, first, now, ids, Entitled(syntax, true, start, stop)) && forall e :: e in was ==> e < first
    requires Usable(syntax, start.spec) && Usable(syntax, stop.spec) && start != stop
    ensures Gained(was, now, start) <==> start.spec != ""
    ensures Gained(was, now, stop) <==> stop.spec != ""
    ensures GainedOnly(was, now, start, stop)
  {
    var wanted := Entitled(syntax, true, start, stop);
    forall e | e in now && e !in was ensures first <= e < first + |wanted| && now[e] == wanted[e - first] {
      assert now[first + (e - first)] == wanted[e - first];
    }
    if start.spec != "" { assert now[first] == start && first !in was; }
    if stop.spec != "" { assert now[first + |wanted| - 1] == stop && first + |wanted| - 1 !in was; }
  }

  lemma NothingGained(entries: map<EntryId, CronEntry>, start: CronEntry, stop: CronEntry)
    ensures GainedOnly(entries, entries, start, stop) && !Gained(entries, entries, start) && !Gained(entries, entries, stop)
  {
  }

  ghost predicate Live(entries: map<EntryId, CronEntry>, entry: CronEntry) {
    exists e :: e in entries && entries[e] == entry
  }

  /** In a consistent registry the live entries are those of the table, each in the registrations of its row. */
  lemma LiveEntries(jobs: map<Id, seq<EntryId>>, entries: map<EntryId, CronEntry>, next: nat)
    requires Consistent(jobs, entries, next)
    ensures forall e :: e in entries ==>
      Owner(entries[e]) in TableOf(jobs, entries) && entries[e] in TableOf(jobs, entries)[Owner(entries[e])]
    ensures forall id, x :: id in TableOf(jobs, entries) && x in TableOf(jobs, entries)[id] ==> Live(entries, x)
  {
    var table := TableOf(jobs, entries);
    forall e | e in entries ensures Owner(entries[e]) in table && entries[e] in table[Owner(entries[e])] {
      var id := Owner(entries[e]);
      var k :| 0 <= k < |jobs[id]| && jobs[id][k] == e;
      assert table[id][k] == entries[e];
    }
    forall id, x | id in table && x in table[id] ensures Live(entries, x) {
      var k :| 0 <= k < |table[id]| && table[id][k] == x;
      assert entries[jobs[id][k]] == x;
    }
  }

  /**
    Registering entries for a row keeps the registry consistent exactly when the
    row had none: otherwise the ids it held are overwritten and stay live without
    an owner.
    */
  lemma RegisteringNeedsAFreeRow(jobs: map<Id, seq<EntryId>>, was: map<EntryId, CronEntry>, first: nat,
                                 now: map<EntryId, CronEntry>, id: Id, ids: seq<EntryId>, wanted: seq<CronEntry>)
    requires Consistent(jobs, was, first)
    requires Appended(was, first, now, ids, wanted)
    requires wanted != [] && forall k :: 0 <= k < |wanted| ==> Owner(wanted[k]) == id
    ensures Consistent(jobs[id := ids], now, first + |wanted|) <==> id !in jobs
    ensures id !in jobs ==> TableOf(jobs[id := ids], now) == TableOf(jobs, was)[id := wanted]
  {
    if id in jobs {
      var lost := jobs[id][0];
      assert lost in now && Owner(now[lost]) == id && lost !in ids;
    } else {
      RegisteringAFreeRow(jobs, was, first, now, id, ids, wanted);
    }
  }

  /** The old entries are still there, and the new ones are those of the new ids. */
  lemma NewEntries(was: map<EntryId, CronEntry>, first: nat, now: map<EntryId, CronEntry>, id: Id,
                   ids: seq<EntryId>, wanted: seq<CronEntry>)
    requires Appended(was, first, now, ids, wanted) && forall e :: e in was ==> e < first
    requires forall k :: 0 <= k < |wanted| ==> Owner(wanted[k]) == id
    ensures forall e :: e in was ==> e in now && now[e] == was[e]
    ensures forall k :: 0 <= k < |ids| ==> ids[k] in now && ids[k] !in was && now[ids[k]] == wanted[k]
    ensures forall j, k :: 0 <= j < k < |ids| ==> ids[j] != ids[k]
    ensures forall e :: e in now && e !in was ==> e in ids && Owner(now[e]) == id && e < first + |wanted|
  {
    forall k | 0 <= k < |ids| ensures ids[k] in now && now[ids[k]] == wanted[k] {
      assert now[first + k] == wanted[k];
    }
    forall e | e in now && e !in was ensures e in ids && Owner(now[e]) == id {
      assert now[first + (e - first)] == wanted[e - first] && ids[e - first] == e;
    }
  }

  lemma RegisteringAFreeRow(jobs: map<Id, seq<EntryId>>, was: map<EntryId, CronEntry>, first: nat,
                            now: map<EntryId, CronEntry>, id: Id, ids: seq<EntryId>, wanted: seq<CronEntry>)
    requires Consistent(jobs, was, first) && Appended(was, first, now, ids, wanted)
    requires wanted != [] && forall k :: 0 <= k < |wanted| ==> Owner(wanted[k]) == id
    requires id !in jobs
    ensures Consistent(jobs[id := ids], now, first + |wanted|)
    ensures TableOf(jobs[id := ids], now) == TableOf(jobs, was)[id := wanted]
  {
    NewEntries(was, first, now, id, ids, wanted);
    FreeRowConsistent(jobs, was, first, now, id, ids, first + |wanted|);
    FreeRowTable(jobs, was, jobs[id := ids], now, id, ids, wanted);
  }

  lemma FreeRowTable(jobs: map<Id, seq<EntryId>>, was: map<EntryId, CronEntry>, jobs': map<Id, seq<EntryId>>,
                     now: map<EntryId, CronEntry>, id: Id, ids: seq<EntryId>, wanted: seq<CronEntry>)
    requires jobs' == jobs[id := ids]
    requires forall r, k :: r in jobs && 0 <= k < |jobs[r]| ==> jobs[r][k] in was
    requires forall e :: e in was ==> e in now && now[e] == was[e]
    requires |ids| == |wanted| && forall k :: 0 <= k < |ids| ==> ids[k] in now && now[ids[k]] == wanted[k]
    requires forall r, k :: r in jobs' && 0 <= k < |jobs'[r]| ==> jobs'[r][k] in now
    ensures TableOf(jobs', now) == TableOf(jobs, was)[id := wanted]
  {
    assert Lookup(now, ids) == wanted;
    forall r | r in jobs && r != id ensures Lookup(now, jobs[r]) == Lookup(was, jobs[r]) {
      assert jobs'[r] == jobs[r];
    }
  }

  lemma FreeRowConsistent(jobs: map<Id, seq<EntryId>>, was: map<EntryId, CronEntry>, first: nat,
                          now: map<EntryId, CronEntry>, id: Id, ids: seq<EntryId>, next: nat)
    requires Consistent(jobs, was, first) && id !in jobs && ids != [] && first <= next
    requires forall e :: e in was ==> e in now && now[e] == was[e]
    requires forall k :: 0 <= k < |ids| ==> ids[k] in now && ids[k] !in was
    requires forall j, k :: 0 <= j < k < |ids| ==> ids[j] != ids[k]
    requires forall e :: e in now && e !in was ==> e in ids && Owner(now[e]) == id && e < next
    ensures Consistent(jobs[id := ids], now, next)
  {
  }

  /** Dropping a row's job with its entries keeps the registry consistent and removes that row only. */
  lemma UnregisteringKeepsConsistent(jobs: map<Id, seq<EntryId>>, was: map<EntryId, CronEntry>, next: nat,
                                     now: map<EntryId, CronEntry>, id: Id)
    requires Consistent(jobs, was, next) && id in jobs
    requires now == map e | e in was && e !in jobs[id] :: was[e]
    ensures Consistent(jobs - {id}, now, next)
    ensures TableOf(jobs - {id}, now) == TableOf(jobs, was) - {id}
  {
    forall r, k | r in jobs && r != id && 0 <= k < |jobs[r]| ensures jobs[r][k] in now {
      assert jobs[r][k] !in jobs[id];
    }
    forall r | r in jobs && r != id ensures Lookup(now, jobs[r]) == Lookup(was, jobs[r]) {
    }
  }

  function Position(ids: seq<EntryId>, e: EntryId): (k: nat)
    requires e in ids
    ensures k < |ids| && ids[k] == e
  {
    if ids[0] == e then 0 else 1 + Position(ids[1..], e)
  }

  /** Two registries differ by entry ids only: `renaming` is a bijection that keeps entries and ownership. */
  ghost predicate SameUpToIds(jobs: map<Id, seq<EntryId>>, entries: map<EntryId, CronEntry>,
                              jobs': map<Id, seq<EntryId>>, entries': map<EntryId, CronEntry>,
                              renaming: map<EntryId, EntryId>)
  {
    && renaming.Keys == entries.Keys
    && renaming.Values == entries'.Keys
    && (forall e, f :: e in renaming && f in renaming && e != f ==> renaming[e] != renaming[f])
    && (forall e :: e in renaming ==> renaming[e] in entries' && entries'[renaming[e]] == entries[e])
    && jobs.Keys == jobs'.Keys
    && (forall id :: id in jobs ==> |jobs[id]| == |jobs'[id]|)
    && (forall id, k :: id in jobs && 0 <= k < |jobs[id]| ==>
          jobs[id][k] in renaming && renaming[jobs[id][k]] == jobs'[id][k])
  }

  /** Jobs of the same rows, of the same lengths, with the same entries position by position. */
  ghost predicate Parallel(jobs: map<Id, seq<EntryId>>, entries: map<EntryId, CronEntry>,
                           jobs': map<Id, seq<EntryId>>, entries': map<EntryId, CronEntry>)
  {
    && jobs.Keys == jobs'.Keys
    && (forall id :: id in jobs ==> |jobs[id]| == |jobs'[id]|)
    && (forall id, k :: id in jobs && 0 <= k < |jobs[id]| ==>
          jobs[id][k] in entries && jobs'[id][k] in entries' && entries[jobs[id][k]] == entries'[jobs'[id][k]])
  }

  lemma SameTableIsParallel(jobs: map<Id, seq<EntryId>>, entries: map<EntryId, CronEntry>, next: nat,
                            jobs': map<Id, seq<EntryId>>, entries': map<EntryId, CronEntry>, next': nat)
    requires Consistent(jobs, entries, next) && Consistent(jobs', entries', next')
    requires TableOf(jobs, entries) == TableOf(jobs', entries')
    ensures Parallel(jobs, entries, jobs', entries')
  {
    assert jobs.Keys == TableOf(jobs, entries).Keys == TableOf(jobs', entries').Keys == jobs'.Keys;
    forall id | id in jobs
      ensures |jobs[id]| == |jobs'[id]|
      ensures forall k :: 0 <= k < |jobs[id]| ==> entries[jobs[id][k]] == entries'[jobs'[id][k]]
    {
      assert Lookup(entries, jobs[id]) == TableOf(jobs, entries)[id]
          == TableOf(jobs', entries')[id] == Lookup(entries', jobs'[id]);
      assert forall k :: 0 <= k < |jobs[id]| ==> Lookup(entries, jobs[id])[k] == entries[jobs[id][k]];
    }
  }

  /** The entry that holds, in the other registry, the place that `e` holds in its row's job. */
  function Renamed(jobs: map<Id, seq<EntryId>>, jobs': map<Id, seq<EntryId>>, id: Id, e: EntryId): EntryId
    requires id in jobs && id in jobs' && e in jobs[id] && |jobs[id]| == |jobs'[id]|
  {
    jobs'[id][Position(jobs[id], e)]
  }

  lemma RenamedAt(jobs: map<Id, seq<EntryId>>, entries: map<EntryId, CronEntry>, next: nat,
                  jobs': map<Id, seq<EntryId>>, id: Id, k: nat)
    requires Consistent(jobs, entries, next)
    requires id in jobs && id in jobs' && |jobs[id]| == |jobs'[id]| && k < |jobs[id]|
    ensures Renamed(jobs, jobs', id, jobs[id][k]) == jobs'[id][k]
  {
    var j := Position(jobs[id], jobs[id][k]);
    assert jobs[id][j] == jobs[id][k];
  }

  /** The table determines the live entries: registries with the same table are the same up to entry ids. */
  lemma TableDeterminesEntries(jobs: map<Id, seq<EntryId>>, entries: map<EntryId, CronEntry>, next: nat,
                               jobs': map<Id, seq<EntryId>>, entries': map<EntryId, CronEntry>, next': nat)
    returns (renaming: map<EntryId, EntryId>)
    requires Consistent(jobs, entries, next) && Consistent(jobs', entries', next')
    requires TableOf(jobs, entries) == TableOf(jobs', entries')
    ensures SameUpToIds(jobs, entries, jobs', entries', renaming)
  {
    hide Consistent;
    SameTableIsParallel(jobs, entries, next, jobs', entries', next');
    renaming := ByPosition(jobs, entries, next, jobs');
    RenamingIsABijection(jobs, entries, next, jobs', entries', next', renaming);
  }

  /** And registries that are the same up to entry ids have the same table. */
  lemma AnyRenamingMeansSameTable(jobs: map<Id, seq<EntryId>>, entries: map<EntryId, CronEntry>, next: nat,
                                  jobs': map<Id, seq<EntryId>>, entries': map<EntryId, CronEntry>, next': nat)
    requires Consistent(jobs, entries, next) && Consistent(jobs', entries', next')
    ensures forall renaming :: SameUpToIds(jobs, entries, jobs', entries', renaming) ==>
      TableOf(jobs, entries) == TableOf(jobs', entries')
  {
    forall renaming | SameUpToIds(jobs, entries, jobs', entries', renaming)
      ensures TableOf(jobs, entries) == TableOf(jobs', entries')
    {
      forall id | id in jobs ensures Lookup(entries, jobs[id]) == Lookup(entries', jobs'[id]) {
      }
    }
  }

  /** Where a live entry sits in its row's job. */
  lemma PlaceOf(jobs: map<Id, seq<EntryId>>, entries: map<EntryId, CronEntry>, next: nat, e: EntryId)
    returns (id: Id, k: nat)
    requires Consistent(jobs, entries, next) && e in entries
    ensures id == Owner(entries[e]) && id in jobs && k < |jobs[id]| && jobs[id][k] == e
  {
    id := Owner(entries[e]);
    k := Position(jobs[id], e);
  }

  lemma OwnerAt(jobs: map<Id, seq<EntryId>>, entries: map<EntryId, CronEntry>, next: nat, id: Id, k: nat)
    requires Consistent(jobs, entries, next) && id in jobs && k < |jobs[id]|
    ensures jobs[id][k] in entries && Owner(entries[jobs[id][k]]) == id
    ensures forall j :: 0 <= j < |jobs[id]| && j != k ==> jobs[id][j] != jobs[id][k]
  {
  }

  /** The renaming carries every job position to the same position of the other registry. */
  ghost predicate Carries(jobs: map<Id, seq<EntryId>>, jobs': map<Id, seq<EntryId>>, renaming: map<EntryId, EntryId>) {
    forall id, k :: id in jobs && id in jobs' && 0 <= k < |jobs[id]| && k < |jobs'[id]| ==>
      jobs[id][k] in renaming && renaming[jobs[id][k]] == jobs'[id][k]
  }

  lemma ByPosition(jobs: map<Id, seq<EntryId>>, entries: map<EntryId, CronEntry>, next: nat, jobs': map<Id, seq<EntryId>>)
    returns (renaming: map<EntryId, EntryId>)
    requires Consistent(jobs, entries, next) && jobs.Keys == jobs'.Keys
    requires forall id :: id in jobs ==> |jobs[id]| == |jobs'[id]|
    ensures renaming.Keys == entries.Keys && Carries(jobs, jobs', renaming)
  {
    renaming := map e | e in entries :: Renamed(jobs, jobs', Owner(entries[e]), e);
    forall id, k | id in jobs && 0 <= k < |jobs[id]|
      ensures jobs[id][k] in renaming && renaming[jobs[id][k]] == jobs'[id][k]
    {
      OwnerAt(jobs, entries, next, id, k);
      RenamedAt(jobs, entries, next, jobs', id, k);
    }
  }

  lemma RenamingIsABijection(jobs: map<Id, seq<EntryId>>, entries: map<EntryId, CronEntry>, next: nat,
                             jobs': map<Id, seq<EntryId>>, entries': map<EntryId, CronEntry>, next': nat,
                             renaming: map<EntryId, EntryId>)
    requires Consistent(jobs, entries, next) && Consistent(jobs', entries', next')
    requires Parallel(jobs, entries, jobs', entries')
    requires renaming.Keys == entries.Keys && Carries(jobs, jobs', renaming)
    ensures renaming.Values == entries'.Keys
    ensures forall e, f :: e in renaming && f in renaming && e != f ==> renaming[e] != renaming[f]
    ensures forall e :: e in renaming ==> renaming[e] in entries' && entries'[renaming[e]] == entries[e]
  {
    hide Consistent;
    forall f | f in entries' ensures f in renaming.Values {
      var id, k := PlaceOf(jobs', entries', next', f);
      assert renaming[jobs[id][k]] == f;
    }
    forall e | e in renaming ensures renaming[e] in entries' && entries'[renaming[e]] == entries[e] {
      RenamingKeeps(jobs, entries, next, jobs', entries', renaming, e);
    }
    forall e, f | e in renaming && f in renaming && e != f ensures renaming[e] != renaming[f] {
      RenamingIsInjective(jobs, entries, next, jobs', entries', next', renaming, e, f);
    }
  }

  lemma RenamingKeeps(jobs: map<Id, seq<EntryId>>, entries: map<EntryId, CronEntry>, next: nat,
                      jobs': map<Id, seq<EntryId>>, entries': map<EntryId, CronEntry>,
                      renaming: map<EntryId, EntryId>, e: EntryId)
    requires Consistent(jobs, entries, next) && Parallel(jobs, entries, jobs', entries')
    requires renaming.Keys == entries.Keys && Carries(jobs, jobs', renaming) && e in entries
    ensures renaming[e] in entries' && entries'[renaming[e]] == entries[e]
  {
    var id, k := PlaceOf(jobs, entries, next, e);
    assert jobs'[id][k] in entries' && entries[jobs[id][k]] == entries'[jobs'[id][k]];
  }

  lemma RenamingIsInjective(jobs: map<Id, seq<EntryId>>, entries: map<EntryId, CronEntry>, next: nat,
                            jobs': map<Id, seq<EntryId>>, entries': map<EntryId, CronEntry>, next': nat,
                            renaming: map<EntryId, EntryId>, e: EntryId, f: EntryId)
    requires Consistent(jobs, entries, next) && Consistent(jobs', entries', next')
    requires Parallel(jobs, entries, jobs', entries')
    requires renaming.Keys == entries.Keys && Carries(jobs, jobs', renaming)
    requires e in entries && f in entries && e != f
    ensures renaming[e] != renaming[f]
  {
    var id, k := PlaceOf(jobs, entries, next, e);
    var id', j := PlaceOf(jobs, entries, next, f);
    OwnerAt(jobs', entries', next', id, k);
    OwnerAt(jobs', entries', next', id', j);
  }

  class Scheduler {
    const syntax: CronSyntax
    var entries: map<EntryId, CronEntry>
    var nextEntry: nat
    var jobs: map<Id, seq<EntryId>>

    constructor (syntax: CronSyntax)
      ensures this.syntax == syntax
      ensures entries == map[] && jobs == map[]
      ensures Valid() && Table() == map[]
    {
      this.syntax := syntax;
      entries, nextEntry, jobs := map[], 0, map[];
    }

    ghost predicate Valid()
      reads this
    {
      Consistent(jobs, entries, nextEntry)
    }

    ghost function Table(): (table: Registrations)
      requires Valid()
      reads this
      ensures table.Keys == jobs.Keys
      ensures forall id :: id in table ==> table[id] != []
    {
      TableOf(jobs, entries)
    }

    method AddFunc(spec: string, action: Action) returns (ok: bool, id: EntryId)
      modifies this`entries, this`nextEntry
      ensures ok == syntax.accepts(spec)
      ensures !ok ==> entries == old(entries) && nextEntry == old(nextEntry)
      ensures ok ==> id == old(nextEntry) && nextEntry == id + 1
      ensures ok ==> entries == old(entries)[id := CronEntry(spec, action)]
    {
      ok, id := syntax.accepts(spec), nextEntry;
      if ok {
        entries := entries[id := CronEntry(spec, action)];
        nextEntry := nextEntry + 1;
      }
    }

    method RemoveEntries(ids: seq<EntryId>)
      modifies this`entries
      ensures entries == map e | e in old(entries) && e !in ids :: old(entries)[e]
    {
      for k := 0 to |ids|
        invariant entries == map e | e in old(entries) && e !in ids[..k] :: old(entries)[e]
      {
        entries := entries - {ids[k]};
      }
      assert ids[..|ids|] == ids;
    }

    /**
      The common body of AddSchedule and AddStack once the row is known to be
      enabled with some expression: register the start entry, then the stop
      entry, undoing the first when the second is refused.
      */
    method Register(id: Id, start: CronEntry, stop: CronEntry) returns (ok: bool, ghost ids: seq<EntryId>)
      requires Owner(start) == Owner(stop) == id
      requires start.spec != "" || stop.spec != ""
      requires forall e :: e in entries ==> e < nextEntry
      modifies this
      ensures ok == (Usable(syntax, start.spec) && Usable(syntax, stop.spec))
      ensures !ok ==> entries == old(entries) && jobs == old(jobs)
      ensures nextEntry >= old(nextEntry)
      ensures ok ==> nextEntry == old(nextEntry) + |Entitled(syntax, true, start, stop)|
      ensures ok ==> jobs == old(jobs)[id := ids]
      ensures ok ==> Appended(old(entries), old(nextEntry), entries, ids, Entitled(syntax, true, start, stop))
    {
      var taken: seq<EntryId> := [];
      ids := [];
      ghost var before := entries;
      if start.spec != "" {
        if !syntax.parses(start.spec) { return false, []; }
        var added, e := AddFunc(start.spec, start.action);
        if !added { return false, []; }
        taken := taken + [e];
      }
      if stop.spec != "" {
        if !syntax.parses(stop.spec) {
          RemoveEntries(taken);
          assert entries == before;
          return false, [];
        }
        var added, e := AddFunc(stop.spec, stop.action);
        if !added {
          RemoveEntries(taken);
          assert entries == before;
          return false, [];
        }
        taken := taken + [e];
      }
      jobs := jobs[id := taken];
      ok, ids := true, taken;
    }

    /**
      Registers an enabled schedule.  On a consistent registry the result is
      consistent again exactly when the row owned nothing before the call (or
      nothing is registered): AddSchedule overwrites `jobs` without removing.
      */
    method AddSchedule(s: Schedule) returns (ok: bool)
      requires Valid()
      modifies this
      ensures ok <==> s.enabled ==>
        && (s.startCron == "" || (syntax.parses(s.startCron) && syntax.accepts(s.startCron)))
        && (s.stopCron == "" || (syntax.parses(s.stopCron) && syntax.accepts(s.stopCron)))
      ensures !ok || !s.enabled ==> entries == old(entries) && jobs == old(jobs)
      // The start expression comes to start the container and the stop expression to stop it, and nothing else does anything.
      ensures ok && s.enabled ==> var start := CronEntry(s.startCron, StartContainer(s.id, s.container));
        var stop := CronEntry(s.stopCron, StopContainer(s.id, s.container));
        && (Gained(old(entries), entries, start) <==> s.startCron != "")
        && (Gained(old(entries), entries, stop) <==> s.stopCron != "")
        && GainedOnly(old(entries), entries, start, stop)
      ensures Valid() <==> (s.id !in old(jobs) || ScheduleEntries(syntax, s) == [])
      ensures Valid() ==> Table() == Put(old(Table()), s.id, ScheduleEntries(syntax, s))
    {
      hide Consistent, Appended, Gained, GainedOnly, TableOf;
      LiveBelowNext();
      if !s.enabled { return true; }
      NothingGained(entries, ScheduleStart(s), ScheduleStop(s));
      if s.startCron == "" && s.stopCron == "" { return true; }
      ghost var was := entries;
      ghost var first := nextEntry;
      ghost var oldJobs := jobs;
      ghost var ids;
      ok, ids := Register(s.id, ScheduleStart(s), ScheduleStop(s));
      if ok {
        RegisteringNeedsAFreeRow(oldJobs, was, first, entries, s.id, ids, ScheduleEntries(syntax, s));
        GainedEntries(syntax, was, first, entries, ids, ScheduleStart(s), ScheduleStop(s));
      } else {
        IdsUsedUp(jobs, entries, first, nextEntry);
      }
    }

    lemma LiveBelowNext()
      requires Valid()
      ensures forall e :: e in entries ==> e < nextEntry
    {
    }

    method RemoveSchedule(id: Id)
      requires Valid()
      modifies this`entries, this`jobs
      ensures Valid() && Table() == old(Table()) - {id}
      ensures entries == map e | e in old(entries) && Owner(old(entries)[e]) != id :: old(entries)[e]
    {
      if id !in jobs {
        assert Table() - {id} == Table();
        return;
      }
      ghost var was := entries;
      RemoveEntries(jobs[id]);
      UnregisteringKeepsConsistent(jobs, was, nextEntry, entries, id);
      jobs := jobs - {id};
    }

    /** As AddSchedule, for the two entries of a stack. */
    method AddStack(st: Stack) returns (ok: bool)
      requires Valid()
      modifies this
      ensures ok <==> st.enabled ==>
        && (st.startCron == "" || (syntax.parses(st.startCron) && syntax.accepts(st.startCron)))
        && (st.stopCron == "" || (syntax.parses(st.stopCron) && syntax.accepts(st.stopCron)))
      ensures !ok || !st.enabled ==> entries == old(entries) && jobs == old(jobs)
      ensures ok && st.enabled ==> var start := CronEntry(st.startCron, FireStack(st.id, st.name, true));
        var stop := CronEntry(st.stopCron, FireStack(st.id, st.name, false));
        && (Gained(old(entries), entries, start) <==> st.startCron != "")
        && (Gained(old(entries), entries, stop) <==> st.stopCron != "")
        && GainedOnly(old(entries), entries, start, stop)
      ensures Valid() <==> (st.id !in old(jobs) || StackEntries(syntax, st) == [])
      ensures Valid() ==> Table() == Put(old(Table()), st.id, StackEntries(syntax, st))
    {
      hide Consistent, Appended, Gained, GainedOnly, TableOf;
      LiveBelowNext();
      if !st.enabled { return true; }
      NothingGained(entries, StackStart(st), StackStop(st));
      if st.startCron == "" && st.stopCron == "" { return true; }
      ghost var was := entries;
      ghost var first := nextEntry;
      ghost var oldJobs := jobs;
      ghost var ids;
      ok, ids := Register(st.id, StackStart(st), StackStop(st));
      if ok {
        RegisteringNeedsAFreeRow(oldJobs, was, first, entries, st.id, ids, StackEntries(syntax, st));
        GainedEntries(syntax, was, first, entries, ids, StackStart(st), StackStop(st));
      } else {
        IdsUsedUp(jobs, entries, first, nextEntry);
      }
    }

    method RemoveStack(id: Id)
      requires Valid()
      modifies this`entries, this`jobs
      ensures Valid() && Table() == old(Table()) - {id}
    {
      RemoveSchedule(id);
    }

    method UpdateStack(st: Stack) returns (ok: bool)
      requires Valid()
      modifies this
      ensures Valid() && Table() == Put(old(Table()) - {st.id}, st.id, StackEntries(syntax, st))
      ensures ok == (!st.enabled || (Usable(syntax, st.startCron) && Usable(syntax, st.stopCron)))
    {
      RemoveStack(st.id);
      assert st.id !in Table();
      ok := AddStack(st);
    }
  }
}
