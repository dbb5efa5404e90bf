/**
  What the stored rows demand of the cron registry, and how a registry may differ
  from it.  A registry tracks the rows when what it holds for a stored row is that
  row's entries and whatever else it holds belongs to rows once stored; the rows it
  lags behind on are those for which it differs from a boot from the present rows.
  */
module Registry {
  import opened Models
  import opened Scheduling

  function RowEntries(syntax: CronSyntax, schedules: map<Id, Schedule>, stacks: map<Id, Stack>, id: Id): seq<CronEntry> {
    if id in schedules then ScheduleEntries(syntax, schedules[id])
    else if id in stacks then StackEntries(syntax, stacks[id])
    else []
  }

  /** The registrations a boot from these rows makes. */
  function Demand(syntax: CronSyntax, schedules: map<Id, Schedule>, stacks: map<Id, Stack>): Registrations {
    map id | id in schedules.Keys + stacks.Keys && RowEntries(syntax, schedules, stacks, id) != []
      :: RowEntries(syntax, schedules, stacks, id)
  }

  lemma DemandAt(syntax: CronSyntax, schedules: map<Id, Schedule>, stacks: map<Id, Stack>, id: Id)
    ensures id in Demand(syntax, schedules, stacks) <==> RowEntries(syntax, schedules, stacks, id) != []
    ensures id in Demand(syntax, schedules, stacks) ==>
      Demand(syntax, schedules, stacks)[id] == RowEntries(syntax, schedules, stacks, id)
  {
  }

  /** Writing one row changes the demand of that row only. */
  lemma DemandChangesAt(syntax: CronSyntax, schedules: map<Id, Schedule>, stacks: map<Id, Stack>,
                        schedules': map<Id, Schedule>, stacks': map<Id, Stack>, at: Id)
    requires forall id :: id != at ==> RowEntries(syntax, schedules', stacks', id) == RowEntries(syntax, schedules, stacks, id)
    ensures Demand(syntax, schedules', stacks')
         == Put(Demand(syntax, schedules, stacks) - {at}, at, RowEntries(syntax, schedules', stacks', at))
  {
    hide Demand;
    var now := Demand(syntax, schedules', stacks');
    var want := Put(Demand(syntax, schedules, stacks) - {at}, at, RowEntries(syntax, schedules', stacks', at));
    forall id ensures (id in now <==> id in want) && (id in now ==> now[id] == want[id]) {
      DemandAt(syntax, schedules, stacks, id);
      DemandAt(syntax, schedules', stacks', id);
    }
    assert now.Keys == want.Keys;
  }

  lemma DemandOfSchedule(syntax: CronSyntax, schedules: map<Id, Schedule>, stacks: map<Id, Stack>, s: Schedule)
    ensures Demand(syntax, schedules[s.id := s], stacks)
         == Put(Demand(syntax, schedules, stacks) - {s.id}, s.id, ScheduleEntries(syntax, s))
  {
    DemandChangesAt(syntax, schedules, stacks, schedules[s.id := s], stacks, s.id);
  }

  lemma DemandOfStack(syntax: CronSyntax, schedules: map<Id, Schedule>, stacks: map<Id, Stack>, st: Stack)
    requires st.id !in schedules
    ensures Demand(syntax, schedules, stacks[st.id := st])
         == Put(Demand(syntax, schedules, stacks) - {st.id}, st.id, StackEntries(syntax, st))
  {
    DemandChangesAt(syntax, schedules, stacks, schedules, stacks[st.id := st], st.id);
  }

  /** Dropping rows drops exactly their registrations. */
  lemma DemandWithout(syntax: CronSyntax, schedules: map<Id, Schedule>, stacks: map<Id, Stack>, gone: set<Id>)
    requires schedules.Keys !! stacks.Keys
    ensures Demand(syntax, schedules - gone, stacks - gone) == Demand(syntax, schedules, stacks) - gone
  {
  }

  // ---------- Lagging behind ----------

  /** The rows that can demand registrations, the next id to hand out, and the registry beside them. */
  datatype View = View(schedules: map<Id, Schedule>, stacks: map<Id, Stack>, nextId: Id, table: Registrations) {
    predicate Stored(id: Id) { id in schedules || id in stacks }

    function Wanted(syntax: CronSyntax, id: Id): seq<CronEntry> { RowEntries(syntax, schedules, stacks, id) }

    function Held(id: Id): seq<CronEntry> { if id in table then table[id] else [] }

    function Demanded(syntax: CronSyntax): Registrations { Demand(syntax, schedules, stacks) }

    /** The rows for which the registry is not what a boot would make it: demanded and not registered, or the reverse. */
    function Lag(syntax: CronSyntax): set<Id> {
      (Demanded(syntax).Keys - table.Keys) + (table.Keys - Demanded(syntax).Keys)
    }
  }

  ghost predicate Numbered(v: View) {
    forall id: Id :: v.Stored(id) ==> id < v.nextId
  }

  /** What is held for a stored row is what it wants, and whatever else is held is for an id handed out before. */
  ghost predicate Tracks(syntax: CronSyntax, v: View) {
    && Numbered(v)
    && forall id :: id in v.table ==> id < v.nextId && v.table[id] != [] && (v.Stored(id) ==> v.table[id] == v.Wanted(syntax, id))
  }

  lemma OnlyStoredRowsWant(syntax: CronSyntax, v: View, id: Id)
    ensures v.Wanted(syntax, id) != [] ==> v.Stored(id)
    ensures id in v.Demanded(syntax) <==> v.Wanted(syntax, id) != []
    ensures id in v.Demanded(syntax) ==> v.Demanded(syntax)[id] == v.Wanted(syntax, id)
  {
  }

  lemma LagAt(syntax: CronSyntax, v: View, id: Id)
    requires Tracks(syntax, v)
    ensures id in v.Lag(syntax) <==> v.Held(id) != v.Wanted(syntax, id)
    ensures id in v.Lag(syntax) <==> if v.Stored(id) then id !in v.table && v.Wanted(syntax, id) != [] else id in v.table
  {
    OnlyStoredRowsWant(syntax, v, id);
    hide View.Wanted, View.Demanded;
  }

  /** A registry that equals the demand tracks the rows and lags behind on none. */
  lemma RebuiltTracks(syntax: CronSyntax, v: View)
    requires Numbered(v) && v.table == v.Demanded(syntax)
    ensures Tracks(syntax, v) && v.Lag(syntax) == {}
  {
    forall id | id in v.table
      ensures id < v.nextId && v.table[id] == v.Wanted(syntax, id) != []
    {
      OnlyStoredRowsWant(syntax, v, id);
    }
    hide View.Demanded, View.Wanted;
  }

  /** A registry that tracks the rows equals the demand on all others than those it lags behind on. */
  lemma EqualOffLag(syntax: CronSyntax, v: View)
    requires Tracks(syntax, v)
    ensures v.table - v.Lag(syntax) == v.Demanded(syntax) - v.Lag(syntax)
    ensures v.Lag(syntax) == {} <==> v.table == v.Demanded(syntax)
  {
    var demand, lag := v.Demanded(syntax), v.Lag(syntax);
    forall id | id in v.table && id !in lag ensures id in demand && demand[id] == v.table[id] {
      OnlyStoredRowsWant(syntax, v, id);
    }
    hide View.Demanded, View.Wanted, Tracks;
    assert (v.table - lag).Keys == (demand - lag).Keys;
    if lag == {} { assert v.table - lag == v.table && demand - lag == demand; }
  }

  /** The change leaves rows and registrations as they were, but for `touched`, whose registrations are what they should be. */
  ghost predicate CatchesUp(syntax: CronSyntax, was: View, now: View, touched: set<Id>) {
    forall id: Id :: CatchesUpAt(syntax, was, now, touched, id)
  }

  ghost predicate CatchesUpAt(syntax: CronSyntax, was: View, now: View, touched: set<Id>, id: Id) {
    if id in touched then now.Held(id) == now.Wanted(syntax, id)
    else
      && now.Held(id) == was.Held(id) && now.Wanted(syntax, id) == was.Wanted(syntax, id)
      && (now.Stored(id) <==> was.Stored(id))
  }

  /** It catches up, and so the lag shrinks by `touched`. */
  ghost predicate Reached(syntax: CronSyntax, was: View, now: View, touched: set<Id>) {
    CatchesUp(syntax, was, now, touched) && now.Lag(syntax) == was.Lag(syntax) - touched
  }

  lemma CatchesUpTwice(syntax: CronSyntax, a: View, b: View, c: View, first: set<Id>, after: set<Id>)
    requires CatchesUp(syntax, a, b, first) && CatchesUp(syntax, b, c, after)
    ensures CatchesUp(syntax, a, c, first + after)
  {
    forall id: Id ensures CatchesUpAt(syntax, a, c, first + after, id) {
      assert CatchesUpAt(syntax, a, b, first, id) && CatchesUpAt(syntax, b, c, after, id);
    }
  }

  /** Such a change makes up for exactly what was lagging among `touched`, and adds nothing. */
  lemma LagAfterCatchingUp(syntax: CronSyntax, was: View, now: View, touched: set<Id>)
    requires Tracks(syntax, was) && Numbered(now) && was.nextId <= now.nextId
    requires CatchesUp(syntax, was, now, touched)
    requires forall id :: id in touched ==> id < now.nextId
    requires forall id :: id in now.table ==> now.table[id] != []
    ensures Tracks(syntax, now) && now.Lag(syntax) == was.Lag(syntax) - touched
  {
    hide View.Wanted, View.Lag;
    forall id | id in now.table
      ensures id < now.nextId && (now.Stored(id) ==> now.table[id] == now.Wanted(syntax, id))
    {
      assert CatchesUpAt(syntax, was, now, touched, id);
    }
    forall id: Id ensures id in now.Lag(syntax) <==> id in was.Lag(syntax) - touched {
      assert CatchesUpAt(syntax, was, now, touched, id);
      LagAt(syntax, was, id);
      LagAt(syntax, now, id);
    }
  }

  /** Registering a row anew catches up with it, whatever was registered before. */
  lemma RowCatchesUp(syntax: CronSyntax, was: View, now: View, at: Id)
    requires now.schedules - {at} == was.schedules - {at} && now.stacks - {at} == was.stacks - {at}
    requires now.table == Put(was.table - {at}, at, now.Wanted(syntax, at))
    ensures CatchesUp(syntax, was, now, {at})
  {
    forall id: Id | id != at
      ensures (id in now.schedules <==> id in was.schedules) && (id in now.schedules ==> now.schedules[id] == was.schedules[id])
      ensures (id in now.stacks <==> id in was.stacks) && (id in now.stacks ==> now.stacks[id] == was.stacks[id])
    {
      assert id in now.schedules - {at} <==> id in was.schedules - {at};
      assert id in now.stacks - {at} <==> id in was.stacks - {at};
    }
    forall id: Id ensures CatchesUpAt(syntax, was, now, {at}, id) {
    }
  }

  /** A change of neither the rows nor the registry. */
  lemma NothingToCatchUp(syntax: CronSyntax, was: View, now: View)
    requires now.schedules == was.schedules && now.stacks == was.stacks && now.table == was.table
    ensures CatchesUp(syntax, was, now, {})
  {
  }

  /** A stored row that wants nothing owns nothing, and neither does an id not handed out yet. */
  lemma OwnsNothing(syntax: CronSyntax, v: View, id: Id)
    requires Tracks(syntax, v)
    requires id >= v.nextId || (v.Stored(id) && v.Wanted(syntax, id) == [])
    ensures id !in v.table && v.table - {id} == v.table
  {
    assert id !in v.table;
  }

  /** The ids handed out between two moments. */
  function Fresh(first: Id, next: Id): (ids: set<Id>)
    ensures forall id: Id :: id in ids <==> first <= id < next
  {
    if first >= next then {} else Fresh(first, next - 1) + {next - 1}
  }

  // ---------- What the registered entries do ----------

  /** Every row is stored under its own id, and no id is a schedule's and a stack's. */
  ghost predicate Keyed(v: View) {
    && (forall id :: id in v.schedules ==> v.schedules[id].id == id && id !in v.stacks)
    && (forall id :: id in v.stacks ==> v.stacks[id].id == id)
  }

  /**
    The entry does what its row, if it is still stored, asks for: the start expression
    starts the row's container and the stop expression stops it, or the stack's, and
    the row is enabled.
    */
  predicate EntryFits(schedules: map<Id, Schedule>, stacks: map<Id, Stack>, x: CronEntry) {
    match x.action
    case StartContainer(id, container) =>
      && id !in stacks
      && (id in schedules ==>
            schedules[id].enabled && x.spec == schedules[id].startCron != "" && container == schedules[id].container)
    case StopContainer(id, container) =>
      && id !in stacks
      && (id in schedules ==>
            schedules[id].enabled && x.spec == schedules[id].stopCron != "" && container == schedules[id].container)
    case FireStack(id, name, start) =>
      && id !in schedules
      && (id in stacks ==>
            stacks[id].enabled && x.spec == (if start then stacks[id].startCron else stacks[id].stopCron) != ""
            && name == stacks[id].name)
  }

  lemma RegisteredFit(syntax: CronSyntax, v: View, x: CronEntry)
    requires Tracks(syntax, v) && Keyed(v) && Owner(x) in v.table && x in v.table[Owner(x)]
    ensures EntryFits(v.schedules, v.stacks, x)
  {
    if v.Stored(Owner(x)) { assert x in v.Wanted(syntax, Owner(x)); }
  }

  /** The row is enabled, and parser and runner take its expressions. */
  predicate Due(syntax: CronSyntax, enabled: bool, startCron: string, stopCron: string) {
    enabled && Usable(syntax, startCron) && Usable(syntax, stopCron)
  }

  /** An enabled stored row with accepted expressions is registered for each it has, unless the registry lags behind on it. */
  lemma StoredAreRegistered(syntax: CronSyntax, v: View, id: Id)
    requires Tracks(syntax, v) && Keyed(v) && id !in v.Lag(syntax)
    ensures id in v.schedules ==> var s := v.schedules[id]; Due(syntax, s.enabled, s.startCron, s.stopCron) ==>
      && (s.startCron != "" ==> CronEntry(s.startCron, StartContainer(id, s.container)) in v.Held(id))
      && (s.stopCron != "" ==> CronEntry(s.stopCron, StopContainer(id, s.container)) in v.Held(id))
    ensures id in v.stacks ==> var st := v.stacks[id]; Due(syntax, st.enabled, st.startCron, st.stopCron) ==>
      && (st.startCron != "" ==> CronEntry(st.startCron, FireStack(id, st.name, true)) in v.Held(id))
      && (st.stopCron != "" ==> CronEntry(st.stopCron, FireStack(id, st.name, false)) in v.Held(id))
  {
    LagAt(syntax, v, id);
    hide Tracks, View.Lag;
    assert v.Held(id) == v.Wanted(syntax, id);
  }
}
