/**
  The log-rule manager (internal/logwatch/manager.go) beside the log_rules table
  (internal/store/store.go) and the log-rule handlers (internal/web/api.go).  A
  breaker report disables the stored row at once and leaves the removal from memory
  to a goroutine; `pending` holds the removals that have been started but have not
  yet taken the manager's lock.  Events are atomic and interleave freely.
  */
module RuleManaging {
  import opened Wrappers
  import opened Models
  import opened LogRules

  type Rules = map<Id, LogRule>
  type Watchers = map<string, set<LogRule>>

  /** The held rules a container's watcher must run: those of the container that compile. */
  function Watchable(rules: Rules, container: string, regexCompiles: string -> bool): set<LogRule> {
    set id | id in rules && rules[id].container == container && Compiles(rules[id], regexCompiles) :: rules[id]
  }

  /** A container has a watcher exactly when some held rule for it compiles, and then it runs exactly those. */
  ghost predicate IndexedAt(rules: Rules, watchers: Watchers, container: string, regexCompiles: string -> bool) {
    && (container in watchers <==> Watchable(rules, container, regexCompiles) != {})
    && (container in watchers ==> watchers[container] == Watchable(rules, container, regexCompiles))
  }

  ghost predicate Indexed(rules: Rules, watchers: Watchers, regexCompiles: string -> bool, except: set<string>) {
    forall c :: c !in except ==> IndexedAt(rules, watchers, c, regexCompiles)
  }

  /** The fields that decide what a rule does. */
  predicate SameRule(a: LogRule, b: LogRule) {
    && a.id == b.id && a.container == b.container && a.pattern == b.pattern && a.matchType == b.matchType
    && a.cooldownSec == b.cooldownSec
  }

  /** Each held rule is the stored one, and enabled in the store unless its removal is under way. */
  ghost predicate Backed(rules: Rules, rows: Rules, pending: multiset<Id>) {
    forall id :: id in rules ==>
      id in rows && SameRule(rules[id], rows[id]) && (rows[id].enabled || id in pending)
  }

  ghost predicate Keyed(rules: Rules) {
    forall id :: id in rules ==> rules[id].id == id
  }

  /** Every held rule that does not compile has been reported. */
  ghost predicate BrokenReported(rules: Rules, pending: multiset<Id>, regexCompiles: string -> bool) {
    forall id :: id in rules && !Compiles(rules[id], regexCompiles) ==> id in pending
  }

  /** `now` is `was` with some rows disabled. */
  ghost predicate OnlyDisabled(was: Rules, now: Rules) {
    && now.Keys == was.Keys
    && (forall id :: id in was ==>
          now[id] == was[id] || (!now[id].enabled && SameRule(now[id], was[id])))
  }

  /** SetLogRuleDisabled: the row, if there is one, is disabled for the reason given. */
  function ReportedRows(rows: Rules, id: Id, reason: string, dbOk: bool): Rules {
    if dbOk && id in rows then rows[id := rows[id].(enabled := false, disabledReason := Some(reason))] else rows
  }

  lemma DisablingKeepsKeys(was: Rules, now: Rules)
    requires OnlyDisabled(was, now) && Keyed(was)
    ensures Keyed(now) && now.Keys == was.Keys
  {
  }

  /** Changing the rule of one id leaves the containers it does not name as they were. */
  lemma WatchableElsewhere(rules: Rules, rules': Rules, id: Id, container: string, regexCompiles: string -> bool)
    requires rules - {id} == rules' - {id}
    requires id in rules ==> rules[id].container != container
    requires id in rules' ==> rules'[id].container != container
    ensures Watchable(rules', container, regexCompiles) == Watchable(rules, container, regexCompiles)
  {
    forall i | i != id && i in rules ensures i in rules' && rules'[i] == rules[i] {
      assert i in rules - {id} && (rules - {id})[i] == (rules' - {id})[i];
    }
    forall i | i != id && i in rules' ensures i in rules {
      assert i in rules' - {id};
    }
  }

  lemma IndexedElsewhere(rules: Rules, rules': Rules, watchers: Watchers, id: Id, regexCompiles: string -> bool,
                         touched: set<string>)
    requires Indexed(rules, watchers, regexCompiles, {})
    requires rules - {id} == rules' - {id}
    requires id in rules ==> rules[id].container in touched
    requires id in rules' ==> rules'[id].container in touched
    ensures Indexed(rules', watchers, regexCompiles, touched)
  {
    forall c | c !in touched ensures IndexedAt(rules', watchers, c, regexCompiles) {
      WatchableElsewhere(rules, rules', id, c, regexCompiles);
      assert IndexedAt(rules, watchers, c, regexCompiles);
    }
  }

  /** Giving a container the watcher its compiling rules call for removes it from the stale ones. */
  lemma RebuiltIndex(rules: Rules, was: Watchers, now: Watchers, container: string, compiled: set<LogRule>,
                     regexCompiles: string -> bool, stale: set<string>)
    requires Indexed(rules, was, regexCompiles, stale)
    requires compiled == Watchable(rules, container, regexCompiles)
    requires now == if compiled != {} then was[container := compiled] else was - {container}
    ensures Indexed(rules, now, regexCompiles, stale - {container})
  {
    forall c | c !in stale - {container} ensures IndexedAt(rules, now, c, regexCompiles) {
      if c != container { assert IndexedAt(rules, was, c, regexCompiles); }
    }
  }

  // ---------- What a rebuild does ----------

  const INVALID_PATTERN := "invalid pattern"

  /** The held rules of these containers that do not compile. */
  function Broken(rules: Rules, containers: set<string>, regexCompiles: string -> bool): set<Id> {
    set id | id in rules && rules[id].container in containers && !Compiles(rules[id], regexCompiles)
  }

  /** The rows after each of these rules has been reported. */
  function AllReported(rows: Rules, ids: set<Id>, dbOk: Id -> bool): Rules {
    map id | id in rows ::
      if id in ids && dbOk(id) then rows[id].(enabled := false, disabledReason := Some(INVALID_PATTERN)) else rows[id]
  }

  /** The manager and its table at one moment. */
  datatype Moment = Moment(rows: Rules, nextId: Id, rules: Rules, pending: multiset<Id>, running: bool)

  /**
    Rebuilding the watchers of some containers reports exactly the held rules of
    theirs that do not compile: each row is disabled, when the database carries it
    out, and one removal is enqueued for each.  A stopped manager builds nothing.
    */
  function Rebuilt(m: Moment, containers: set<string>, regexCompiles: string -> bool, dbOk: Id -> bool): Moment {
    var broken := if m.running then Broken(m.rules, containers, regexCompiles) else {};
    m.(rows := AllReported(m.rows, broken, dbOk), pending := m.pending + multiset(broken))
  }

  /** upsertLocked: the rule is held exactly when enabled, and its container and its previous one are rebuilt. */
  function Upserted(m: Moment, rule: LogRule, regexCompiles: string -> bool, dbOk: Id -> bool): Moment {
    var held := if rule.enabled then m.rules[rule.id := rule] else m.rules - {rule.id};
    var previous := if rule.id in m.rules then {m.rules[rule.id].container} else {};
    Rebuilt(m.(rules := held), {rule.container} + previous, regexCompiles, dbOk)
  }

  /** RemoveRule: a held rule goes and its container is rebuilt. */
  function Removed(m: Moment, id: Id, regexCompiles: string -> bool, dbOk: Id -> bool): Moment {
    if id in m.rules then Rebuilt(m.(rules := m.rules - {id}), {m.rules[id].container}, regexCompiles, dbOk) else m
  }

  /** The one state that follows an event. */
  function Next(m: Moment, e: Event, regexCompiles: string -> bool): Moment {
    match e
    case Create(req, dbOk, reportOk) =>
      var row := Normalize(req).(id := m.nextId);
      if Validate(Normalize(req), regexCompiles).Some? || !dbOk then m
      else
        var stored := m.(rows := m.rows[row.id := row], nextId := m.nextId + 1);
        if row.enabled then Upserted(stored, row, regexCompiles, reportOk) else stored
    case Update(id, req, dbOk, reportOk) =>
      if id !in m.rows || Validate(Normalize(req), regexCompiles).Some? || !dbOk then m
      else
        var row := Normalize(req).(id := id, lastMatchedAt := m.rows[id].lastMatchedAt,
                                   disabledReason := if req.enabled then None else m.rows[id].disabledReason);
        Upserted(m.(rows := m.rows[id := row]), row, regexCompiles, reportOk)
    case Toggle(id, dbOk, reportOk) =>
      if id !in m.rows || !dbOk then m
      else if m.rows[id].enabled then
        Removed(m.(rows := m.rows[id := m.rows[id].(enabled := false)]), id, regexCompiles, reportOk)
      else
        var row := m.rows[id].(enabled := true, disabledReason := None);
        Upserted(m.(rows := m.rows[id := row]), row, regexCompiles, reportOk)
    case Delete(id, dbOk, reportOk) =>
      if dbOk then Removed(m.(rows := m.rows - {id}), id, regexCompiles, reportOk) else m
    case Trip(id, reason, dbOk) =>
      m.(rows := ReportedRows(m.rows, id, reason, dbOk), pending := m.pending + multiset{id})
    case Touch(id, at, dbOk) =>
      if dbOk && id in m.rows then m.(rows := m.rows[id := m.rows[id].(lastMatchedAt := Some(at))]) else m
    case Removal(id, reportOk) =>
      if id in m.pending then Removed(m.(pending := m.pending - multiset{id}), id, regexCompiles, reportOk) else m
    case Shutdown => m.(running := false)
  }

  lemma NothingReported(rows: Rules, dbOk: Id -> bool)
    ensures AllReported(rows, {}, dbOk) == rows
  {
  }

  lemma OneMoreReported(rows: Rules, ids: set<Id>, id: Id, dbOk: Id -> bool)
    requires id !in ids
    ensures ReportedRows(AllReported(rows, ids, dbOk), id, INVALID_PATTERN, dbOk(id)) == AllReported(rows, ids + {id}, dbOk)
    ensures multiset(ids + {id}) == multiset(ids) + multiset{id}
  {
  }

  lemma ReportsOnlyDisable(rows: Rules, ids: set<Id>, dbOk: Id -> bool)
    ensures OnlyDisabled(rows, AllReported(rows, ids, dbOk))
  {
  }

  /** Disabling rows of rules whose removals are enqueued with it keeps every held rule backed. */
  lemma ReportsKeepBacking(rules: Rules, rows: Rules, pending: multiset<Id>, ids: set<Id>, dbOk: Id -> bool)
    requires Backed(rules, rows, pending)
    ensures Backed(rules, AllReported(rows, ids, dbOk), pending + multiset(ids))
  {
  }

  /** Rebuilding containers one after the other is rebuilding them together. */
  lemma RebuiltTwice(m: Moment, containers: set<string>, container: string, regexCompiles: string -> bool, dbOk: Id -> bool)
    requires container !in containers
    ensures Rebuilt(Rebuilt(m, containers, regexCompiles, dbOk), {container}, regexCompiles, dbOk)
         == Rebuilt(m, containers + {container}, regexCompiles, dbOk)
  {
    hide Compiles;
    if m.running {
      var a, b := Broken(m.rules, containers, regexCompiles), Broken(m.rules, {container}, regexCompiles);
      assert Broken(m.rules, containers + {container}, regexCompiles) == a + b;
      assert multiset(a + b) == multiset(a) + multiset(b);
      ReportedTogether(m.rows, a, b, dbOk);
    } else {
      NothingReported(m.rows, dbOk);
    }
  }

  lemma ReportedTogether(rows: Rules, a: set<Id>, b: set<Id>, dbOk: Id -> bool)
    ensures AllReported(AllReported(rows, a, dbOk), b, dbOk) == AllReported(rows, a + b, dbOk)
  {
  }

  lemma RebuiltNone(m: Moment, regexCompiles: string -> bool, dbOk: Id -> bool)
    ensures Rebuilt(m, {}, regexCompiles, dbOk) == m
  {
    assert Broken(m.rules, {}, regexCompiles) == {};
    NothingReported(m.rows, dbOk);
  }

  class Manager {
    const regexCompiles: string -> bool
    var rows: Rules            // the log_rules table
    var nextId: Id
    var rules: Rules           // m.rules
    var watchers: Watchers     // m.watchers
    var running: bool          // m.ctx set and not cancelled
    var pending: multiset<Id>  // RemoveRule goroutines that have not run yet

    constructor (regexCompiles: string -> bool, rows: Rules, nextId: Id)
      requires Keyed(rows) && forall id :: id in rows ==> id < nextId
      ensures this.regexCompiles == regexCompiles && this.rows == rows && rules == map[] && pending == multiset{}
      ensures Valid() && !running
    {
      this.regexCompiles, this.rows, this.nextId := regexCompiles, rows, nextId;
      rules, watchers, running, pending := map[], map[], false, multiset{};
    }

    ghost predicate Valid()
      reads this
    {
      ValidExcept({})
    }

    /** The invariant while the watchers of some containers await their rebuild. */
    ghost predicate ValidExcept(stale: set<string>)
      reads this
    {
      && Keyed(rows) && Keyed(rules)
      && (forall id :: id in rows ==> id < nextId)
      && Backed(rules, rows, pending)
      && (running ==> Indexed(rules, watchers, regexCompiles, stale))
      && (!running ==> watchers == map[])
      && (running ==>
            forall id :: id in rules && rules[id].container !in stale && !Compiles(rules[id], regexCompiles) ==> id in pending)
    }

    /** The invariant while the rule `id` may disagree with its row. */
    ghost predicate ValidBut(id: Id)
      reads this
    {
      && Keyed(rows) && Keyed(rules)
      && (forall i :: i in rows ==> i < nextId)
      && Backed(rules - {id}, rows, pending)
      && (running ==> Indexed(rules, watchers, regexCompiles, {}))
      && (!running ==> watchers == map[])
      && (running ==> BrokenReported(rules - {id}, pending, regexCompiles))
    }

    /** onBreakerTrip: disable the stored row now, remove the rule later. */
    method Report(id: Id, reason: string, dbOk: bool)
      modifies this`rows, this`pending
      ensures rows == ReportedRows(old(rows), id, reason, dbOk)
      ensures OnlyDisabled(old(rows), rows)
      ensures pending == old(pending) + multiset{id}
    {
      if dbOk && id in rows {
        rows := rows[id := rows[id].(enabled := false, disabledReason := Some(reason))];
      }
      pending := pending + multiset{id};
    }

    /** newWatcher: compile the container's held rules, reporting each that does not compile. */
    method NewWatcher(container: string, dbOk: Id -> bool) returns (compiled: set<LogRule>)
      modifies this`rows, this`pending
      ensures compiled == Watchable(rules, container, regexCompiles)
      ensures rows == AllReported(old(rows), Broken(rules, {container}, regexCompiles), dbOk)
      ensures pending == old(pending) + multiset(Broken(rules, {container}, regexCompiles))
    {
      hide Compiles, SameRule, AllReported, ReportedRows;
      compiled := {};
      var rest := set id | id in rules && rules[id].container == container;
      ghost var all := rest;
      ghost var reported: set<Id> := {};
      NothingReported(rows, dbOk);
      while rest != {}
        invariant rest <= all
        invariant compiled == set id | id in all - rest && Compiles(rules[id], regexCompiles) :: rules[id]
        invariant reported == set id | id in all - rest && !Compiles(rules[id], regexCompiles)
        invariant rows == AllReported(old(rows), reported, dbOk) && pending == old(pending) + multiset(reported)
        decreases rest
      {
        var id :| id in rest;
        if Compiles(rules[id], regexCompiles) {
          compiled := compiled + {rules[id]};
        } else {
          OneMoreReported(old(rows), reported, id, dbOk);
          Report(id, INVALID_PATTERN, dbOk(id));
          reported := reported + {id};
        }
        rest := rest - {id};
      }
      assert reported == Broken(rules, {container}, regexCompiles);
    }

    ghost function Now(): Moment
      reads this
    {
      Moment(rows, nextId, rules, pending, running)
    }

    /**
      rebuildLocked: stop the container's watcher and start one over the held rules
      that compile, unless none does or the manager is not running.
      */
    method Rebuild(container: string, ghost stale: set<string>, dbOk: Id -> bool)
      requires ValidExcept(stale)
      modifies this`rows, this`pending, this`watchers
      ensures ValidExcept(stale - {container})
      ensures Now() == Rebuilt(old(Now()), {container}, regexCompiles, dbOk)
    {
      hide Compiles, Backed, Indexed, IndexedAt, Watchable, OnlyDisabled, SameRule, AllReported, Broken;
      ghost var was := watchers;
      watchers := watchers - {container};
      NothingReported(rows, dbOk);
      if !running { return; }
      ghost var broken := Broken(rules, {container}, regexCompiles);
      ReportsKeepBacking(rules, rows, pending, broken, dbOk);
      ReportsOnlyDisable(rows, broken, dbOk);
      BrokenMembers(rules, container, regexCompiles);
      var compiled := NewWatcher(container, dbOk);
      DisablingKeepsKeys(old(rows), rows);
      if compiled != {} { watchers := watchers[container := compiled]; }
      assert watchers == if compiled != {} then was[container := compiled] else was - {container};
      RebuiltIndex(rules, was, watchers, container, compiled, regexCompiles, stale);
    }

    /** upsertLocked: hold the rule, or drop it when disabled, and rebuild its container and its previous one. */
    method Upsert(rule: LogRule, dbOk: Id -> bool)
      requires ValidBut(rule.id) && rule.id in rows && SameRule(rule, rows[rule.id])
      requires rule.enabled ==> rows[rule.id].enabled
      modifies this`rows, this`pending, this`watchers, this`rules
      ensures Valid()
      ensures Now() == Upserted(old(Now()), rule, regexCompiles, dbOk)
    {
      hide Compiles, Indexed, IndexedAt, Watchable, Rebuilt, Backed;
      ghost var before := rules;
      HeldIsBacked(rules, rows, pending, rule);
      var existed := rule.id in rules;
      var oldContainer := if existed then rules[rule.id].container else rule.container;
      rules := if rule.enabled then rules[rule.id := rule] else rules - {rule.id};
      ghost var stale := {rule.container, oldContainer};
      if running { IndexedElsewhere(before, rules, watchers, rule.id, regexCompiles, stale); }
      assert stale == {rule.container} + if existed then {oldContainer} else {};
      RebuildBoth(oldContainer, rule.container, dbOk);
    }

    method RebuildBoth(oldContainer: string, container: string, dbOk: Id -> bool)
      requires ValidExcept({container, oldContainer})
      modifies this`rows, this`pending, this`watchers
      ensures Valid()
      ensures Now() == Rebuilt(old(Now()), {container, oldContainer}, regexCompiles, dbOk)
    {
      hide Manager.ValidExcept, Rebuilt;
      if oldContainer != container {
        assert {oldContainer} + {container} == {container, oldContainer};
        RebuiltTwice(Now(), {oldContainer}, container, regexCompiles, dbOk);
        Rebuild(oldContainer, {container, oldContainer}, dbOk);
        assert {container, oldContainer} - {oldContainer} == {container};
        Rebuild(container, {container}, dbOk);
      } else {
        assert {container, oldContainer} == {container};
        Rebuild(container, {container}, dbOk);
      }
      assert {container} - {container} == {};
    }

    method AddRule(rule: LogRule, dbOk: Id -> bool)
      requires ValidBut(rule.id) && rule.id in rows && SameRule(rule, rows[rule.id])
      requires rule.enabled ==> rows[rule.id].enabled
      modifies this`rows, this`pending, this`watchers, this`rules
      ensures Valid() && Now() == Upserted(old(Now()), rule, regexCompiles, dbOk)
    {
      Upsert(rule, dbOk);
    }

    method UpdateRule(rule: LogRule, dbOk: Id -> bool)
      requires ValidBut(rule.id) && rule.id in rows && SameRule(rule, rows[rule.id])
      requires rule.enabled ==> rows[rule.id].enabled
      modifies this`rows, this`pending, this`watchers, this`rules
      ensures Valid() && Now() == Upserted(old(Now()), rule, regexCompiles, dbOk)
    {
      Upsert(rule, dbOk);
    }

    /** Drops a held rule.  The row may already be gone, or still be enabled. */
    method RemoveRule(id: Id, dbOk: Id -> bool)
      requires ValidBut(id)
      modifies this`rows, this`pending, this`watchers, this`rules
      ensures Valid() && Now() == Removed(old(Now()), id, regexCompiles, dbOk)
    {
      hide Compiles, SameRule, Indexed, OnlyDisabled, Rebuilt;
      if id !in rules {
        assert rules - {id} == rules;
        return;
      }
      ghost var before := rules;
      var container := rules[id].container;
      rules := rules - {id};
      if running { IndexedElsewhere(before, rules, watchers, id, regexCompiles, {container}); }
      Rebuild(container, {container}, dbOk);
      assert {container} - {container} == {};
    }

    /** A removal goroutine gets the lock: it uses up its place, even when the rule was enabled again meanwhile. */
    method DelayedRemoval(id: Id, dbOk: Id -> bool)
      requires Valid() && id in pending
      modifies this`rows, this`pending, this`watchers, this`rules
      ensures Valid() && Now() == Next(old(Now()), Removal(id, dbOk), regexCompiles)
    {
      hide Compiles, SameRule, OnlyDisabled, Indexed, Removed;
      pending := pending - multiset{id};
      RemoveRule(id, dbOk);
    }

    /**
      With no new requests and no fires the removals under way, and those their own
      rebuilds start, come to an end whatever order they get the lock in: each either
      shrinks the rules held or uses up a removal.  What is left is exactly the rules
      no removal was pending for; all of them compile and are enabled in the store.
      `dbOk(k, id)` says whether the report of `id` during the k-th removal is stored.
      */
    method Quiesce(dbOk: (nat, Id) -> bool)
      requires Valid() && running
      modifies this`rows, this`pending, this`watchers, this`rules
      ensures Valid() && pending == multiset{}
      ensures rules == map id | id in old(rules) && id !in old(pending) :: old(rules)[id]
      ensures forall id :: id in rules ==> Compiles(rules[id], regexCompiles) && id in rows && rows[id].enabled
      ensures OnlyDisabled(old(rows), rows)
    {
      hide Manager.Valid, Compiles, OnlyDisabled, Draining;
      OnlyDisabledItself(rows);
      DrainingStarts();
      var step := 0;
      while pending != multiset{}
        invariant Valid() && running
        invariant OnlyDisabled(old(rows), rows)
        invariant Draining(old(rules), old(pending), rules, pending)
        decreases |rules|, |pending|
      {
        var id :| id in pending;
        ghost var before := rows;
        var k := step;
        OneRemoval(id, (i: Id) => dbOk(k, i), old(rules), old(pending));
        OnlyDisabledTwice(old(rows), before, rows);
        step := step + 1;
      }
      Drained(old(rules), old(pending), rules);
      BrokenIsPending();
    }

    method OneRemoval(id: Id, dbOk: Id -> bool, ghost rulesAtFirst: Rules, ghost pendingAtFirst: multiset<Id>)
      requires Valid() && running && id in pending && Draining(rulesAtFirst, pendingAtFirst, rules, pending)
      modifies this`rows, this`pending, this`watchers, this`rules
      ensures Valid() && OnlyDisabled(old(rows), rows)
      ensures Draining(rulesAtFirst, pendingAtFirst, rules, pending)
      ensures |rules| < |old(rules)| || (rules == old(rules) && |pending| < |old(pending)|)
    {
      hide Manager.Valid, Compiles, OnlyDisabled, Draining, Next;
      BrokenIsPending();
      ghost var was := Now();
      DelayedRemoval(id, dbOk);
      RemovalMeans(was, id, regexCompiles, dbOk);
      DrainingGoesOn(rulesAtFirst, pendingAtFirst, old(rules), old(pending), rules, pending, id, regexCompiles);
      if id in old(rules) { SmallerMap(old(rules), id); } else { assert rules == old(rules); }
    }

    lemma DrainingStarts()
      ensures Draining(rules, pending, rules, pending)
    {
    }

    lemma BrokenIsPending()
      requires Valid() && running
      ensures forall id :: id in rules && id !in pending ==> Compiles(rules[id], regexCompiles) && id in rows && rows[id].enabled
    {
    }

    // ---------- The log-rule handlers ----------

    method CreateLogRule(req: LogRule, dbOk: bool, reportOk: Id -> bool) returns (status: RuleStatus)
      requires Valid()
      modifies this`rows, this`pending, this`watchers, this`rules, this`nextId
      ensures Valid() && Now() == Next(old(Now()), Create(req, dbOk, reportOk), regexCompiles)
      ensures status == if !WellFormed(req, regexCompiles) then Invalid else if dbOk then Done else Failed
    {
      hide Compiles, Indexed, Upserted;
      TakenRules(req, regexCompiles);
      var row := Normalize(req).(id := nextId);
      if Validate(row, regexCompiles).Some? { return Invalid; }
      if !dbOk { return Failed; }
      assert row.id !in rows && row.id !in rules;
      nextId := nextId + 1;
      rows := rows[row.id := row];
      assert rules - {row.id} == rules;
      if row.enabled { AddRule(row, reportOk); }
      status := Done;
    }

    method UpdateLogRule(id: Id, req: LogRule, dbOk: bool, reportOk: Id -> bool) returns (status: RuleStatus)
      requires Valid()
      modifies this`rows, this`pending, this`watchers, this`rules
      ensures Valid() && Now() == Next(old(Now()), Update(id, req, dbOk, reportOk), regexCompiles)
      ensures status ==
        if id !in old(rows) then Missing
        else if !WellFormed(req, regexCompiles) then Invalid
        else if dbOk then Done else Failed
    {
      hide Compiles, Indexed, Upserted;
      TakenRules(req, regexCompiles);
      if id !in rows { return Missing; }
      var existing := rows[id];
      var row := Normalize(req).(id := id);
      if Validate(row, regexCompiles).Some? { return Invalid; }
      row := row.(lastMatchedAt := existing.lastMatchedAt);
      row := row.(disabledReason := if row.enabled then None else existing.disabledReason);
      if !dbOk { return Failed; }
      rows := rows[id := row];
      UpdateRule(row, reportOk);
      status := Done;
    }

    method ToggleLogRule(id: Id, dbOk: bool, reportOk: Id -> bool) returns (status: RuleStatus)
      requires Valid()
      modifies this`rows, this`pending, this`watchers, this`rules
      ensures Valid() && Now() == Next(old(Now()), Toggle(id, dbOk, reportOk), regexCompiles)
      ensures status == if id in old(rows) && dbOk then Done else Missing
    {
      hide Compiles, Indexed, Upserted, Removed;
      if id !in rows || !dbOk { return Missing; }
      var row := rows[id].(enabled := !rows[id].enabled);
      if row.enabled { row := row.(disabledReason := None); }
      rows := rows[id := row];
      if row.enabled { AddRule(row, reportOk); } else { RemoveRule(id, reportOk); }
      status := Done;
    }

    method DeleteLogRule(id: Id, dbOk: bool, reportOk: Id -> bool) returns (status: RuleStatus)
      requires Valid()
      modifies this`rows, this`pending, this`watchers, this`rules
      ensures Valid() && Now() == Next(old(Now()), Delete(id, dbOk, reportOk), regexCompiles)
      ensures status == if dbOk then Done else Failed
    {
      hide Compiles, Indexed, Removed;
      if !dbOk { return Failed; }
      rows := rows - {id};
      RemoveRule(id, reportOk);
      status := Done;
    }

    // ---------- Runs ----------

    /**
      One event.  A trip or a match may name any rule at all: it may come from a watcher
      that is already stopping.
      */
    method Step(e: Event)
      requires Valid()
      modifies this`rows, this`pending, this`watchers, this`rules, this`nextId, this`running
      ensures Valid() && Now() == Next(old(Now()), e, regexCompiles)
    {
      hide Manager.Valid, Manager.ValidExcept, Upserted, Removed, Validate, Normalize, ReportedRows;
      match e
      case Create(req, dbOk, reportOk) => var _ := CreateLogRule(req, dbOk, reportOk);
      case Update(id, req, dbOk, reportOk) => var _ := UpdateLogRule(id, req, dbOk, reportOk);
      case Toggle(id, dbOk, reportOk) => var _ := ToggleLogRule(id, dbOk, reportOk);
      case Delete(id, dbOk, reportOk) => var _ := DeleteLogRule(id, dbOk, reportOk);
      case Trip(id, reason, dbOk) => BreakerTrip(id, reason, dbOk);
      case Touch(id, at, dbOk) => Matched(id, at, dbOk);
      case Removal(id, reportOk) => if id in pending { DelayedRemoval(id, reportOk); }
      case Shutdown => Stop();
    }

    method BreakerTrip(id: Id, reason: string, dbOk: bool)
      requires Valid()
      modifies this`rows, this`pending
      ensures Valid() && Now() == Next(old(Now()), Trip(id, reason, dbOk), regexCompiles)
    {
      hide Compiles, Indexed;
      ghost var rowsBefore, pendingBefore := rows, pending;
      Report(id, reason, dbOk);
      StillBacked(rules, rowsBefore, pendingBefore, rows, pending, id);
    }

    /** onMatched: the stored row remembers when it last matched. */
    method Matched(id: Id, at: int, dbOk: bool)
      requires Valid()
      modifies this`rows
      ensures Valid() && Now() == Next(old(Now()), Touch(id, at, dbOk), regexCompiles)
    {
      hide Compiles, Indexed;
      if dbOk && id in rows { rows := rows[id := rows[id].(lastMatchedAt := Some(at))]; }
    }

    /**
      Boot the manager and let any events interleave: every held rule is the stored
      one, and enabled in the store unless its removal is pending; with none pending
      the held rules are among the enabled rows.  While the manager runs, each
      container's watcher runs exactly its held rules that compile; once it is
      stopped there are no watchers.
      */
    method Run(listOk: bool, reportOk: Id -> bool, events: seq<Event>) returns (ghost history: seq<Moment>)
      requires Valid() && !running && rules == map[]
      modifies this
      ensures Valid()
      ensures Backed(rules, rows, pending)
      ensures pending == multiset{} ==>
        forall id :: id in rules ==> id in rows && rows[id].enabled && SameRule(rules[id], rows[id])
      ensures running ==> Indexed(rules, watchers, regexCompiles, {}) && BrokenReported(rules, pending, regexCompiles)
      ensures !running ==> watchers == map[]
      ensures Shutdown in events ==> !running
      ensures |history| == |events| + 1 && history[|events|] == Now()
      ensures history[0] == if listOk then Started(old(Now()), regexCompiles, reportOk) else old(Now())
      ensures forall k :: 0 <= k < |events| ==> history[k + 1] == Next(history[k], events[k], regexCompiles)
    {
      hide Next, Started;
      var started := Start(listOk, reportOk);
      history := [Now()];
      for k := 0 to |events|
        invariant Valid()
        invariant Shutdown in events[..k] ==> !running
        invariant |history| == k + 1 && history[k] == Now()
        invariant history[0] == if listOk then Started(old(Now()), regexCompiles, reportOk) else old(Now())
        invariant forall j :: 0 <= j < k ==> history[j + 1] == Next(history[j], events[j], regexCompiles)
      {
        assert events[..k + 1] == events[..k] + [events[k]];
        Step(events[k]);
        NoRestart(history[k], events[k], regexCompiles);
        history := history + [Now()];
      }
      assert events[..|events|] == events;
    }

    /** Start: hold the enabled rows and build every container's watcher; nothing happens when they cannot be listed. */
    method Start(listOk: bool, dbOk: Id -> bool) returns (ok: bool)
      requires Valid() && !running && rules == map[]
      modifies this
      ensures Valid() && ok == listOk
      ensures Now() == if listOk then Started(old(Now()), regexCompiles, dbOk) else old(Now())
    {
      hide Compiles, Rebuilt, Indexed, Backed, Keyed, EnabledRows, ContainersOf;
      if !listOk { return false; }
      running := true;
      rules := EnabledRows(rows);
      var containers := ContainersOf(rules);
      EnabledRowsBacked(rows, pending);
      UnwatchedElsewhere(rules, containers, regexCompiles);
      RebuildAll(containers, dbOk);
      ok := true;
    }

    method RebuildAll(containers: set<string>, dbOk: Id -> bool)
      requires ValidExcept(containers)
      modifies this`rows, this`pending, this`watchers
      ensures Valid() && Now() == Rebuilt(old(Now()), containers, regexCompiles, dbOk)
    {
      hide Manager.ValidExcept, Rebuilt;
      var rest := containers;
      RebuiltNone(Now(), regexCompiles, dbOk);
      assert containers - rest == {};
      while rest != {}
        invariant ValidExcept(rest) && rest <= containers
        invariant Now() == Rebuilt(old(Now()), containers - rest, regexCompiles, dbOk)
        decreases rest
      {
        var c :| c in rest;
        RebuiltTwice(old(Now()), containers - rest, c, regexCompiles, dbOk);
        assert containers - (rest - {c}) == (containers - rest) + {c};
        Rebuild(c, rest, dbOk);
        rest := rest - {c};
      }
      assert containers - {} == containers;
    }

    /** Stop: cancel the context; from then on no watcher is ever built again. */
    method Stop()
      requires Valid()
      modifies this`running, this`watchers
      ensures Valid() && watchers == map[] && Now() == Next(old(Now()), Shutdown, regexCompiles)
    {
      running, watchers := false, map[];
    }
  }

  datatype RuleStatus = Done | Missing | Invalid | Failed

  datatype Event =
    | Create(req: LogRule, dbOk: bool, reportOk: Id -> bool)
    | Update(id: Id, req: LogRule, dbOk: bool, reportOk: Id -> bool)
    | Toggle(id: Id, dbOk: bool, reportOk: Id -> bool)
    | Delete(id: Id, dbOk: bool, reportOk: Id -> bool)
    | Trip(id: Id, reason: string, dbOk: bool)
    | Touch(id: Id, at: int, dbOk: bool)
    | Removal(id: Id, reportOk: Id -> bool)
    | Shutdown

  /** After a start: the enabled rows are held and every container of theirs has been rebuilt. */
  function Started(m: Moment, regexCompiles: string -> bool, dbOk: Id -> bool): Moment {
    var held := EnabledRows(m.rows);
    Rebuilt(m.(rules := held, running := true), ContainersOf(held), regexCompiles, dbOk)
  }

  function EnabledRows(rows: Rules): Rules { map id | id in rows && rows[id].enabled :: rows[id] }

  function ContainersOf(rules: Rules): set<string> { set id | id in rules :: rules[id].container }

  lemma EnabledRowsBacked(rows: Rules, pending: multiset<Id>)
    requires Keyed(rows)
    ensures Keyed(EnabledRows(rows)) && Backed(EnabledRows(rows), rows, pending)
    ensures forall id :: id in EnabledRows(rows) ==> EnabledRows(rows)[id].container in ContainersOf(EnabledRows(rows))
  {
    SameRuleReflexive();
    hide SameRule;
  }

  lemma NoRestart(m: Moment, e: Event, regexCompiles: string -> bool)
    ensures Next(m, e, regexCompiles).running == (m.running && !e.Shutdown?)
  {
  }

  // ---------- What the events do, field by field ----------

  /** The row an edit writes: what was asked for, a missing match type being a substring match. */
  function RowFor(req: LogRule, id: Id, lastMatchedAt: Option<int>, disabledReason: Option<string>): LogRule {
    LogRule(id, req.container, req.pattern, if req.matchType == "" then "substring" else req.matchType, req.enabled,
            req.cooldownSec, disabledReason, lastMatchedAt)
  }

  /** A request that is taken: all fields given, no negative cooldown, a known match type, and a pattern that compiles. */
  predicate WellFormed(req: LogRule, regexCompiles: string -> bool) {
    && req.container != "" && req.pattern != "" && req.cooldownSec >= 0
    && (req.matchType == "" || req.matchType == "substring" || (req.matchType == "regex" && regexCompiles(req.pattern)))
  }

  /** A new rule is stored as asked for, under the next id, and held exactly when enabled; a bad request changes nothing. */
  lemma CreateMeans(m: Moment, req: LogRule, dbOk: bool, reportOk: Id -> bool, regexCompiles: string -> bool)
    requires m.nextId !in m.rules
    ensures var now := Next(m, Create(req, dbOk, reportOk), regexCompiles);
      var row := RowFor(req, m.nextId, req.lastMatchedAt, req.disabledReason);
      if WellFormed(req, regexCompiles) && dbOk
      then
        && m.nextId in now.rows && now.rows[m.nextId] == row && now.nextId == m.nextId + 1
        && OnlyDisabled(m.rows[m.nextId := row], now.rows)
        && now.rules == if req.enabled then m.rules[m.nextId := row] else m.rules
      else now == m
  {
    TakenRules(req, regexCompiles);
    var row := Normalize(req).(id := m.nextId);
    var stored := m.(rows := m.rows[row.id := row], nextId := m.nextId + 1);
    assert Compiles(row, regexCompiles) <==> Compiles(Normalize(req), regexCompiles);
    hide Rebuilt, Upserted, Compiles, Validate, Normalize, OnlyDisabled;
    OnlyDisabledItself(stored.rows);
    UpsertedKeeps(stored, row, regexCompiles, reportOk);
  }

  /**
    An edited rule is stored as asked for, keeping when it last matched and, while it
    stays disabled, why; it is held exactly when enabled.
    */
  lemma UpdateMeans(m: Moment, id: Id, req: LogRule, dbOk: bool, reportOk: Id -> bool, regexCompiles: string -> bool)
    ensures var now := Next(m, Update(id, req, dbOk, reportOk), regexCompiles);
      if id in m.rows && WellFormed(req, regexCompiles) && dbOk
      then
        var row := RowFor(req, id, m.rows[id].lastMatchedAt, if req.enabled then None else m.rows[id].disabledReason);
        && id in now.rows && now.rows[id] == row && OnlyDisabled(m.rows[id := row], now.rows) && now.nextId == m.nextId
        && now.rules == if req.enabled then m.rules[id := row] else m.rules - {id}
      else now == m
  {
    TakenRules(req, regexCompiles);
    if id in m.rows && Validate(Normalize(req), regexCompiles).None? && dbOk {
      var row := Normalize(req).(id := id, lastMatchedAt := m.rows[id].lastMatchedAt,
                                 disabledReason := if req.enabled then None else m.rows[id].disabledReason);
      assert Compiles(row, regexCompiles) <==> Compiles(Normalize(req), regexCompiles);
      hide Rebuilt, Upserted, Compiles, Validate, Normalize, OnlyDisabled;
      UpsertedKeeps(m.(rows := m.rows[id := row]), row, regexCompiles, reportOk);
    }
  }

  lemma UpsertedKeeps(m: Moment, rule: LogRule, regexCompiles: string -> bool, dbOk: Id -> bool)
    ensures var now := Upserted(m, rule, regexCompiles, dbOk);
      && now.rules == (if rule.enabled then m.rules[rule.id := rule] else m.rules - {rule.id})
      && now.nextId == m.nextId && OnlyDisabled(m.rows, now.rows)
      && (Compiles(rule, regexCompiles) && rule.id in m.rows ==> rule.id in now.rows && now.rows[rule.id] == m.rows[rule.id])
  {
    hide Compiles;
  }

  /** The flag flips, enabling forgets why the rule was disabled, and the rule is held exactly when enabled. */
  lemma ToggleMeans(m: Moment, id: Id, dbOk: bool, reportOk: Id -> bool, regexCompiles: string -> bool)
    ensures var now := Next(m, Toggle(id, dbOk, reportOk), regexCompiles);
      if id !in m.rows || !dbOk then now == m
      else if m.rows[id].enabled then
        && now.rules == m.rules - {id} && id in now.rows && now.rows[id] == m.rows[id].(enabled := false)
      else
        var row := m.rows[id].(enabled := true, disabledReason := None);
        && now.rules == m.rules[row.id := row] && id in now.rows
        && (Compiles(row, regexCompiles) && row.id == id ==> now.rows[id] == row)
  {
    hide Compiles;
    if id in m.rows && m.rows[id].enabled { assert id !in m.rules ==> m.rules - {id} == m.rules; }
  }

  /** The row goes and the rule is not held; of the other rows some may have been disabled. */
  lemma DeleteMeans(m: Moment, id: Id, dbOk: bool, reportOk: Id -> bool, regexCompiles: string -> bool)
    ensures var now := Next(m, Delete(id, dbOk, reportOk), regexCompiles);
      if dbOk then now.rules == m.rules - {id} && OnlyDisabled(m.rows - {id}, now.rows) && now.nextId == m.nextId
      else now == m
  {
    hide Compiles;
    OnlyDisabledItself(m.rows - {id});
    if id !in m.rules { assert m.rules - {id} == m.rules; }
  }

  /** The reported row is disabled for the reason given, one removal is enqueued, and nothing else changes. */
  lemma TripMeans(m: Moment, id: Id, reason: string, dbOk: bool, regexCompiles: string -> bool)
    ensures var now := Next(m, Trip(id, reason, dbOk), regexCompiles);
      && now.pending == m.pending + multiset{id} && now.rules == m.rules && now.rows.Keys == m.rows.Keys
      && (forall i :: i in m.rows && !(i == id && dbOk) ==> now.rows[i] == m.rows[i])
      && (id in m.rows && dbOk ==> now.rows[id] == m.rows[id].(enabled := false, disabledReason := Some(reason)))
  {
  }

  /** A start holds exactly the enabled rows, as they are stored; rebuilding may then disable rows. */
  lemma StartMeans(m: Moment, regexCompiles: string -> bool, dbOk: Id -> bool)
    ensures var now := Started(m, regexCompiles, dbOk);
      && now.running && now.nextId == m.nextId && OnlyDisabled(m.rows, now.rows)
      && (forall id :: id in now.rules <==> id in m.rows && m.rows[id].enabled)
      && (forall id :: id in now.rules ==> now.rules[id] == m.rows[id])
  {
    hide Compiles;
  }

  /** The pattern is looked for as it stands, or is a regular expression that compiles. */
  predicate Runs(r: LogRule, regexCompiles: string -> bool) {
    r.matchType == "substring" || (r.matchType == "regex" && regexCompiles(r.pattern))
  }

  predicate Held(rules: Rules, r: LogRule) { exists id :: id in rules && rules[id] == r }

  lemma WatchableMeans(rules: Rules, c: string, regexCompiles: string -> bool, r: LogRule)
    ensures r in Watchable(rules, c, regexCompiles) <==> r.container == c && Runs(r, regexCompiles) && Held(rules, r)
  {
    if r.container == c && Runs(r, regexCompiles) && Held(rules, r) {
      var id :| id in rules && rules[id] == r;
      assert rules[id] in Watchable(rules, c, regexCompiles);
    }
  }

  /** What the containers' watchers run when the index is right: each held rule that can run, for its container, and no other. */
  lemma IndexMeans(rules: Rules, watchers: Watchers, regexCompiles: string -> bool)
    requires Indexed(rules, watchers, regexCompiles, {})
    ensures forall c, r :: c in watchers && r in watchers[c] ==>
      r.container == c && Runs(r, regexCompiles) && Held(rules, r)
    ensures forall id :: id in rules && Runs(rules[id], regexCompiles) ==>
      rules[id].container in watchers && rules[id] in watchers[rules[id].container]
    ensures forall c :: c in watchers ==> watchers[c] != {}
  {
    forall c, r | c in watchers && r in watchers[c]
      ensures r.container == c && Runs(r, regexCompiles) && Held(rules, r)
    {
      assert IndexedAt(rules, watchers, c, regexCompiles);
      WatchableMeans(rules, c, regexCompiles, r);
    }
    forall id | id in rules && Runs(rules[id], regexCompiles)
      ensures rules[id].container in watchers && rules[id] in watchers[rules[id].container]
    {
      assert IndexedAt(rules, watchers, rules[id].container, regexCompiles);
      WatchableMeans(rules, rules[id].container, regexCompiles, rules[id]);
    }
    forall c | c in watchers ensures watchers[c] != {} {
      assert IndexedAt(rules, watchers, c, regexCompiles);
    }
  }

  /** Every held rule is stored with the same fields, and enabled there unless its removal is under way. */
  lemma BackingMeans(rules: Rules, rows: Rules, pending: multiset<Id>)
    requires Backed(rules, rows, pending)
    ensures forall id :: id in rules ==>
      && id in rows && rows[id].container == rules[id].container && rows[id].pattern == rules[id].pattern
      && rows[id].matchType == rules[id].matchType && rows[id].cooldownSec == rules[id].cooldownSec
      && (rows[id].enabled || id in pending)
  {
  }

  /** A removal takes one place and one rule, and enqueues only held rules that do not compile. */
  lemma RemovalMeans(m: Moment, id: Id, regexCompiles: string -> bool, dbOk: Id -> bool)
    requires id in m.pending
    ensures var now := Next(m, Removal(id, dbOk), regexCompiles);
      && now.rules == m.rules - {id} && OnlyDisabled(m.rows, now.rows) && now.running == m.running
      && (id !in m.rules ==> now.pending == m.pending - multiset{id})
      && (forall i :: i in now.pending && i !in m.pending ==> i in now.rules && !Compiles(now.rules[i], regexCompiles))
      && (forall i :: i in m.pending && i != id ==> i in now.pending)
  {
    hide Compiles;
    if id !in m.rules { assert m.rules - {id} == m.rules; }
  }

  lemma UnwatchedElsewhere(rules: Rules, containers: set<string>, regexCompiles: string -> bool)
    requires forall id :: id in rules ==> rules[id].container in containers
    ensures Indexed(rules, map[], regexCompiles, containers)
  {
    forall c | c !in containers ensures IndexedAt(rules, map[], c, regexCompiles) {
      assert Watchable(rules, c, regexCompiles) == {};
    }
  }

  lemma BrokenMembers(rules: Rules, container: string, regexCompiles: string -> bool)
    ensures forall id :: id in rules && rules[id].container == container && !Compiles(rules[id], regexCompiles) ==>
      id in multiset(Broken(rules, {container}, regexCompiles))
  {
  }

  lemma SmallerMap(m: Rules, id: Id)
    requires id in m
    ensures |m - {id}| < |m|
  {
    assert (m - {id}).Keys == m.Keys - {id};
    assert |m.Keys - {id}| < |m.Keys|;
  }

  /** From `rules0` and `pending0` on, only rules with a pending removal go, and only they are pending. */
  ghost predicate Draining(rules0: Rules, pending0: multiset<Id>, rules: Rules, pending: multiset<Id>) {
    && (forall id :: id in rules ==> id in rules0 && rules[id] == rules0[id])
    && (forall id :: id in rules0 && id !in rules ==> id in pending0)
    && (forall id :: id in pending ==> id in pending0)
    && (forall id :: id in pending0 && id in rules ==> id in pending)
  }

  lemma DrainingGoesOn(rules0: Rules, pending0: multiset<Id>, rules: Rules, pending: multiset<Id>,
                       rules': Rules, pending': multiset<Id>, id: Id, regexCompiles: string -> bool)
    requires Draining(rules0, pending0, rules, pending) && id in pending
    requires forall i :: i in rules && i !in pending ==> Compiles(rules[i], regexCompiles)
    requires rules' == rules - {id}
    requires forall i :: i in pending' && i !in pending ==> i in rules' && !Compiles(rules'[i], regexCompiles)
    requires forall i :: i in pending && i != id ==> i in pending'
    ensures Draining(rules0, pending0, rules', pending')
  {
    hide Compiles;
  }

  lemma Drained(rules0: Rules, pending0: multiset<Id>, rules: Rules)
    requires Draining(rules0, pending0, rules, multiset{})
    ensures rules == map id | id in rules0 && id !in pending0 :: rules0[id]
  {
  }

  lemma SameRuleReflexive()
    ensures forall r: LogRule :: SameRule(r, r)
  {
  }

  lemma OnlyDisabledItself(rows: Rules)
    ensures OnlyDisabled(rows, rows)
  {
  }

  lemma OnlyDisabledTwice(a: Rules, b: Rules, c: Rules)
    requires OnlyDisabled(a, b) && OnlyDisabled(b, c)
    ensures OnlyDisabled(a, c)
  {
  }

  /** A rule that agrees with its row can be held, or dropped, beside backed ones. */
  lemma HeldIsBacked(rules: Rules, rows: Rules, pending: multiset<Id>, rule: LogRule)
    requires Backed(rules - {rule.id}, rows, pending)
    requires rule.id in rows && SameRule(rule, rows[rule.id]) && (rule.enabled ==> rows[rule.id].enabled)
    ensures Backed(if rule.enabled then rules[rule.id := rule] else rules - {rule.id}, rows, pending)
  {
    hide SameRule;
  }

  /** Disabling the row of a rule whose removal is enqueued with it keeps every held rule backed. */
  lemma StillBacked(rules: Rules, rows: Rules, pending: multiset<Id>, rows': Rules, pending': multiset<Id>, id: Id)
    requires Backed(rules, rows, pending) && OnlyDisabled(rows, rows')
    requires pending' == pending + multiset{id}
    requires forall i :: i in rows && i != id ==> rows'[i] == rows[i]
    ensures Backed(rules, rows', pending')
  {
  }
}
